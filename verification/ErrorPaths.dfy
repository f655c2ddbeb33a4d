/** Where packing errors are reported: the path on the field stack leads to the first failing value in
    traversal order. */
module ErrorPaths {
  import opened Types
  import opened Packing

  /** A value the packer descends into, or a place where it stops on the way to one. */
  datatype Child =
    | Sub(frame: Frame, value: Py, typ: TypeDef)
    | Broken(error: ErrorKind, path: seq<Frame>)

  /** The values directly below `v`, in the order the packer visits them. Varvalues, pods and named
      arrays add no level. */
  function Children(env: Env, v: Py, t: TypeDef): seq<Child> {
    var t2 := RemoveContainers(t);
    if t.base.VarValue? && t.container.NoContainer? then
      if v.VarVal? then Children(env, v.data, VarValueType(v.typ)) else []
    else if v == None then []
    else if t.container.NoContainer? then
      if t.base.Named? && t.base.def.Structure? then StructChildren(env, v, t.base.def.qname) else []
    else if Iterable(v) && !t.container.MapString? then ItemChildren(Items(v), t2)
    else if v.Dict? && !t.container.ListOf? then EntryChildren(v.entries, t)
    else []
  }

  function StructChildren(env: Env, v: Py, q: string): seq<Child> {
    if q !in env.structs || !v.Struct? || Mangle(q) != v.pyType then []
    else
      var fs := env.structs[q];
      seq(|fs|, i requires 0 <= i < |fs| => FieldChild(v.attrs, fs[i]))
  }

  function FieldChild(attrs: seq<Attr>, f: Field): Child {
    match AttrIndex(attrs, f.name)
    case Nothing => Broken(DataTypeError, [])
    case Just(i) => Sub(Frame(Member(f.name), Just(f.typ)), attrs[i].value, f.typ)
  }

  function ItemChildren(items: seq<Py>, t2: TypeDef): seq<Child> {
    seq(|items|, i requires 0 <= i < |items| => Sub(Frame(Index(i), Just(t2)), items[i], t2))
  }

  /** The level of an int map entry is entered before its key is checked, that of a string map entry
      after. */
  function EntryChild(e: Entry, t: TypeDef): Child {
    var t2 := RemoveContainers(t);
    if t.container.MapInt32? then
      var f := Frame(Index(KeyNumber(e.key)), Just(t2));
      if IntKeyOk(e.key) then Sub(f, e.value, t2) else Broken(DataTypeError, [f])
    else if e.key.Str? then Sub(Frame(QuotedKey(e.key.s), Just(t2)), e.value, t2)
    else Broken(DataTypeError, [])
  }

  function EntryChildren(entries: seq<Entry>, t: TypeDef): seq<Child> {
    seq(|entries|, i requires 0 <= i < |entries| => EntryChild(entries[i], t))
  }

  /** What packing a child alone gives, with the path seen from its parent. */
  function PackChild(env: Env, c: Child): Result<Data> {
    match c
    case Sub(f, v, t) => Within(f, Pack(env, v, t))
    case Broken(e, path) => Err(e, path)
  }

  predicate FirstFailing(env: Env, cs: seq<Child>, k: nat) {
    k < |cs| && PackChild(env, cs[k]).Err? && forall j | 0 <= j < k :: PackChild(env, cs[j]).Ok?
  }

  // ----- the element loops stop at the first failing element

  lemma {:induction false} ItemsFirst(env: Env, items: seq<Py>, t: TypeDef, i: nat, k: nat)
    requires k < |items| && Pack(env, items[k], t).Err? && forall j | 0 <= j < k :: Pack(env, items[j], t).Ok?
    ensures PackItems(env, items, t, i)
            == Within(Frame(Index(i + k), Just(t)), Pack(env, items[k], t)).PropagateFailure()
  {
    hide Pack;
    if k > 0 {
      assert Pack(env, items[0], t).Ok?;
      assert forall j | 0 <= j < |items| - 1 :: items[1..][j] == items[j + 1];
      ItemsFirst(env, items[1..], t, i + 1, k - 1);
    }
  }

  lemma {:induction false} EntriesFirst(env: Env, entries: seq<Entry>, t: TypeDef, k: nat)
    requires FirstFailing(env, EntryChildren(entries, t), k) && (t.container.MapInt32? || t.container.MapString?)
    ensures var e := PackChild(env, EntryChildren(entries, t)[k]).PropagateFailure();
      if t.container.MapInt32? then PackIntEntries(env, entries, RemoveContainers(t)) == e
      else PackStringEntries(env, entries, RemoveContainers(t)) == e
  {
    hide Pack, KeyNumber, IntKeyOk;
    var cs := EntryChildren(entries, t);
    assert cs[0] == EntryChild(entries[0], t);
    if k > 0 {
      assert PackChild(env, cs[0]).Ok?;
      assert EntryChildren(entries[1..], t) == cs[1..];
      assert FirstFailing(env, cs[1..], k - 1) by {
        assert forall j | 0 <= j < k - 1 :: cs[1..][j] == cs[j + 1];
      }
      EntriesFirst(env, entries[1..], t, k - 1);
    }
  }

  lemma {:induction false} FieldsFirst(env: Env, attrs: seq<Attr>, fs: seq<Field>, k: nat)
    requires FirstFailing(env, seq(|fs|, i requires 0 <= i < |fs| => FieldChild(attrs, fs[i])), k)
    ensures PackFields(env, attrs, fs) == PackChild(env, FieldChild(attrs, fs[k])).PropagateFailure()
    decreases |fs|
  {
    hide Pack, AttrIndex;
    var cs := seq(|fs|, i requires 0 <= i < |fs| => FieldChild(attrs, fs[i]));
    assert cs[0] == FieldChild(attrs, fs[0]);
    if k > 0 {
      assert PackChild(env, cs[0]).Ok?;
      var rest := seq(|fs[1..]|, i requires 0 <= i < |fs[1..]| => FieldChild(attrs, fs[1..][i]));
      assert rest == cs[1..];
      assert FirstFailing(env, rest, k - 1) by {
        assert forall j | 0 <= j < k - 1 :: rest[j] == cs[j + 1];
      }
      FieldsFirst(env, attrs, fs[1..], k - 1);
    }
  }

  // ----- the loops succeed when every element does

  lemma {:induction false} ItemsAll(env: Env, items: seq<Py>, t: TypeDef, i: nat)
    requires forall j | 0 <= j < |items| :: Pack(env, items[j], t).Ok?
    ensures PackItems(env, items, t, i).Ok?
  {
    hide Pack;
    if items != [] {
      assert forall j | 0 <= j < |items| - 1 :: items[1..][j] == items[j + 1];
      ItemsAll(env, items[1..], t, i + 1);
    }
  }

  lemma {:induction false} EntriesAll(env: Env, entries: seq<Entry>, t: TypeDef)
    requires forall j | 0 <= j < |entries| :: PackChild(env, EntryChild(entries[j], t)).Ok?
    requires t.container.MapInt32? || t.container.MapString?
    ensures if t.container.MapInt32? then PackIntEntries(env, entries, RemoveContainers(t)).Ok?
            else PackStringEntries(env, entries, RemoveContainers(t)).Ok?
  {
    hide Pack, KeyNumber, IntKeyOk;
    if entries != [] {
      assert PackChild(env, EntryChild(entries[0], t)).Ok?;
      assert forall j | 0 <= j < |entries| - 1 :: entries[1..][j] == entries[j + 1];
      EntriesAll(env, entries[1..], t);
    }
  }

  lemma {:induction false} FieldsAll(env: Env, attrs: seq<Attr>, fs: seq<Field>)
    requires forall j | 0 <= j < |fs| :: PackChild(env, FieldChild(attrs, fs[j])).Ok?
    ensures PackFields(env, attrs, fs).Ok?
    decreases |fs|
  {
    hide Pack, AttrIndex;
    if fs != [] {
      assert PackChild(env, FieldChild(attrs, fs[0])).Ok?;
      assert forall j | 0 <= j < |fs| - 1 :: fs[1..][j] == fs[j + 1];
      FieldsAll(env, attrs, fs[1..]);
    }
  }

  // ----- pods and numbers add no level

  lemma {:induction false} RecordsFailure(fs: seq<Field>, order: seq<nat>, cells: seq<Cell>, k: nat)
    requires k <= |order| && forall p | p in order :: p < |cells|
    ensures PackRecords(fs, order, cells, k).Err? ==> PackRecords(fs, order, cells, k).path == []
    decreases cells, |order| - k
  {
    if k < |order| {
      assert order[k] in order;
      var c := cells[order[k]];
      if c.Record? { SlotsFailure(fs, c.fields); }
      RecordsFailure(fs, order, cells, k + 1);
    }
  }

  lemma {:induction false} SlotsFailure(fs: seq<Field>, slots: seq<Slot>)
    ensures PackSlots(fs, slots).Err? ==> PackSlots(fs, slots).path == []
    decreases slots
  {
    if fs != [] && slots != [] {
      SlotFailure(fs[0].typ, slots[0]);
      SlotsFailure(fs[1..], slots[1..]);
    }
  }

  lemma {:induction false} SlotFailure(t: TypeDef, s: Slot)
    ensures PackSlot(t, s).Err? ==> PackSlot(t, s).path == []
    decreases s
  {
    var order := ColumnMajor.FortranOrder(SlotDims(t, s));
    if |order| <= |s.cells| && t.base.Named? && t.base.def.Pod? {
      RecordsFailure(t.base.def.fields, order, s.cells, 0);
    }
    hide PackRecords, PackSequence, Convert;
  }

  lemma RecordValueFailure(v: Py, t: TypeDef, def: NamedDef)
    ensures PackRecordValue(v, t, def).Err? ==> PackRecordValue(v, t, def).path == []
  {
    if v.NdArray? && def.Pod? {
      var order := ColumnMajor.FortranOrder(v.shape);
      if |order| <= |v.cells| {
        RecordsFailure(def.fields, order, v.cells, 0);
      }
    }
    hide PackRecords;
  }

  lemma NumbersFailure(v: Py, t: TypeDef, k: Kind)
    ensures PackNumbers(v, t, k).Err? ==> PackNumbers(v, t, k).path == []
    ensures PackMultiDimNumbers(v, t, k).Err? ==> PackMultiDimNumbers(v, t, k).path == []
  {
    hide Convert;
  }

  lemma PlainFailure(env: Env, v: Py, t: TypeDef)
    requires t.base.Named? && t.base.def.Structure? && v.Struct? && t.base.def.qname in env.structs ==>
      Mangle(t.base.def.qname) == v.pyType ==> PackFields(env, v.attrs, env.structs[t.base.def.qname]).Ok?
    ensures PackPlain(env, v, t).Err? ==> PackPlain(env, v, t).path == []
  {
    hide PackFields, PackRecordValue, PackNumbers, PackMultiDimNumbers, Mangle;
    if t.base.Numeric? {
      NumbersFailure(v, t, t.base.kind);
    } else if t.base.Named? {
      NumbersFailure(v, ENUM_TYPE, Int32);
      RecordValueFailure(v, t, t.base.def);
    }
  }

  // ----- one level

  /** A failing child decides the result, path included. */
  lemma {:induction false} ChildFailure(env: Env, v: Py, t: TypeDef, k: nat)
    requires FirstFailing(env, Children(env, v, t), k)
    ensures Pack(env, v, t) == PackChild(env, Children(env, v, t)[k])
    decreases v
  {
    hide PackPlain, PackContainer, StructChildren, ItemChildren, EntryChildren, Items, FirstFailing, PackChild;
    if t.base.VarValue? && t.container.NoContainer? {
      ChildrenOfVarVal(env, v, t, k);
      ChildFailure(env, v.data, VarValueType(v.typ), k);
    } else if t.container.NoContainer? {
      StructChildFailure(env, v, t, k);
    } else if Iterable(v) && !t.container.MapString? {
      ItemChildFailure(env, v, t, k);
    } else {
      EntryChildFailure(env, v, t, k);
    }
  }

  lemma SomeChild(env: Env, v: Py, t: TypeDef, k: nat)
    requires FirstFailing(env, Children(env, v, t), k)
    ensures Children(env, v, t) != []
  {
    hide Children;
  }

  lemma ChildrenOfVarVal(env: Env, v: Py, t: TypeDef, k: nat)
    requires FirstFailing(env, Children(env, v, t), k) && t.base.VarValue? && t.container.NoContainer?
    ensures v.VarVal? && Children(env, v, t) == Children(env, v.data, VarValueType(v.typ))
    ensures Pack(env, v, t) == Pack(env, v.data, VarValueType(v.typ))
  {
    SomeChild(env, v, t, k);
    hide FirstFailing;
  }

  lemma StructChildFailure(env: Env, v: Py, t: TypeDef, k: nat)
    requires FirstFailing(env, Children(env, v, t), k) && !t.base.VarValue? && t.container.NoContainer?
    ensures Pack(env, v, t) == PackChild(env, Children(env, v, t)[k])
  {
    hide Pack, PackFields, Mangle;
    SomeChild(env, v, t, k);
    var q := t.base.def.qname;
    assert Children(env, v, t) == StructChildren(env, v, q);
    FieldsFirst(env, v.attrs, env.structs[q], k);
    assert PackStruct(env, v, q) == PackFields(env, v.attrs, env.structs[q]).PropagateFailure();
    StructIsPlain(env, v, t, q);
  }

  lemma StructIsPlain(env: Env, v: Py, t: TypeDef, q: string)
    requires t.base == Named(Structure(q)) && t.container.NoContainer? && v != None
    ensures Pack(env, v, t) == PackStruct(env, v, q)
  {
    hide PackStruct;
  }

  lemma ContainerIsPacked(env: Env, v: Py, t: TypeDef)
    requires !t.container.NoContainer? && v != None
    ensures Pack(env, v, t) == PackContainer(env, v, t)
  {
    hide PackContainer;
  }

  lemma ItemChildFailure(env: Env, v: Py, t: TypeDef, k: nat)
    requires FirstFailing(env, Children(env, v, t), k) && Iterable(v)
    requires t.container.ListOf? || t.container.MapInt32?
    ensures Pack(env, v, t) == PackChild(env, Children(env, v, t)[k])
  {
    hide Pack, Items, PackItems;
    var items, t2 := Items(v), RemoveContainers(t);
    ItemsFirst(env, items, t2, 0, k) by {
      forall j | 0 <= j <= k ensures PackChild(env, ItemChildren(items, t2)[j]).Ok? <==> Pack(env, items[j], t2).Ok? {
      }
    }
    ContainerIsPacked(env, v, t);
  }

  lemma EntryChildFailure(env: Env, v: Py, t: TypeDef, k: nat)
    requires FirstFailing(env, Children(env, v, t), k) && !t.container.NoContainer?
    requires !(Iterable(v) && !t.container.MapString?)
    ensures Pack(env, v, t) == PackChild(env, Children(env, v, t)[k])
  {
    hide Pack, PackIntEntries, PackStringEntries;
    SomeChild(env, v, t, k);
    EntriesFirst(env, v.entries, t, k);
    ContainerIsPacked(env, v, t);
  }

  /** When every child packs, an error concerns the value itself: the path stops there. */
  lemma {:induction false} OwnFailure(env: Env, v: Py, t: TypeDef)
    requires forall k | 0 <= k < |Children(env, v, t)| :: PackChild(env, Children(env, v, t)[k]).Ok?
    ensures Pack(env, v, t).Err? ==> Pack(env, v, t).path == []
    decreases v
  {
    var t2 := RemoveContainers(t);
    var cs := Children(env, v, t);
    if t.base.VarValue? && t.container.NoContainer? {
      if v.VarVal? { OwnFailure(env, v.data, VarValueType(v.typ)); }
    } else if v != None && t.container.NoContainer? {
      if t.base.Named? && t.base.def.Structure? && v.Struct? && t.base.def.qname in env.structs &&
         Mangle(t.base.def.qname) == v.pyType
      {
        var fs := env.structs[t.base.def.qname];
        assert forall j | 0 <= j < |fs| :: cs[j] == FieldChild(v.attrs, fs[j]);
        FieldsAll(env, v.attrs, fs);
      }
      PlainFailure(env, v, t);
    } else if Iterable(v) && !t.container.MapString? {
      var items := Items(v);
      forall j | 0 <= j < |cs| ensures Pack(env, items[j], t2).Ok? {
        assert PackChild(env, cs[j]).Ok?;
      }
      ItemsAll(env, items, t2, 0);
    } else if v.Dict? && !t.container.ListOf? {
      assert forall j | 0 <= j < |cs| :: cs[j] == EntryChild(v.entries[j], t);
      EntriesAll(env, v.entries, t);
    }
  }

  // ----- the whole path

  /** `path` leads from `v` to the first failing value in traversal order, which fails by itself with
      `e`: at every level all earlier children pack, and the path goes on into the first that does not. */
  ghost predicate LeadsToFailure(env: Env, v: Py, t: TypeDef, e: ErrorKind, path: seq<Frame>)
    decreases |path|
  {
    var cs := Children(env, v, t);
    if forall k | 0 <= k < |cs| :: PackChild(env, cs[k]).Ok? then path == [] && Pack(env, v, t) == Err(e, [])
    else
      exists k: nat ::
        && FirstFailing(env, cs, k)
        && match cs[k]
           case Broken(e', p) => e == e' && path == p
           case Sub(f, v', t') => path != [] && path[0] == f && LeadsToFailure(env, v', t', e, path[1..])
  }

  lemma {:induction false} SomeFirstFailing(env: Env, cs: seq<Child>, n: nat) returns (k: nat)
    requires n < |cs| && PackChild(env, cs[n]).Err?
    ensures FirstFailing(env, cs, k)
  {
    hide PackChild;
    if j :| 0 <= j < n && PackChild(env, cs[j]).Err? {
      k := SomeFirstFailing(env, cs, j);
    } else {
      k := n;
    }
  }

  /** When packing fails, the path it reports leads to the first failing value in traversal order. */
  lemma {:induction false} PathLeadsToFailure(env: Env, v: Py, t: TypeDef)
    requires Pack(env, v, t).Err?
    ensures LeadsToFailure(env, v, t, Pack(env, v, t).error, Pack(env, v, t).path)
    decreases |Pack(env, v, t).path|
  {
    var cs := Children(env, v, t);
    if k :| 0 <= k < |cs| && PackChild(env, cs[k]).Err? {
      var first := SomeFirstFailing(env, cs, k);
      ChildFailure(env, v, t, first);
      match cs[first]
      case Broken(_, _) =>
      case Sub(f, v', t') =>
        var path := Pack(env, v, t).path;
        assert path[1..] == Pack(env, v', t').path;
        PathLeadsToFailure(env, v', t');
    } else {
      OwnFailure(env, v, t);
    }
  }
}
