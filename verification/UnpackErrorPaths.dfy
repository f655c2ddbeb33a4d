/** Where unpacking errors are reported, as `ErrorPaths` says for packing. */
module UnpackErrorPaths {
  import opened Types
  import opened Packing
  import opened Unpacking

  /** Message data the unpacker descends into, or a place where it stops on the way to it. */
  datatype Child =
    | Sub(frame: Frame, data: Data, typ: Option<TypeDef>)
    | Broken(error: ErrorKind, path: seq<Frame>)

  function UnpackChild(env: Env, c: Child): Result<Py> {
    match c
    case Sub(f, d, t) => Within(f, Unpack(env, d, t))
    case Broken(e, path) => Err(e, path)
  }

  predicate FirstFailing(env: Env, cs: seq<Child>, k: nat) {
    k < |cs| && UnpackChild(env, cs[k]).Err? && forall j | 0 <= j < k :: UnpackChild(env, cs[j]).Ok?
  }

  predicate AllUnpack(env: Env, cs: seq<Child>) {
    forall k | 0 <= k < |cs| :: UnpackChild(env, cs[k]).Ok?
  }

  /** The data directly below `d`, in the order the unpacker visits it. */
  function Children(env: Env, d: Data, t: Option<TypeDef>): seq<Child>
    decreases if IsVarValue(t) && t.value.container.NoContainer? then 1 else 0
  {
    if t.Just? && t.value.base.Void? then []
    else if !d.Nested? then []
    else if IsVarValue(t) then
      if t.value.container.NoContainer? then Children(env, d, InnerType(d))
      else if d.typ.ListT? then VarItemChildren(d.elems, 0)
      else if d.typ.VectorT? then IntChildren(d.elems, Just(VARVALUE_TYPE))
      else if d.typ.DictionaryT? then StringChildren(d.elems, Just(VARVALUE_TYPE), true)
      else []
    else match d.typ
      case StructureT => if d.typeName in env.structs then FieldChildren(d.elems, env.structs[d.typeName]) else []
      case ListT => ItemChildren(d.elems, ElementType(t), 0)
      case VectorT => IntChildren(d.elems, ElementType(t))
      case DictionaryT => StringChildren(d.elems, ElementType(t), false)
      case _ => []
  }

  function FieldChildren(es: seq<Elem>, fs: seq<Field>): seq<Child> {
    seq(|fs|, i requires 0 <= i < |fs| => FieldChild(es, fs[i]))
  }

  /** A field's level is entered before its element is looked up. */
  function FieldChild(es: seq<Elem>, f: Field): Child {
    var frame := Frame(Member(f.name), Just(f.typ));
    match FindElement(es, f.name)
    case Nothing => Broken(NotFoundError, [frame])
    case Just(e) => Sub(frame, e.data, Just(f.typ))
  }

  function ItemChildren(es: seq<Elem>, t: Option<TypeDef>, from: nat): seq<Child> {
    seq(|es|, i requires 0 <= i < |es| => ItemChild(es[i], t, from + i))
  }

  /** A list item's level is entered before its position is checked, but after for varvalue lists. */
  function ItemChild(e: Elem, t: Option<TypeDef>, i: nat): Child {
    var pos := CheckPosition(e.id, i);
    if pos.Err? then Broken(pos.error, [Frame(Index(i), t)]) else Sub(Frame(Index(i), t), e.data, t)
  }

  function VarItemChildren(es: seq<Elem>, from: nat): seq<Child> {
    seq(|es|, i requires 0 <= i < |es| => VarItemChild(es[i], from + i))
  }

  function VarItemChild(e: Elem, i: nat): Child {
    var pos := CheckPosition(e.id, i);
    if pos.Err? then Broken(pos.error, pos.path)
    else Sub(Frame(Index(i), Just(VARVALUE_TYPE)), e.data, Just(VARVALUE_TYPE))
  }

  function IntChildren(es: seq<Elem>, t: Option<TypeDef>): seq<Child> {
    seq(|es|, i requires 0 <= i < |es| => IntChild(es[i], t))
  }

  function IntChild(e: Elem, t: Option<TypeDef>): Child {
    match ItemNumber(e.id)
    case Err(err, path) => Broken(err, path)
    case Ok(n) => Sub(Frame(Index(n), t), e.data, t)
  }

  function StringChildren(es: seq<Elem>, t: Option<TypeDef>, quoted: bool): seq<Child> {
    seq(|es|, i requires 0 <= i < |es| => StringChild(es[i], t, quoted))
  }

  function StringChild(e: Elem, t: Option<TypeDef>, quoted: bool): Child {
    var key := NameOf(e.id);
    Sub(Frame(if quoted then QuotedKey(key) else BareKey(key), t), e.data, t)
  }

  /** A loop's result: the error of the first failing child, or success when there is none. */
  ghost predicate Stops<T>(env: Env, cs: seq<Child>, r: Result<T>) {
    && (AllUnpack(env, cs) ==> r.Ok?)
    && forall k: nat :: FirstFailing(env, cs, k) ==> r == UnpackChild(env, cs[k]).PropagateFailure()
  }

  /** How the verdict of a loop follows from its first child and the rest of the loop. */
  lemma StopsStep<T, S>(env: Env, cs: seq<Child>, rest: Result<T>, r: Result<S>)
    requires cs != [] && Stops(env, cs[1..], rest)
    requires UnpackChild(env, cs[0]).Err? ==> r == UnpackChild(env, cs[0]).PropagateFailure()
    requires UnpackChild(env, cs[0]).Ok? ==> (r.Ok? <==> rest.Ok?) && (rest.Err? ==> r == rest.PropagateFailure())
    ensures Stops(env, cs, r)
  {
    hide UnpackChild;
    forall k: nat | FirstFailing(env, cs, k) ensures r == UnpackChild(env, cs[k]).PropagateFailure() {
      if k > 0 {
        assert FirstFailing(env, cs[1..], k - 1) by {
          assert forall j | 0 <= j < k :: cs[1..][j] == cs[j + 1];
        }
      }
    }
    if AllUnpack(env, cs) {
      assert forall j | 0 <= j < |cs[1..]| :: cs[1..][j] == cs[j + 1];
    }
  }

  lemma {:induction false} ItemsStop(env: Env, es: seq<Elem>, t: Option<TypeDef>, i: nat)
    ensures Stops(env, ItemChildren(es, t, i), UnpackItems(env, es, t, i))
  {
    hide Unpack;
    if es != [] {
      var cs := ItemChildren(es, t, i);
      assert cs[1..] == ItemChildren(es[1..], t, i + 1);
      assert cs[0] == ItemChild(es[0], t, i);
      ItemsStop(env, es[1..], t, i + 1);
      StopsStep(env, cs, UnpackItems(env, es[1..], t, i + 1), UnpackItems(env, es, t, i)) by { hide Stops; }
    }
  }

  lemma {:induction false} VarItemsStop(env: Env, es: seq<Elem>, i: nat)
    ensures Stops(env, VarItemChildren(es, i), UnpackVarItems(env, es, i))
  {
    hide Unpack;
    if es != [] {
      var cs := VarItemChildren(es, i);
      assert cs[1..] == VarItemChildren(es[1..], i + 1);
      assert cs[0] == VarItemChild(es[0], i);
      VarItemsStop(env, es[1..], i + 1);
      StopsStep(env, cs, UnpackVarItems(env, es[1..], i + 1), UnpackVarItems(env, es, i)) by { hide Stops; }
    }
  }

  lemma {:induction false} IntEntriesStop(env: Env, es: seq<Elem>, t: Option<TypeDef>, done: seq<Entry>)
    ensures Stops(env, IntChildren(es, t), UnpackIntEntries(env, es, t, done))
    decreases es
  {
    hide Unpack;
    if es != [] {
      var cs := IntChildren(es, t);
      assert cs[1..] == IntChildren(es[1..], t);
      assert cs[0] == IntChild(es[0], t);
      var n, v := ItemNumber(es[0].id), Unpack(env, es[0].data, t);
      var done' := if n.Ok? && v.Ok? then DictSet(done, PyInt(n.value), v.value) else done;
      IntEntriesStop(env, es[1..], t, done');
      StopsStep(env, cs, UnpackIntEntries(env, es[1..], t, done'), UnpackIntEntries(env, es, t, done)) by {
        hide Stops;
      }
    }
  }

  lemma {:induction false} StringEntriesStop(env: Env, es: seq<Elem>, t: Option<TypeDef>, quoted: bool,
                                             done: seq<Entry>)
    ensures Stops(env, StringChildren(es, t, quoted), UnpackStringEntries(env, es, t, quoted, done))
    decreases es
  {
    hide Unpack;
    if es != [] {
      var cs := StringChildren(es, t, quoted);
      assert cs[1..] == StringChildren(es[1..], t, quoted);
      assert cs[0] == StringChild(es[0], t, quoted);
      var v := Unpack(env, es[0].data, t);
      var done' := if v.Ok? then DictSet(done, Str(NameOf(es[0].id)), v.value) else done;
      StringEntriesStop(env, es[1..], t, quoted, done');
      StopsStep(env, cs, UnpackStringEntries(env, es[1..], t, quoted, done'),
        UnpackStringEntries(env, es, t, quoted, done))
        by { hide Stops; }
    }
  }

  lemma {:induction false} FieldsStop(env: Env, es: seq<Elem>, fs: seq<Field>)
    ensures Stops(env, FieldChildren(es, fs), UnpackFields(env, es, fs))
    decreases |fs|
  {
    hide Unpack;
    if fs != [] {
      var cs := FieldChildren(es, fs);
      assert cs[1..] == FieldChildren(es, fs[1..]);
      assert cs[0] == FieldChild(es, fs[0]);
      FieldsStop(env, es, fs[1..]);
      StopsStep(env, cs, UnpackFields(env, es, fs[1..]), UnpackFields(env, es, fs)) by { hide Stops; }
    }
  }

  // ----- pods, named arrays and numbers add no level

  predicate Flat<T>(r: Result<T>) {
    r.Err? ==> r.path == []
  }

  lemma {:induction false} PodsFlat(env: Env, d: Data, t: Option<TypeDef>)
    ensures Flat(UnpackPods(env, d, t))
    decreases d, 0
  {
    if d.Nested? && d.typ.PodArrayT? && d.typeName in env.pods {
      RecordsFlat(env, env.pods[d.typeName], d.elems, 0);
      hide UnpackRecords;
    }
  }

  lemma {:induction false} RecordsFlat(env: Env, fs: seq<Field>, es: seq<Elem>, i: nat)
    ensures Flat(UnpackRecords(env, fs, es, i))
    decreases es, 0
  {
    if es != [] {
      if es[0].data.Nested? {
        assert es[0].data < es[0];
        SlotsFlat(env, fs, es[0].data.elems);
      }
      RecordsFlat(env, fs, es[1..], i + 1);
      hide UnpackSlots;
    }
  }

  lemma {:induction false} SlotsFlat(env: Env, fs: seq<Field>, es: seq<Elem>)
    ensures Flat(UnpackSlots(env, fs, es))
    decreases es, |fs|
  {
    if fs != [] {
      var found := FindElement(es, fs[0].name);
      if found.Just? {
        FindElementIn(es, fs[0].name);
        assert found.value.data < found.value;
        SlotCellsFlat(env, fs[0].typ, found.value.data);
      }
      SlotsFlat(env, fs[1..], es);
      hide UnpackSlotCells;
    }
  }

  lemma {:induction false} SlotCellsFlat(env: Env, t: TypeDef, d: Data)
    ensures Flat(UnpackSlotCells(env, t, d))
    decreases d, 1
  {
    if t.base.Named? && t.base.def.Pod? {
      PodsFlat(env, d, Just(FlattenType(t)));
    }
    hide UnpackPods;
  }

  lemma LeavesFlat(env: Env, d: Data, t: Option<TypeDef>)
    ensures d.Nums? ==> Flat(UnpackNumbers(d.kind, d.xs, t))
    ensures d.Nested? ==> Flat(UnpackMultiDimNumbers(d.elems, t)) && Flat(UnpackNamedArray(env, d, t))
    ensures d.Nested? && (d.typ.PodMultiDimT? || d.typ.NamedMultiDimT?) ==> Flat(UnpackMultiDimRecords(env, d, t))
  {
    if d.Nested? {
      var e := FindElement(d.elems, "array");
      if e.Just? {
        PodsFlat(env, e.value.data,
          if t.Just? then Just(t.value.(arr := Array, lengths := [], varLength := true)) else Nothing);
      }
    }
    hide UnpackPods;
  }

  // ----- one level

  /** A failing child decides the result, and without one an error concerns the data itself. */
  ghost predicate OneLevel(env: Env, d: Data, t: Option<TypeDef>) {
    && (AllUnpack(env, Children(env, d, t)) ==> Flat(Unpack(env, d, t)))
    && forall k: nat :: FirstFailing(env, Children(env, d, t), k) ==>
         Unpack(env, d, t) == UnpackChild(env, Children(env, d, t)[k])
  }

  lemma OneLevelNested(env: Env, d: Data, t: Option<TypeDef>)
    requires d.Nested? && !IsVarValue(t) && !(t.Just? && t.value.base.Void?)
    ensures OneLevel(env, d, t)
  {
    hide UnpackFields, UnpackItems, UnpackIntEntries, UnpackStringEntries, UnpackPods, UnpackNamedArray,
         UnpackMultiDimRecords, UnpackMultiDimNumbers, FieldChildren, ItemChildren, IntChildren, StringChildren,
         UnpackChild;
    assert Unpack(env, d, t) == UnpackNested(env, d, t);
    match d.typ
    case StructureT =>
      if d.typeName in env.structs {
        FieldsStop(env, d.elems, env.structs[d.typeName]);
      }
    case VectorT => IntEntriesStop(env, d.elems, ElementType(t), []);
    case DictionaryT => StringEntriesStop(env, d.elems, ElementType(t), false, []);
    case ListT => ItemsStop(env, d.elems, ElementType(t), 0);
    case _ =>
      PodsFlat(env, d, t);
      LeavesFlat(env, d, t);
  }

  lemma OneLevelVarContainer(env: Env, d: Data, t: Option<TypeDef>)
    requires d.Nested? && IsVarValue(t) && !t.value.container.NoContainer?
    ensures OneLevel(env, d, t)
  {
    VarItemsStop(env, d.elems, 0);
    IntEntriesStop(env, d.elems, Just(VARVALUE_TYPE), []);
    StringEntriesStop(env, d.elems, Just(VARVALUE_TYPE), true, []);
    hide UnpackVarItems, UnpackIntEntries, UnpackStringEntries, VarItemChildren, IntChildren, StringChildren,
         UnpackChild;
    assert Unpack(env, d, t) == UnpackVarContainer(env, d);
  }

  lemma OneLevelAlways(env: Env, d: Data, t: Option<TypeDef>)
    ensures OneLevel(env, d, t)
    decreases if IsVarValue(t) && t.value.container.NoContainer? then 1 else 0
  {
    if d.Nested? && !(t.Just? && t.value.base.Void?) {
      if !IsVarValue(t) {
        OneLevelNested(env, d, t);
      } else if !t.value.container.NoContainer? {
        OneLevelVarContainer(env, d, t);
      } else {
        OneLevelAlways(env, d, InnerType(d));
        InferFlat(env, d);
        hide UnpackNested, UnpackVarContainer, InferType, UnpackChild;
        assert Children(env, d, t) == Children(env, d, InnerType(d));
      }
    } else {
      LeavesFlat(env, d, t);
      InferFlat(env, d);
      LeavesFlat(env, d, Just(ENUM_TYPE));
      LeavesFlat(env, d, Nothing);
      assert Children(env, d, t) == [];
      if !d.Nested? {
        assert InnerType(d) == Nothing;
        assert Flat(Unpack(env, d, Nothing));
        assert Flat(Unpack(env, d, t));
      }
    }
  }

  lemma InferFlat(env: Env, d: Data)
    ensures Flat(InferType(env, d))
  {
  }

  // ----- the whole path

  /** `path` leads from `d` to the first failing element in traversal order, which fails by itself
      with `e`. */
  ghost predicate LeadsToFailure(env: Env, d: Data, t: Option<TypeDef>, e: ErrorKind, path: seq<Frame>)
    decreases |path|
  {
    var cs := Children(env, d, t);
    if AllUnpack(env, cs) then path == [] && Unpack(env, d, t) == Err(e, [])
    else
      exists k: nat ::
        && FirstFailing(env, cs, k)
        && match cs[k]
           case Broken(e', p) => e == e' && path == p
           case Sub(f, d', t') => path != [] && path[0] == f && LeadsToFailure(env, d', t', e, path[1..])
  }

  lemma {:induction false} SomeFirstFailing(env: Env, cs: seq<Child>, n: nat) returns (k: nat)
    requires n < |cs| && UnpackChild(env, cs[n]).Err?
    ensures FirstFailing(env, cs, k)
  {
    hide UnpackChild;
    if j :| 0 <= j < n && UnpackChild(env, cs[j]).Err? {
      k := SomeFirstFailing(env, cs, j);
    } else {
      k := n;
    }
  }

  /** When unpacking fails, the path it reports leads to the first failing element in traversal order. */
  lemma {:induction false} PathLeadsToFailure(env: Env, d: Data, t: Option<TypeDef>)
    requires Unpack(env, d, t).Err?
    ensures LeadsToFailure(env, d, t, Unpack(env, d, t).error, Unpack(env, d, t).path)
    decreases |Unpack(env, d, t).path|
  {
    var cs := Children(env, d, t);
    OneLevelAlways(env, d, t);
    if k :| 0 <= k < |cs| && UnpackChild(env, cs[k]).Err? {
      var first := SomeFirstFailing(env, cs, k);
      match cs[first]
      case Broken(_, _) =>
      case Sub(f, d', t') =>
        var path := Unpack(env, d, t).path;
        assert path[1..] == Unpack(env, d', t').path;
        PathLeadsToFailure(env, d', t');
    }
  }
}
