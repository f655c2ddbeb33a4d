/** The packer as the object it is: a recursive method that pushes a level onto the field stack before
    each nested value and pops it after, loops that append to the result, and exceptions that leave the
    stack as it is. */
module PackerClass {
  import opened ColumnMajor
  import opened Types
  import opened Packing
  import opened ErrorPaths
  import opened FieldStack

  /** The name `PackMessageElement` gives its element before the caller replaces it. */
  function RootName(v: Py, t: TypeDef): string {
    if t.base.VarValue? && t.container.NoContainer? && v.VarVal? then RootName(v.data, VarValueType(v.typ)) else t.name
  }

  /** `PackToRRArray1_int` and its siblings: the buffer is filled item by item until one is refused. */
  method FillArray(items: seq<Py>, k: Kind) returns (r: Outcome<array<Num>>)
    ensures r.Done? <==> forall i | 0 <= i < |items| :: Converts(k, items[i])
    ensures r.Done? ==> fresh(r.value) && r.value[..] == ConvertAll(k, items)
    ensures r.Thrown? ==> r.error == DataTypeError
  {
    var buf := new Num[|items|];
    var i := 0;
    while i < |items|
      invariant 0 <= i <= |items|
      invariant forall j | 0 <= j < i :: Converts(k, items[j]) && buf[j] == Convert(k, items[j]).value
    {
      var x := Convert(k, items[i]);
      if x.Nothing? {
        assert !Converts(k, items[i]);
        return Thrown(DataTypeError);
      }
      buf[i] := x.value;
      i := i + 1;
    }
    return Done(buf);
  }

  /** `PackToRRArray`. */
  method PackToRRArray(v: Py, t: TypeDef, k: Kind) returns (r: Outcome<seq<Num>>)
    ensures r == AsOutcome(PackNumbers(v, t, k))
  {
    hide Convert, ConvertAll, CheckLength, Items, PackNumpy;
    if v.NdArray? || (k.UInt8? && v.ByteArray?) || !(IsNumber(v) || IsSequence(v)) {
      r := AsOutcome(PackNumbers(v, t, k));
    } else {
      var items := if IsNumber(v) then [v] else Items(v);
      var checked := CheckLength(t, |items|);
      if checked.Err? {
        return Thrown(checked.error);
      }
      var buf := FillArray(items, k);
      r := if buf.Done? then Done(buf.value[..]) else Thrown(buf.error);
    }
  }

  /** `PackMessageElement_pod`: the loop over the records of the flattened array. */
  method PackPodRecords(fs: seq<Field>, order: seq<nat>, cells: seq<Cell>) returns (r: Outcome<seq<Elem>>)
    requires forall p | p in order :: p < |cells|
    ensures r == AsOutcome(PackRecords(fs, order, cells, 0))
    decreases cells
  {
    var ret: seq<Elem> := [];
    var i := 0;
    PrependNothing(PackRecords(fs, order, cells, 0));
    while i < |order|
      invariant 0 <= i <= |order|
      invariant PackRecords(fs, order, cells, 0) == Prepend(ret, PackRecords(fs, order, cells, i))
    {
      assert order[i] in order;
      var c := cells[order[i]];
      if !c.Record? {
        return Thrown(InternalError);
      }
      var fields := PackPodFields(fs, c.fields);
      if fields.Thrown? {
        return Thrown(fields.error);
      }
      PrependOne(ret, Elem(Number(i), Nested(PodT, "", fields.value)), PackRecords(fs, order, cells, i + 1));
      ret := ret + [Elem(Number(i), Nested(PodT, "", fields.value))];
      i := i + 1;
    }
    assert ret + [] == ret;
    return Done(ret);
  }

  /** The loop over the fields of one record. */
  method PackPodFields(fs: seq<Field>, slots: seq<Slot>) returns (r: Outcome<seq<Elem>>)
    ensures r == AsOutcome(PackSlots(fs, slots))
    decreases slots
  {
    var fields: seq<Elem> := [];
    var i := 0;
    PrependNothing(PackSlots(fs, slots));
    assert fs[0..] == fs && slots[0..] == slots;
    while i < |fs|
      invariant 0 <= i <= |fs| && i <= |slots|
      invariant PackSlots(fs, slots) == Prepend(fields, PackSlots(fs[i..], slots[i..]))
    {
      assert fs[i..][0] == fs[i] && fs[i..][1..] == fs[i + 1..];
      if i == |slots| {
        return Thrown(InternalError);
      }
      assert slots[i..][0] == slots[i] && slots[i..][1..] == slots[i + 1..];
      var d := PackPodField(fs[i].typ, slots[i]);
      if d.Thrown? {
        return Thrown(d.error);
      }
      PrependOne(fields, Elem(Name(fs[i].name), d.value), PackSlots(fs[i + 1..], slots[i + 1..]));
      fields := fields + [Elem(Name(fs[i].name), d.value)];
      i := i + 1;
    }
    assert fields + [] == fields;
    return Done(fields);
  }

  method PackPodField(t: TypeDef, s: Slot) returns (r: Outcome<Data>)
    ensures r == AsOutcome(PackSlot(t, s))
    decreases s
  {
    if s.Padded? && s.len > |s.cells| {
      return Thrown(DataTypeError);
    }
    if s.Padded? && s.len < 0 {
      return Thrown(InternalError);
    }
    var dims := SlotDims(t, s);
    match t.base
    case Named(Pod(q, fields)) =>
      var order := FortranOrder(dims);
      var checked := CheckRecords(FlattenType(t), |order|);
      if checked.Err? {
        return Thrown(checked.error);
      }
      if |order| > |s.cells| {
        return Thrown(InternalError);
      }
      var es := PackPodRecords(fields, order, s.cells);
      r := if es.Done? then Done(Nested(PodArrayT, q, es.value)) else Thrown(es.error);
    case _ => r := AsOutcome(PackSlot(t, s));
  }

  /** An element followed by the rest, unless the element fails. */
  function Followed(d: Result<Data>, id: Id, rest: Result<seq<Elem>>): Result<seq<Elem>> {
    if d.Err? then d.PropagateFailure() else Prepend([Elem(id, d.value)], rest)
  }

  lemma PackItemsStep(env: Env, items: seq<Py>, t: TypeDef, i: nat)
    requires i <= |items|
    ensures PackItems(env, items[i..], t, i)
         == if i == |items| then Ok([])
            else Followed(Within(Frame(Index(i), Just(t)), Pack(env, items[i], t)), Number(i),
                          PackItems(env, items[i + 1..], t, i + 1))
  {
    hide Pack;
    if i < |items| {
      assert items[i..][0] == items[i] && items[i..][1..] == items[i + 1..];
    }
  }

  lemma PackIntEntriesStep(env: Env, entries: seq<Entry>, t: TypeDef, i: nat)
    requires i <= |entries|
    ensures PackIntEntries(env, entries[i..], t)
         == if i == |entries| then Ok([])
            else
              var Entry(key, value) := entries[i];
              var f := Frame(Index(KeyNumber(key)), Just(t));
              Followed(Within(f, if IntKeyOk(key) then Pack(env, value, t) else Fail(DataTypeError)),
                       Number(KeyNumber(key)), PackIntEntries(env, entries[i + 1..], t))
  {
    hide Pack, KeyNumber, IntKeyOk;
    if i < |entries| {
      assert entries[i..][0] == entries[i] && entries[i..][1..] == entries[i + 1..];
    }
  }

  lemma PackStringEntriesStep(env: Env, entries: seq<Entry>, t: TypeDef, i: nat)
    requires i <= |entries|
    ensures PackStringEntries(env, entries[i..], t)
         == if i == |entries| then Ok([])
            else if !entries[i].key.Str? then Fail(DataTypeError)
            else
              var Entry(Str(key), value) := entries[i];
              Followed(Within(Frame(QuotedKey(key), Just(t)), Pack(env, value, t)), Name(key),
                       PackStringEntries(env, entries[i + 1..], t))
  {
    hide Pack;
    if i < |entries| {
      assert entries[i..][0] == entries[i] && entries[i..][1..] == entries[i + 1..];
    }
  }

  lemma PackFieldsStep(env: Env, attrs: seq<Attr>, fs: seq<Field>, i: nat)
    requires i <= |fs|
    ensures PackFields(env, attrs, fs[i..])
         == if i == |fs| then Ok([])
            else match AttrIndex(attrs, fs[i].name)
                 case Nothing => Fail(DataTypeError)
                 case Just(j) =>
                   Followed(Within(Frame(Member(fs[i].name), Just(fs[i].typ)), Pack(env, attrs[j].value, fs[i].typ)),
                            Name(fs[i].name), PackFields(env, attrs, fs[i + 1..]))
  {
    hide Pack, AttrIndex;
    if i < |fs| {
      assert fs[i..][0] == fs[i] && fs[i..][1..] == fs[i + 1..];
    }
  }

  class PackMessageElementImpl {
    var fieldName: seq<string>
    var fieldType: seq<Option<TypeDef>>

    constructor ()
      ensures fieldName == [] && fieldType == []
    {
      fieldName, fieldType := [], [];
    }

    method PushFieldLevel(l: Level, t: Option<TypeDef>)
      modifies this
      ensures fieldName == old(fieldName) + [LevelText(l)] && fieldType == old(fieldType) + [t]
    {
      fieldName, fieldType := fieldName + [LevelText(l)], fieldType + [t];
    }

    method PopFieldLevel()
      requires fieldName != [] && fieldType != []
      modifies this
      ensures fieldName == old(fieldName[..|fieldName| - 1]) && fieldType == old(fieldType[..|fieldType| - 1])
    {
      fieldName, fieldType := fieldName[..|fieldName| - 1], fieldType[..|fieldType| - 1];
    }

    /** One nested value: enter its level, pack it, leave the level unless it threw. */
    method PackLevel(env: Env, l: Level, v: Py, t: TypeDef) returns (r: Outcome<Elem>)
      modifies this
      ensures Stacked(Within(Frame(l, Just(t)), Pack(env, v, t)), r,
                      old(fieldName), old(fieldType), fieldName, fieldType)
      ensures r.Done? ==> r.value.data == Pack(env, v, t).value
      decreases Rank(v, t.container.NoContainer?), v, 3, 0
    {
      hide Pack, Within, Names, TypesOf, LevelText;
      PushFieldLevel(l, Just(t));
      r := PackMessageElement(env, v, t);
      StackedInLevel(Frame(l, Just(t)), Pack(env, v, t), r, old(fieldName), old(fieldType), fieldName, fieldType);
      if r.Done? {
        PopFieldLevel();
      }
    }

    method PackListItems(env: Env, items: seq<Py>, t: TypeDef) returns (r: Outcome<seq<Elem>>)
      modifies this
      ensures Stacked(PackItems(env, items, t, 0), r, old(fieldName), old(fieldType), fieldName, fieldType)
      ensures r.Done? ==> r.value == PackItems(env, items, t, 0).value
      decreases RankOf(items, t.container.NoContainer?), items, 0, 0
    {
      hide Pack, PackItems, Names, TypesOf;
      var mret: seq<Elem> := [];
      var i := 0;
      PrependNothing(PackItems(env, items, t, 0));
      assert items[0..] == items;
      while i < |items|
        invariant 0 <= i <= |items|
        invariant fieldName == old(fieldName) && fieldType == old(fieldType)
        invariant PackItems(env, items, t, 0) == Prepend(mret, PackItems(env, items[i..], t, i))
      {
        PackItemsStep(env, items, t, i);
        var el := PackLevel(env, Index(i), items[i], t);
        if el.Thrown? {
          return Thrown(el.error);
        }
        PrependOne(mret, el.value.(id := Number(i)), PackItems(env, items[i + 1..], t, i + 1));
        mret := mret + [el.value.(id := Number(i))];
        i := i + 1;
      }
      PackItemsStep(env, items, t, i);
      return Done(mret);
    }

    method PackIntMapEntries(env: Env, entries: seq<Entry>, t: TypeDef) returns (r: Outcome<seq<Elem>>)
      modifies this
      ensures Stacked(PackIntEntries(env, entries, t), r, old(fieldName), old(fieldType), fieldName, fieldType)
      ensures r.Done? ==> r.value == PackIntEntries(env, entries, t).value
      decreases 4, entries, 0, 0
    {
      hide Pack, PackIntEntries, Names, TypesOf, IntKeyOk, KeyNumber;
      var mret: seq<Elem> := [];
      var i := 0;
      PrependNothing(PackIntEntries(env, entries, t));
      assert entries[0..] == entries;
      while i < |entries|
        invariant 0 <= i <= |entries|
        invariant fieldName == old(fieldName) && fieldType == old(fieldType)
        invariant PackIntEntries(env, entries, t) == Prepend(mret, PackIntEntries(env, entries[i..], t))
      {
        PackIntEntriesStep(env, entries, t, i);
        var Entry(key, value) := entries[i];
        assert value < entries[i];
        if !IntKeyOk(key) {
          PushFieldLevel(Index(KeyNumber(key)), Just(t));
          ThrownInLevel<Data, seq<Elem>>(Frame(Index(KeyNumber(key)), Just(t)), DataTypeError,
                                         old(fieldName), old(fieldType));
          return Thrown(DataTypeError);
        }
        var el := PackLevel(env, Index(KeyNumber(key)), value, t);
        if el.Thrown? {
          return Thrown(el.error);
        }
        PrependOne(mret, el.value.(id := Number(KeyNumber(key))), PackIntEntries(env, entries[i + 1..], t));
        mret := mret + [el.value.(id := Number(KeyNumber(key)))];
        i := i + 1;
      }
      PackIntEntriesStep(env, entries, t, i);
      return Done(mret);
    }

    method PackStringMapEntries(env: Env, entries: seq<Entry>, t: TypeDef) returns (r: Outcome<seq<Elem>>)
      modifies this
      ensures Stacked(PackStringEntries(env, entries, t), r, old(fieldName), old(fieldType), fieldName, fieldType)
      ensures r.Done? ==> r.value == PackStringEntries(env, entries, t).value
      decreases 4, entries, 0, 0
    {
      hide Pack, PackStringEntries, Names, TypesOf;
      var mret: seq<Elem> := [];
      var i := 0;
      PrependNothing(PackStringEntries(env, entries, t));
      assert entries[0..] == entries;
      NoLevels(fieldName, fieldType);
      while i < |entries|
        invariant 0 <= i <= |entries|
        invariant fieldName == old(fieldName) && fieldType == old(fieldType)
        invariant PackStringEntries(env, entries, t) == Prepend(mret, PackStringEntries(env, entries[i..], t))
      {
        PackStringEntriesStep(env, entries, t, i);
        var Entry(key, value) := entries[i];
        assert value < entries[i];
        if !key.Str? {
          return Thrown(DataTypeError);
        }
        var el := PackLevel(env, QuotedKey(key.s), value, t);
        if el.Thrown? {
          return Thrown(el.error);
        }
        PrependOne(mret, el.value.(id := Name(key.s)), PackStringEntries(env, entries[i + 1..], t));
        mret := mret + [el.value.(id := Name(key.s))];
        i := i + 1;
      }
      PackStringEntriesStep(env, entries, t, i);
      return Done(mret);
    }

    method PackStructFields(env: Env, attrs: seq<Attr>, fs: seq<Field>) returns (r: Outcome<seq<Elem>>)
      modifies this
      ensures Stacked(PackFields(env, attrs, fs), r, old(fieldName), old(fieldType), fieldName, fieldType)
      ensures r.Done? ==> r.value == PackFields(env, attrs, fs).value
      decreases if attrs == [] then 0 else 4, attrs, 0, 0
    {
      hide Pack, PackFields, Names, TypesOf;
      var mret: seq<Elem> := [];
      var i := 0;
      PrependNothing(PackFields(env, attrs, fs));
      assert fs[0..] == fs;
      NoLevels(fieldName, fieldType);
      while i < |fs|
        invariant 0 <= i <= |fs|
        invariant fieldName == old(fieldName) && fieldType == old(fieldType)
        invariant PackFields(env, attrs, fs) == Prepend(mret, PackFields(env, attrs, fs[i..]))
      {
        PackFieldsStep(env, attrs, fs, i);
        var found := AttrIndex(attrs, fs[i].name);
        if found.Nothing? {
          return Thrown(DataTypeError);
        }
        var a := attrs[found.value];
        assert a.value < a;
        var el := PackLevel(env, Member(fs[i].name), a.value, fs[i].typ);
        if el.Thrown? {
          return Thrown(el.error);
        }
        PrependOne(mret, el.value.(id := Name(fs[i].name)), PackFields(env, attrs, fs[i + 1..]));
        mret := mret + [el.value.(id := Name(fs[i].name))];
        i := i + 1;
      }
      PackFieldsStep(env, attrs, fs, i);
      return Done(mret);
    }

    /** `PackMessageElement` computes `Pack`, leaves the field stack as it found it when it returns, and
        when it throws leaves the path of the error on top of it. */
    method PackMessageElement(env: Env, v: Py, t: TypeDef) returns (r: Outcome<Elem>)
      modifies this
      ensures Stacked(Pack(env, v, t), r, old(fieldName), old(fieldType), fieldName, fieldType)
      ensures r.Done? ==> r.value == Elem(Name(RootName(v, t)), Pack(env, v, t).value)
      decreases Rank(v, t.container.NoContainer?), v, 2, 0
    {
      hide PackItems, PackIntEntries, PackStringEntries, PackPlain, Names, TypesOf;
      NoLevels(fieldName, fieldType);
      if t.base.VarValue? && t.container.NoContainer? && v != None {
        if !v.VarVal? {
          return Thrown(DataTypeError);
        }
        r := PackMessageElement(env, v.data, VarValueType(v.typ));
        return;
      }
      if v == None {
        var none := PackNone(t);
        r := if none.Ok? then Done(Elem(Name(t.name), none.value)) else Thrown(none.error);
        return;
      }
      var t2 := RemoveContainers(t);
      assert Pack(env, v, t) == if t.container.NoContainer? then PackPlain(env, v, t) else PackContainer(env, v, t);
      match t.container
      case NoContainer => r := PackPlainElement(env, v, t);
      case ListOf =>
        if !IsSequence(v) {
          return Thrown(DataTypeError);
        }
        var items := Iterate(v);
        if items.Err? {
          return Thrown(items.error);
        }
        var es := PackListItems(env, items.value, t2);
        r := if es.Done? then Done(Elem(Name(t.name), Nested(ListT, "", es.value))) else Thrown(es.error);
      case MapInt32 =>
        if IsSequence(v) {
          var items := Iterate(v);
          if items.Err? {
            return Thrown(items.error);
          }
          var es := PackListItems(env, items.value, t2);
          r := if es.Done? then Done(Elem(Name(t.name), Nested(VectorT, "", es.value))) else Thrown(es.error);
        } else if v.Dict? {
          var es := PackIntMapEntries(env, v.entries, t2);
          r := if es.Done? then Done(Elem(Name(t.name), Nested(VectorT, "", es.value))) else Thrown(es.error);
        } else {
          r := Thrown(DataTypeError);
        }
      case MapString =>
        if !v.Dict? {
          return Thrown(DataTypeError);
        }
        var es := PackStringMapEntries(env, v.entries, t2);
        r := if es.Done? then Done(Elem(Name(t.name), Nested(DictionaryT, "", es.value))) else Thrown(es.error);
    }

    method PackPlainElement(env: Env, v: Py, t: TypeDef) returns (r: Outcome<Elem>)
      requires v != None && t.container.NoContainer? && !t.base.VarValue?
      modifies this
      ensures Stacked(PackPlain(env, v, t), r, old(fieldName), old(fieldType), fieldName, fieldType)
      ensures r.Done? ==> r.value == Elem(Name(t.name), PackPlain(env, v, t).value)
      decreases Rank(v, true), v, 1, 0
    {
      NoLevels(fieldName, fieldType);
      if t.base.Named? && t.base.def.Structure? {
        var q := t.base.def.qname;
        assert PackPlain(env, v, t) == PackStruct(env, v, q);
        if q !in env.structs {
          return Thrown(ServiceError);
        }
        if !v.Struct? || Mangle(q) != v.pyType {
          return Thrown(DataTypeError);
        }
        var es := PackStructFields(env, v.attrs, env.structs[q]);
        r := if es.Done? then Done(Elem(Name(t.name), Nested(StructureT, q, es.value))) else Thrown(es.error);
      } else {
        PlainFailure(env, v, t);
        var d := PackValue(env, v, t);
        r := if d.Done? then Done(Elem(Name(t.name), d.value)) else Thrown(d.error);
      }
    }
  }

  /** Numbers, records and text. */
  method PackValue(env: Env, v: Py, t: TypeDef) returns (r: Outcome<Data>)
    requires !(t.base.Named? && t.base.def.Structure?)
    ensures r == AsOutcome(PackPlain(env, v, t))
  {
    match t.base
    case Numeric(k) =>
      if t.arr.MultiDim? && IsSequence(v) {
        return AsOutcome(PackMultiDimNumbers(v, t, k));
      }
      var xs := PackToRRArray(v, t, k);
      r := if xs.Done? then Done(Nums(k, xs.value)) else Thrown(xs.error);
    case Named(Enum(_)) =>
      var xs := PackToRRArray(v, ENUM_TYPE, Int32);
      r := if xs.Done? then Done(Nums(Int32, xs.value)) else Thrown(xs.error);
    case Named(def) =>
      r := PackRecordMessage(v, t, def);
    case _ =>
      r := AsOutcome(PackPlain(env, v, t));
  }

  method PackRecordMessage(v: Py, t: TypeDef, def: NamedDef) returns (r: Outcome<Data>)
    ensures r == AsOutcome(PackRecordValue(v, t, def))
  {
    if !v.NdArray? {
      return Thrown(if t.arr.MultiDim? then ThrownPointer else DataTypeError);
    }
    var t2 := if t.arr.MultiDim? then RecordsType(t) else t;
    var checked := CheckRecords(t2, |v.cells|);
    if checked.Err? {
      return Thrown(checked.error);
    }
    if !def.Pod? || v.dtype != DNamed(def.qname) {
      return AsOutcome(PackRecordValue(v, t, def));
    }
    var order := FortranOrder(v.shape);
    var limit := CheckRecords(t2, |order|);
    if limit.Err? {
      return Thrown(limit.error);
    }
    if |order| > |v.cells| {
      return Thrown(InternalError);
    }
    var es := PackPodRecords(def.fields, order, v.cells);
    if es.Thrown? {
      return Thrown(es.error);
    }
    var d := Nested(PodArrayT, def.qname, es.value);
    r := Done(if t.arr.MultiDim? then Nested(PodMultiDimT, def.qname, MultiDimElems(v.shape, d)) else d);
  }
}
