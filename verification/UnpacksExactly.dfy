/** Exactly the messages that stand for some value are unpacked, repeated elements, unused ones and numbers given
    as names included. */
module UnpacksExactly {
  import opened ColumnMajor
  import opened Types
  import opened Packing
  import opened Unpacking
  import opened NumberMeaning
  import opened WireFormat
  import opened WireValues
  import opened ReadRecords
  import opened ReadValues

  lemma FirstIsFound(es: seq<Elem>, name: string, j: nat)
    requires IsFirstNamed(es, name, j)
    ensures FindElement(es, name) == Just(es[j])
  {
    FindElementMeans(es, name);
    assert es[j].id == Name(name);
    var i: nat :| IsFirstNamed(es, name, i) && FindElement(es, name).value == es[i];
    assert i == j;
  }

  // ----- numbers

  lemma NumbersUnpack(k: Kind, xs: seq<Num>, t: Option<TypeDef>, w: Py)
    requires NumbersRead(k, xs, t, w)
    ensures UnpackNumbers(k, xs, t).Ok?
  {
    if t.Just? {
      LengthsAgree(t.value, |xs|);
    }
  }

  lemma DimsUnpack(es: seq<Elem>, shape: seq<nat>, d: Data)
    requires DimsAndArray(es, shape, d)
    ensures FindDims(es) == Ok(shape)
    ensures FindElement(es, "array").Just? && FindElement(es, "array").value.data == d
  {
    var i: nat :| IsFirstNamed(es, "dims", i) && IsShape(es[i].data, shape);
    var j: nat :| IsFirstNamed(es, "array", j) && es[j].data == d;
    FirstIsFound(es, "dims", i);
    FirstIsFound(es, "array", j);
    var xs := es[i].data.xs;
    assert forall k | 0 <= k < |xs| :: xs[k] == I(shape[k]);
    assert DimsOf(es[i].data) == shape;
  }

  lemma MultiDimUnpacks(es: seq<Elem>, t: Option<TypeDef>, w: Py)
    requires MultiDimRead(es, t, w)
    ensures UnpackMultiDimNumbers(es, t).Ok?
  {
    hide Product, InBounds, FindDims, FindElement, DimsAndArray;
    var xs: seq<Num> :| DimsAndArray(es, w.shape, Nums(w.dtype.kind, xs))
                        && FirstIndexFastest(w.shape, CellNums(w.cells), xs);
    DimsUnpack(es, w.shape, Nums(w.dtype.kind, xs));
  }

  // ----- records

  /** Which records an array holds does not matter for storing them, only how many. */
  lemma SlotStores(t: TypeDef, listed: seq<Cell>, s: Slot, cells: seq<Cell>)
    requires Stored(t, listed, s) && |cells| == |listed|
    ensures StoreField(t, cells).Ok?
  {
    hide Product, IsZero, FirstIndexFastest;
  }

  lemma NamedUnpacks(env: Env, d: Data, t: Option<TypeDef>, cells: seq<Cell>)
    requires NamedRead(env, d, t, cells)
    ensures UnpackNamedArray(env, d, t).Ok?
    ensures var w := UnpackNamedArray(env, d, t).value;
            w.NdArray? && w.dtype == DNamed(d.typeName) && |w.cells| == |cells|
  {
    hide Count, ElementKind, UnflattenAll, FlattenCells, NumsOk, CountOk, CheckUnpackedRecords;
    var fs := env.named[d.typeName];
    var j: nat :| IsFirstNamed(d.elems, "array", j) && d.elems[j].data.Nums?
                  && d.elems[j].data.kind == ElementKind(fs) && |d.elems[j].data.xs| == |cells| * Count(fs);
    FirstIsFound(d.elems, "array", j);
    var n := |d.elems[j].data.xs|;
    assert n == 0 + Count(fs) * |cells|;
    LemmaDivModUnique(n, Count(fs), |cells|, 0);
    CountsAgree(t, |cells|);
  }

  lemma {:induction false} PodsUnpack(env: Env, d: Data, t: Option<TypeDef>, cells: seq<Cell>)
    requires PodsRead(env, d, t, cells)
    ensures UnpackPods(env, d, t).Ok?
    ensures var w := UnpackPods(env, d, t).value;
            w.NdArray? && w.dtype == DNamed(d.typeName) && |w.cells| == |cells|
    decreases d, 2
  {
    hide RecordRead, UnpackRecords, CountOk, CheckUnpackedRecords;
    CountsAgree(t, |cells|);
    assert forall i | 0 <= i < |cells| :: d.elems[i] == d.elems[i] && Numbered(d.elems[i].id, 0 + i);
    RecordsUnpack(env, env.pods[d.typeName], d.elems, 0, cells);
  }

  lemma {:induction false} RecordsUnpack(env: Env, fs: seq<Field>, es: seq<Elem>, i: nat, cells: seq<Cell>)
    requires |cells| == |es| && forall j | 0 <= j < |es| ::
      && Numbered(es[j].id, i + j) && es[j].data.Nested? && es[j].data.typ.PodT?
      && RecordRead(env, fs, es[j].data.elems, cells[j])
    ensures UnpackRecords(env, fs, es, i).Ok?
    decreases es, 2
  {
    hide RecordRead, Numbered, UnpackSlots, CheckPosition;
    if es != [] {
      assert Numbered(es[0].id, i + 0);
      PositionMeans(es[0].id, i);
      assert es[0].data < es[0];
      RecordUnpacks(env, fs, es[0].data.elems, cells[0]);
      var rest := es[1..];
      assert forall j | 0 <= j < |rest| :: rest[j] == es[j + 1] && i + 1 + j == i + (j + 1);
      RecordsUnpack(env, fs, rest, i + 1, cells[1..]);
    }
  }

  lemma {:induction false} RecordUnpacks(env: Env, fs: seq<Field>, es: seq<Elem>, c: Cell)
    requires RecordRead(env, fs, es, c)
    ensures UnpackSlots(env, fs, es).Ok?
    decreases es, 3, |fs|
  {
    hide FieldRead;
    SlotsUnpack(env, fs, es, c.fields);
  }

  lemma {:induction false} SlotsUnpack(env: Env, fs: seq<Field>, es: seq<Elem>, slots: seq<Slot>)
    requires |slots| == |fs| && forall i | 0 <= i < |fs| :: FieldRead(env, fs[i], es, slots[i])
    ensures UnpackSlots(env, fs, es).Ok?
    decreases es, 2, |fs|
  {
    hide FieldRead, UnpackSlotCells, StoreField, FindElement;
    if fs != [] {
      FieldUnpacks(env, fs[0], es, slots[0]);
      assert forall i | 0 <= i < |fs[1..]| :: fs[1..][i] == fs[i + 1] && slots[1..][i] == slots[i + 1];
      SlotsUnpack(env, fs[1..], es, slots[1..]);
    }
  }

  lemma {:induction false} FieldUnpacks(env: Env, f: Field, es: seq<Elem>, s: Slot)
    requires FieldRead(env, f, es, s)
    ensures FindElement(es, f.name).Just?
    ensures var cells := UnpackSlotCells(env, f.typ, FindElement(es, f.name).value.data);
            cells.Ok? && StoreField(f.typ, cells.value).Ok?
    decreases es, 1
  {
    hide UnpackSlotCells, StoreField, CellsRead, Stored, FindElement;
    var j: nat, listed: seq<Cell> :| IsFirstNamed(es, f.name, j) && CellsRead(env, f.typ, es[j].data, listed)
                                     && Stored(f.typ, listed, s);
    FirstIsFound(es, f.name, j);
    assert es[j].data < es[j];
    SlotUnpacks(env, f.typ, es[j].data, listed);
    SlotStores(f.typ, listed, s, UnpackSlotCells(env, f.typ, es[j].data).value);
  }

  lemma {:induction false} SlotUnpacks(env: Env, t: TypeDef, d: Data, listed: seq<Cell>)
    requires CellsRead(env, t, d, listed)
    ensures UnpackSlotCells(env, t, d).Ok? && |UnpackSlotCells(env, t, d).value| == |listed|
    decreases d, 3
  {
    hide UnpackPods, UnpackNamedArray, PodsRead, NamedRead, CheckLength, LengthOk;
    match t.base
    case Named(Pod(q, _)) => PodsUnpack(env, d, Just(FlattenType(t)), listed);
    case Named(NamedArray(q, _)) => NamedUnpacks(env, d, Just(FlattenType(t)), listed);
    case Numeric(k) => LengthsAgree(FlattenType(t), |d.xs|);
  }

  lemma ListingCount<T>(shape: seq<nat>, cells: seq<T>, listed: seq<T>)
    requires FirstIndexFastest(shape, cells, listed)
    ensures |listed| == Product(shape)
  {
  }

  lemma MultiDimRecordsUnpack(env: Env, d: Data, t: Option<TypeDef>, w: Py)
    requires d.Nested? && (d.typ.PodMultiDimT? || d.typ.NamedMultiDimT?) && MultiDimRecordsRead(env, d, t, w)
    ensures UnpackMultiDimRecords(env, d, t).Ok?
  {
    hide FindDims, FindElement, UnpackPods, UnpackNamedArray, PodsRead, NamedRead, DimsAndArray, Product, InBounds;
    var flat: Data, listed: seq<Cell> :|
      && DimsAndArray(d.elems, w.shape, flat) && FirstIndexFastest(w.shape, w.cells, listed)
      && (if d.typ.PodMultiDimT? then PodsRead(env, flat, AnyNumber(t), listed)
          else NamedRead(env, flat, AnyNumber(t), listed));
    DimsUnpack(d.elems, w.shape, flat);
    ListingCount(w.shape, w.cells, listed);
    var t2 := AnyNumber(t);
    if d.typ.PodMultiDimT? {
      PodsUnpack(env, flat, t2, listed);
      assert |UnpackPods(env, flat, t2).value.cells| == Product(w.shape);
    } else {
      NamedUnpacks(env, flat, t2, listed);
      assert |UnpackNamedArray(env, flat, t2).value.cells| == Product(w.shape);
    }
  }

  // ----- values

  /** If the element stands for a value it is unpacked. */
  ghost predicate Taken(env: Env, d: Data, t: Option<TypeDef>) {
    (exists w :: Decodes(env, d, t, w)) ==> Unpack(env, d, t).Ok?
  }

  lemma Takes(env: Env, d: Data, t: Option<TypeDef>, w: Py)
    requires Taken(env, d, t) && Decodes(env, d, t, w)
    ensures Unpack(env, d, t).Ok?
  {
    hide Unpack, Decodes;
  }

  lemma {:induction false} ItemsUnpack(env: Env, es: seq<Elem>, t: Option<TypeDef>, i: nat)
    requires forall j | 0 <= j < |es| :: Numbered(es[j].id, i + j) && Unpack(env, es[j].data, t).Ok?
    ensures UnpackItems(env, es, t, i).Ok?
    ensures t == Just(VARVALUE_TYPE) ==> UnpackVarItems(env, es, i).Ok?
  {
    hide Unpack, CheckPosition, Numbered;
    if es != [] {
      assert Numbered(es[0].id, i + 0);
      PositionMeans(es[0].id, i);
      var rest := es[1..];
      assert forall j | 0 <= j < |rest| :: rest[j] == es[j + 1] && i + 1 + j == i + (j + 1);
      ItemsUnpack(env, rest, t, i + 1);
    }
  }

  lemma {:induction false} IntMapUnpacks(env: Env, es: seq<Elem>, t: Option<TypeDef>, done: seq<Entry>)
    requires forall j | 0 <= j < |es| :: ItemNumber(es[j].id).Ok? && Unpack(env, es[j].data, t).Ok?
    ensures UnpackIntEntries(env, es, t, done).Ok?
    decreases |es|
  {
    hide Unpack, ItemNumber, DictSet;
    if es != [] {
      var rest := es[1..];
      assert forall j | 0 <= j < |rest| :: rest[j] == es[j + 1];
      IntMapUnpacks(env, rest, t,
                    DictSet(done, PyInt(ItemNumber(es[0].id).value), Unpack(env, es[0].data, t).value));
    }
  }

  lemma {:induction false} StringMapUnpacks(env: Env, es: seq<Elem>, t: Option<TypeDef>, quoted: bool, done: seq<Entry>)
    requires forall j | 0 <= j < |es| :: Unpack(env, es[j].data, t).Ok?
    ensures UnpackStringEntries(env, es, t, quoted, done).Ok?
    decreases |es|
  {
    hide Unpack, NameOf, DictSet;
    if es != [] {
      var rest := es[1..];
      assert forall j | 0 <= j < |rest| :: rest[j] == es[j + 1];
      StringMapUnpacks(env, rest, t, quoted,
                       DictSet(done, Str(NameOf(es[0].id)), Unpack(env, es[0].data, t).value));
    }
  }

  lemma ListUnpacks(env: Env, es: seq<Elem>, t: Option<TypeDef>, items: seq<Py>)
    requires ItemsRead(env, es, t, items) && forall j | 0 <= j < |es| :: Taken(env, es[j].data, t)
    ensures UnpackItems(env, es, t, 0).Ok?
    ensures t == Just(VARVALUE_TYPE) ==> UnpackVarItems(env, es, 0).Ok?
  {
    hide Unpack, Decodes, Taken, Numbered, UnpackItems, UnpackVarItems;
    forall j | 0 <= j < |es| ensures Numbered(es[j].id, 0 + j) && Unpack(env, es[j].data, t).Ok? {
      assert Numbered(es[j].id, j);
      Takes(env, es[j].data, t, items[j]);
    }
    ItemsUnpack(env, es, t, 0);
  }

  lemma MapUnpacks(env: Env, es: seq<Elem>, t: Option<TypeDef>, int32: bool, quoted: bool, entries: seq<Entry>)
    requires MapRead(env, es, t, int32, entries) && forall j | 0 <= j < |es| :: Taken(env, es[j].data, t)
    ensures int32 ==> UnpackIntEntries(env, es, t, []).Ok?
    ensures !int32 ==> UnpackStringEntries(env, es, t, quoted, []).Ok?
  {
    hide Unpack, Decodes, Taken, KeysOnce, EntryRead, Numbered, ItemNumber, UnpackIntEntries, UnpackStringEntries;
    forall j | 0 <= j < |es| ensures Unpack(env, es[j].data, t).Ok? && (int32 ==> ItemNumber(es[j].id).Ok?) {
      assert SomeRead(env, es[j], t) && HasKey(entries, es[j].id, int32);
      var w :| Decodes(env, es[j].data, t, w);
      Takes(env, es[j].data, t, w);
      ItemNumberMeans(es[j].id);
    }
    if int32 {
      IntMapUnpacks(env, es, t, []);
    } else {
      StringMapUnpacks(env, es, t, quoted, []);
    }
  }

  ghost predicate FieldTaken(env: Env, f: Field, es: seq<Elem>) {
    var e := FindElement(es, f.name);
    e.Just? ==> Taken(env, e.value.data, Just(f.typ))
  }

  lemma AttributeUnpacks(env: Env, f: Field, es: seq<Elem>, w: Py)
    requires FieldTaken(env, f, es) && AttributeRead(env, f, es, w)
    ensures FindElement(es, f.name).Just? && Unpack(env, FindElement(es, f.name).value.data, Just(f.typ)).Ok?
  {
    hide Unpack, Decodes, Taken, FindElement;
    var j: nat :| IsFirstNamed(es, f.name, j) && Decodes(env, es[j].data, Just(f.typ), w);
    FirstIsFound(es, f.name, j);
    Takes(env, es[j].data, Just(f.typ), w);
  }

  lemma {:induction false} AttributesUnpack(env: Env, fs: seq<Field>, es: seq<Elem>, attrs: seq<Attr>)
    requires AttributesRead(env, fs, es, attrs) && forall i | 0 <= i < |fs| :: FieldTaken(env, fs[i], es)
    ensures UnpackFields(env, es, fs).Ok?
    decreases |fs|
  {
    hide Unpack, FieldTaken, AttributeRead, FindElement;
    if fs != [] {
      AttributeUnpacks(env, fs[0], es, attrs[0].value);
      assert forall i | 0 <= i < |fs[1..]| :: fs[1..][i] == fs[i + 1] && attrs[1..][i] == attrs[i + 1];
      AttributesUnpack(env, fs[1..], es, attrs[1..]);
    }
  }

  /** What stands for a value has a type a varvalue can be given. */
  lemma TypeIsInferred(env: Env, d: Data, t: Option<TypeDef>, w: Py, typ: TypeDef)
    requires !d.Null? && Decodes(env, d, ContentType(d), w) && TypeGiven(env, d, typ)
    ensures InferType(env, d).Ok?
  {
    hide Product, InBounds, PodsRead, NamedRead, FindElement, MapRead, ItemsRead, AttributesRead, FirstIndexFastest,
         DimsAndArray, IsClassName;
    if d.Nested? && d.typ.MultiDimT? {
      assert ContentType(d) == Nothing;
      assert MultiDimRead(d.elems, Nothing, w);
      var xs: seq<Num> :| DimsAndArray(d.elems, w.shape, Nums(w.dtype.kind, xs));
      DimsUnpack(d.elems, w.shape, Nums(w.dtype.kind, xs));
    }
  }

  lemma ContainersAreNested(env: Env, d: Data, w: Py)
    requires AnyContainerRead(env, d, w)
    ensures d.Nested?
  {
  }

  lemma AnyContainerUnpacks(env: Env, d: Data, w: Py)
    requires AnyContainerRead(env, d, w) && forall j | 0 <= j < |d.elems| :: Taken(env, d.elems[j].data, Any())
    ensures UnpackVarContainer(env, d).Ok?
  {
    hide Taken, UnpackVarItems, UnpackIntEntries, UnpackStringEntries, ItemsRead, MapRead;
    ContentTypeIsInner(d);
    if d.typ.ListT? {
      ListUnpacks(env, d.elems, Any(), w.items);
    } else {
      MapUnpacks(env, d.elems, Any(), d.typ.VectorT?, true, w.entries);
    }
  }

  lemma NestedUnpacks(env: Env, d: Data, t: Option<TypeDef>, w: Py)
    requires d.Nested? && NestedRead(env, d, t, w)
    requires forall j | 0 <= j < |d.elems| :: Taken(env, d.elems[j].data, ElementType(t))
    requires d.typ.StructureT? && d.typeName in env.structs ==>
      forall i | 0 <= i < |env.structs[d.typeName]| :: FieldTaken(env, env.structs[d.typeName][i], d.elems)
    ensures UnpackNested(env, d, t).Ok?
  {
    hide Taken, FieldTaken, UnpackItems, UnpackFields, UnpackIntEntries, UnpackStringEntries, UnpackPods,
         UnpackNamedArray, UnpackMultiDimRecords, UnpackMultiDimNumbers, ItemsRead, MapRead, AttributesRead, PodsRead,
         NamedRead, MultiDimRead, MultiDimRecordsRead, Mangle, IsClassName;
    assert ItemType(t) == ElementType(t);
    match d.typ
    case StructureT => AttributesUnpack(env, env.structs[d.typeName], d.elems, w.attrs);
    case ListT => ListUnpacks(env, d.elems, ElementType(t), w.items);
    case VectorT => MapUnpacks(env, d.elems, ElementType(t), true, false, w.entries);
    case DictionaryT => MapUnpacks(env, d.elems, ElementType(t), false, false, w.entries);
    case MultiDimT => MultiDimUnpacks(d.elems, t, w);
    case PodArrayT => PodsUnpack(env, d, t, w.cells);
    case NamedArrayT => NamedUnpacks(env, d, t, w.cells);
    case _ => MultiDimRecordsUnpack(env, d, t, w);
  }

  /** A message element is unpacked if and only if it stands for some value, and then as such a value. */
  lemma UnpacksExactly(env: Env, d: Data, t: Option<TypeDef>)
    requires EnvOk(env)
    ensures Unpack(env, d, t).Ok? <==> exists w :: Decodes(env, d, t, w)
    ensures Unpack(env, d, t).Ok? ==> Decodes(env, d, t, Unpack(env, d, t).value)
  {
    hide Unpack, Decodes, EnvOk;
    UnpackedIsDecoded(env, d, t);
    EveryElementTaken(env, d, t);
    if Unpack(env, d, t).Ok? {
      ReadAs(env, d, t, Unpack(env, d, t).value);
    }
  }

  lemma {:induction false} EveryElementTaken(env: Env, d: Data, t: Option<TypeDef>)
    ensures Taken(env, d, t)
    decreases d, if IsVarValue(t) && t.value.container.NoContainer? then 2 else 1
  {
    hide Decodes, Unpack;
    if w :| Decodes(env, d, t, w) {
      ElementUnpacks(env, d, t, w);
    }
  }

  lemma {:induction false} ElementUnpacks(env: Env, d: Data, t: Option<TypeDef>, w: Py)
    requires Decodes(env, d, t, w)
    ensures Unpack(env, d, t).Ok?
    decreases d, if IsVarValue(t) && t.value.container.NoContainer? then 2 else 1, 0
  {
    hide Taken, UnpackNested, UnpackVarContainer, UnpackNumbers, NestedRead, AnyContainerRead, NumbersRead, InferType,
         TypeGiven;
    ContentTypeIsInner(d);
    if (t.Just? && t.value.base.Void?) || d.Null? {
    } else if IsVarValue(t) {
      if t.value.container.NoContainer? {
        ElementUnpacks(env, d, ContentType(d), w.data);
        TypeIsInferred(env, d, t, w.data, w.typ);
      } else {
        ContainersAreNested(env, d, w);
        ElementsTaken(env, d.elems, Any());
        AnyContainerUnpacks(env, d, w);
      }
    } else if d.Nums? {
      var enum := t.Just? && t.value.base.Named? && t.value.base.def.Enum?;
      NumbersUnpack(d.kind, d.xs, if enum then Just(ENUM_TYPE) else t, w);
    } else if d.Nested? {
      if d.typ.StructureT? && d.typeName in env.structs {
        FieldsTaken(env, env.structs[d.typeName], d.elems);
      }
      ElementsTaken(env, d.elems, ElementType(t));
      NestedUnpacks(env, d, t, w);
    }
  }

  lemma {:induction false} ElementsTaken(env: Env, es: seq<Elem>, t: Option<TypeDef>)
    ensures forall j | 0 <= j < |es| :: Taken(env, es[j].data, t)
    decreases es
  {
    hide Taken;
    forall j | 0 <= j < |es| ensures Taken(env, es[j].data, t) {
      assert es[j].data < es[j];
      EveryElementTaken(env, es[j].data, t);
    }
  }

  lemma {:induction false} FieldsTaken(env: Env, fs: seq<Field>, es: seq<Elem>)
    ensures forall i | 0 <= i < |fs| :: FieldTaken(env, fs[i], es)
    decreases es
  {
    hide Taken;
    forall i | 0 <= i < |fs| ensures FieldTaken(env, fs[i], es) {
      var e := FindElement(es, fs[i].name);
      if e.Just? {
        FindElementIn(es, fs[i].name);
        assert e.value.data < e.value;
        EveryElementTaken(env, e.value.data, Just(fs[i].typ));
      }
    }
  }
}
