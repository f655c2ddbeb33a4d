/** Packing what was unpacked reproduces the message: one trip normalises a value, later trips change
    nothing. */
module Repack {
  import opened ColumnMajor
  import opened Types
  import opened Packing
  import opened Unpacking
  import opened PodRoundTrip
  import opened Containers
  import opened RoundTrip
  import opened RoundTripProof

  // ----- pods

  lemma {:induction false} PackRecordsSame(fs: seq<Field>, order: seq<nat>, a: seq<Cell>, b: seq<Cell>, k: nat)
    requires k <= |order| && forall p | p in order :: p < |a| && p < |b| && PackCell(fs, a[p]) == PackCell(fs, b[p])
    ensures PackRecords(fs, order, a, k) == PackRecords(fs, order, b, k)
    decreases |order| - k
  {
    hide PackCell;
    if k < |order| {
      assert order[k] in order;
      PackRecordsSame(fs, order, a, b, k + 1);
    }
  }

  lemma {:induction false} RepackCell(env: Env, fs: seq<Field>, c: Cell)
    requires PodOk(env, fs) && CellOk(fs, c) && CellFits(fs, c)
    ensures PackCell(fs, NormCell(fs, c)) == PackCell(fs, c)
    decreases c
  {
    forall i | 0 <= i < |fs|
      ensures PackSlot(fs[i].typ, NormSlot(fs[i].typ, c.fields[i])) == PackSlot(fs[i].typ, c.fields[i])
    {
      RepackSlot(env, fs[i], c.fields[i]);
    }
    PackSlotsSame(fs, NormCell(fs, c).fields, c.fields);
  }

  lemma {:induction false} PackSlotsSame(fs: seq<Field>, a: seq<Slot>, b: seq<Slot>)
    requires |a| == |fs| == |b| && forall i | 0 <= i < |fs| :: PackSlot(fs[i].typ, a[i]) == PackSlot(fs[i].typ, b[i])
    ensures PackSlots(fs, a) == PackSlots(fs, b)
  {
    hide PackSlot;
    if fs != [] {
      forall i | 0 <= i < |fs[1..]| ensures PackSlot(fs[1..][i].typ, a[1..][i]) == PackSlot(fs[1..][i].typ, b[1..][i]) {
        assert fs[1..][i] == fs[i + 1] && a[1..][i] == a[i + 1] && b[1..][i] == b[i + 1];
      }
      PackSlotsSame(fs[1..], a[1..], b[1..]);
    }
  }

  lemma {:induction false} RepackSlot(env: Env, f: Field, s: Slot)
    requires PodFieldOk(env, f) && SlotOk(f.typ, s) && SlotFits(f.typ, s)
    ensures PackSlot(f.typ, NormSlot(f.typ, s)) == PackSlot(f.typ, s)
    decreases s
  {
    SlotSize(f.typ, s);
    SlotCells(f.typ, s);
    var n := if s.Padded? then s.len else |s.cells|;
    if f.typ.base.Named? && f.typ.base.def.Pod? {
      forall i | 0 <= i < n ensures RepacksCell(f.typ.base.def.fields, s.cells[i]) {
        assert s.cells[i] in s.cells;
        assert ElementFits(f.typ.base, s.cells[i]);
        RepackCell(env, f.typ.base.def.fields, s.cells[i]);
      }
      RepackPodSlot(f.typ, s, f.typ.base.def.fields);
    } else {
      NormPlain(f.typ.base, s.cells, n);
      assert NormSlot(f.typ, s).cells[..n] == s.cells[..n];
    }
  }

  lemma NormSlotCells(t: TypeDef, s: Slot)
    requires s.Padded? ==> 0 <= s.len <= |s.cells|
    ensures var norm := NormSlot(t, s); var n := if s.Padded? then s.len else |s.cells|;
      |norm.cells| == |s.cells| && norm.cells[..n] == NormElements(t.base, s.cells, n)
  {
    hide NormElement;
  }

  predicate RepacksCell(fs: seq<Field>, c: Cell) {
    PackCell(fs, NormCell(fs, c)) == PackCell(fs, c)
  }

  lemma RepackPodSlot(t: TypeDef, s: Slot, fields: seq<Field>)
    requires Sized(t, s) && t.base.Named? && t.base.def.Pod? && t.base.def.fields == fields
    requires Product(SlotDims(t, s)) == if s.Padded? then s.len else |s.cells|
    requires forall i | 0 <= i < Product(SlotDims(t, s)) :: RepacksCell(fields, s.cells[i])
    ensures PackSlot(t, NormSlot(t, s)) == PackSlot(t, s)
  {
    hide PackCell, NormCell, PackRecords, FortranOrder;
    var n := Product(SlotDims(t, s));
    var norm := NormSlot(t, s);
    assert |norm.cells| == |s.cells| && norm.cells[..n] == NormElements(t.base, s.cells, n) by {
      NormSlotCells(t, s);
    }
    forall i | 0 <= i < n ensures PackCell(fields, norm.cells[i]) == PackCell(fields, s.cells[i]) {
      assert RepacksCell(fields, s.cells[i]);
      assert norm.cells[i] == norm.cells[..n][i];
      assert NormElements(t.base, s.cells, n)[i] == NormElement(t.base, s.cells[i]);
    }
    PackRecordsSame(fields, FortranOrder(SlotDims(t, s)), norm.cells, s.cells, 0);
  }

  lemma RepackPods(env: Env, t: TypeDef, t2: TypeDef, q: string, fs: seq<Field>, shape: seq<nat>, cells: seq<Cell>)
    requires PodOk(env, fs) && |cells| == Product(shape)
    requires forall c | c in cells :: CellOk(fs, c) && CellFits(fs, c)
    requires CheckRecords(t, |cells|).Ok? && CheckRecords(t2, |cells|).Ok?
    ensures PackPods(t2, q, fs, shape, NormCells(fs, cells)) == PackPods(t, q, fs, shape, cells)
    ensures PackPods(t2, q, fs, [|cells|], Flattened(shape, NormCells(fs, cells))) == PackPods(t, q, fs, shape, cells)
  {
    hide PackCell, CellOk, CellFits, NormCell, PodOk;
    var norm := NormCells(fs, cells);
    forall i | 0 <= i < |cells| ensures PackCell(fs, norm[i]) == PackCell(fs, cells[i]) {
      assert cells[i] in cells;
      RepackCell(env, fs, cells[i]);
    }
    PackRecordsSame(fs, FortranOrder(shape), norm, cells, 0);
    var flat, one := Flattened(shape, norm), FortranOrder([|cells|]);
    PackRecordsReordered(fs, FortranOrder(shape), norm, one, flat, 0) by {
      FortranOrderOne(|cells|);
      PickFlattens(shape, norm);
      assert forall k | 0 <= k < |one| :: flat[one[k]] == Pick(norm, FortranOrder(shape))[k];
    }
    ProductOne(|cells|);
  }

  /** Only the records picked matter, not where they are picked from. */
  lemma {:induction false} PackRecordsReordered(fs: seq<Field>, order: seq<nat>, a: seq<Cell>, order': seq<nat>,
                                                b: seq<Cell>, k: nat)
    requires (forall p | p in order :: p < |a|) && (forall p | p in order' :: p < |b|)
    requires k <= |order| == |order'|
    requires forall j | 0 <= j < |order| :: order[j] in order && order'[j] in order' && a[order[j]] == b[order'[j]]
    ensures PackRecords(fs, order, a, k) == PackRecords(fs, order', b, k)
    decreases |order| - k
  {
    hide PackCell;
    if k < |order| {
      PackRecordsReordered(fs, order, a, order', b, k + 1);
    }
  }

  // ----- plain values

  /** The type what comes back is packed with, seen from inside a varvalue. */
  function TypeAgain(v: Py, t: TypeDef, asVar: bool): TypeDef {
    if asVar then TypeBack(v, t) else t
  }

  lemma RepackNumbers(v: Py, t: TypeDef, t2: TypeDef, k: Kind, asVar: bool)
    requires NumbersFit(v, t, k, asVar) && PackNumbers(v, t, k) == Ok(NumbersOf(v, k))
    requires forall x | x in NumbersOf(v, k) :: NumOk(k, x)
    requires t.base == Numeric(k)
    requires if asVar then t2.arr.Array? && t2.varLength && t2.lengths == [0] else t2 == t
    ensures PackNumbers(NumbersBack(NumbersOf(v, k), t, k, asVar), t2, k) == Ok(NumbersOf(v, k))
  {
    var xs := NumbersOf(v, k);
    if t.arr.NotArray? && !asVar {
      assert |xs| == 1;
      assert xs[0] in xs;
      NativeConverts(k, xs[0]);
      assert [Native(xs[0])][0] == Native(xs[0]);
      hide Convert;
      assert ConvertAll(k, [Native(xs[0])]) == xs;
    } else {
      hide Convert;
      assert CellNums(NumCells(xs)) == xs;
    }
  }

  /** The Python scalar made of a number converts back to it. */
  lemma NativeConverts(k: Kind, x: Num)
    requires NumOk(k, x)
    ensures Convert(k, Native(x)) == Just(x) && IsNumber(Native(x))
  {
  }

  /** What the packer puts on the wire is in range. */
  lemma NumbersInRange(env: Env, v: Py, t: TypeDef, k: Kind, asVar: bool)
    requires NumbersFit(v, t, k, asVar) && PyOk(env, v)
    ensures forall x | x in NumbersOf(v, k) :: NumOk(k, x)
  {
    if v.NdArray? {
      forall i | 0 <= i < |v.cells| ensures NumOk(k, CellNum(v.cells[i])) {
        assert v.cells[i] in v.cells;
      }
    } else {
      var items := if IsNumber(v) then [v] else Items(v);
      forall i | 0 <= i < |items| ensures NumOk(k, NumbersOf(v, k)[i]) {
        assert Converts(k, items[i]);
        ConvertInRange(k, items[i]);
      }
    }
  }

  lemma ConvertInRange(k: Kind, v: Py)
    requires Converts(k, v)
    ensures NumOk(k, Convert(k, v).value)
  {
  }

  /** The message for what came back, from the outside of the varvalue or without one. */
  ghost predicate ContentRepacks(env: Env, v: Py, t: TypeDef, asVar: bool) {
    Pack(env, PlainBack(env, v, t, asVar), TypeAgain(v, t, asVar)) == Pack(env, v, t)
  }

  lemma RepackNumeric(env: Env, v: Py, t: TypeDef, k: Kind, asVar: bool)
    requires IsPlain(v, t) && t.base == Numeric(k) && PyOk(env, v) && PlainFits(env, v, t, asVar)
    ensures ContentRepacks(env, v, t, asVar)
  {
    var w, t2 := PlainBack(env, v, t, asVar), TypeAgain(v, t, asVar);
    if t.arr.MultiDim? && IsSequence(v) {
      assert PackMultiDimNumbers(v, t2, k) == PackMultiDimNumbers(v, t, k);
      hide PackMultiDimNumbers, PyOk;
      assert PackPlain(env, w, t2) == PackPlain(env, v, t);
    } else {
      NumbersReturn(v, t, k, asVar) by { ByteRange(env, v); }
      PackedNumbers(v, t, k) by { ByteRange(env, v); }
      NumbersInRange(env, v, t, k, asVar);
      RepackNumbers(v, t, t2, k, asVar);
      hide PackNumbers, NumbersOf, NumbersFit, PyOk;
      assert w == NumbersBack(NumbersOf(v, k), t, k, asVar);
      assert PackPlain(env, w, t2) == PackPlain(env, v, t);
    }
  }

  lemma ByteRange(env: Env, v: Py)
    requires PyOk(env, v)
    ensures v.ByteArray? ==> forall b | b in v.bytes :: 0 <= b < 256
  {
  }

  lemma RepackEnum(env: Env, v: Py, t: TypeDef, asVar: bool)
    requires IsPlain(v, t) && t.base.Named? && t.base.def.Enum? && PyOk(env, v) && PlainFits(env, v, t, asVar)
    ensures ContentRepacks(env, v, t, asVar)
  {
    var w, t2 := PlainBack(env, v, t, asVar), TypeAgain(v, t, asVar);
    NumbersReturn(v, ENUM_TYPE, Int32, asVar) by { ByteRange(env, v); }
    PackedNumbers(v, ENUM_TYPE, Int32) by { ByteRange(env, v); }
    NumbersInRange(env, v, ENUM_TYPE, Int32, asVar);
    RepackNumbers(v, ENUM_TYPE, if asVar then t2 else ENUM_TYPE, Int32, asVar);
    hide PackNumbers, NumbersOf, NumbersFit, PyOk;
    assert w == NumbersBack(NumbersOf(v, Int32), ENUM_TYPE, Int32, asVar);
    assert PackPlain(env, w, t2) == PackPlain(env, v, t);
  }

  lemma RepackRecords(env: Env, v: Py, t: TypeDef, asVar: bool, def: NamedDef)
    requires IsPlain(v, t) && t.base == Named(def) && IsRecords(t) && TypeOk(env, t) && PyOk(env, v)
    requires RecordsFit(v, t, def)
    ensures PackRecordValue(RecordsBack(v, t, def), TypeAgain(v, t, asVar), def) == PackRecordValue(v, t, def)
  {
    var n := |v.cells|;
    RecordArrayReturn(env, v, t, Nothing, def);
    RecordCellsOk(env, v, t, def);
    hide RecordArrayReturns;
    var t2 := TypeAgain(v, t, asVar);
    var from, to := if t.arr.MultiDim? then RecordsType(t) else t, if t.arr.MultiDim? then RecordsType(t2) else t2;
    ProductOne(0);
    assert CheckRecords(from, n).Ok? && CheckRecords(to, n).Ok?;
    if def.Pod? {
      RepackPods(env, from, to, def.qname, def.fields, v.shape, v.cells);
    } else {
      OneDimensionalOrder(n, Flattened(v.shape, v.cells));
    }
    hide PackPods, NormCells, CellFits, CellOk, PyOk;
  }

  lemma RecordCellsOk(env: Env, v: Py, t: TypeDef, def: NamedDef)
    requires t.base == Named(def) && IsRecords(t) && TypeOk(env, t) && PyOk(env, v) && RecordsFit(v, t, def)
    ensures forall c | c in v.cells :: CellOk(def.fields, c)
  {
    hide CellOk, CellFits;
  }

  lemma RepackRecordValue(env: Env, v: Py, t: TypeDef, asVar: bool)
    requires IsPlain(v, t) && IsRecords(t) && TypeOk(env, t) && PyOk(env, v) && PlainFits(env, v, t, asVar)
    ensures ContentRepacks(env, v, t, asVar)
  {
    var def := t.base.def;
    RepackRecords(env, v, t, asVar, def);
    hide PackRecordValue, RecordsFit, PyOk, TypeOk, NormCells;
    var w, t2 := PlainBack(env, v, t, asVar), TypeAgain(v, t, asVar);
    assert PackPlain(env, w, t2) == PackRecordValue(w, t2, def);
    assert PackPlain(env, v, t) == PackRecordValue(v, t, def);
  }

  // ----- structures and containers

  ghost predicate Repacks(env: Env, v: Py, t: TypeDef, asVar: bool) {
    Fits(env, v, t, asVar) ==> Pack(env, Back(env, v, t, asVar), if asVar then VARVALUE_TYPE else t) == Pack(env, v, t)
  }

  lemma {:induction false} AttrAt(attrs: seq<Attr>, fs: seq<Field>, i: nat)
    requires DistinctNames(fs) && |attrs| == |fs| && i < |fs| && forall j | 0 <= j < |fs| :: attrs[j].name == fs[j].name
    ensures AttrIndex(attrs, fs[i].name) == Just(i)
  {
    if i > 0 {
      assert fs[0].name != fs[i].name;
      assert DistinctNames(fs[1..]) by {
        forall a, b | 0 <= a < b < |fs[1..]| ensures fs[1..][a].name != fs[1..][b].name {
          assert fs[a + 1].name != fs[b + 1].name;
        }
      }
      AttrAt(attrs[1..], fs[1..], i - 1);
    }
  }

  lemma {:induction false} PackFieldsSame(env: Env, a: seq<Attr>, b: seq<Attr>, fs: seq<Field>)
    requires forall i | 0 <= i < |fs| ::
               PackField(env, a, fs[i]).Ok? && PackField(env, a, fs[i]) == PackField(env, b, fs[i])
    ensures PackFields(env, a, fs) == PackFields(env, b, fs)
    decreases |fs|
  {
    hide Pack, AttrIndex;
    if fs != [] {
      forall i | 0 <= i < |fs[1..]|
        ensures PackField(env, a, fs[1..][i]).Ok? && PackField(env, a, fs[1..][i]) == PackField(env, b, fs[1..][i])
      {
        assert fs[1..][i] == fs[i + 1];
      }
      PackFieldsSame(env, a, b, fs[1..]);
    }
  }

  lemma RepackStruct(env: Env, v: Py, t: TypeDef, asVar: bool, q: string)
    requires IsPlain(v, t) && t.base == Named(Structure(q)) && StructFits(env, v, q) && DistinctNames(env.structs[q])
    requires forall i | 0 <= i < |env.structs[q]| :: FieldRepacks(env, v.attrs, env.structs[q][i])
    requires forall i | 0 <= i < |env.structs[q]| :: PackField(env, v.attrs, env.structs[q][i]).Ok?
    ensures ContentRepacks(env, v, t, asVar)
  {
    hide Fits, Back, FieldFits, FieldRepacks, Pack, AttrIndex, Mangle, DistinctNames, PackFields;
    var fs := env.structs[q];
    var w := StructBack(env, v, q);
    forall i | 0 <= i < |fs| ensures PackField(env, v.attrs, fs[i]) == PackField(env, w.attrs, fs[i]) {
      FieldSame(env, v, q, i);
    }
    PackFieldsSame(env, v.attrs, w.attrs, fs);
    StructContent(env, v, t, asVar, q);
  }

  lemma StructContent(env: Env, v: Py, t: TypeDef, asVar: bool, q: string)
    requires IsPlain(v, t) && t.base == Named(Structure(q)) && v.Struct? && q in env.structs
    requires PackStruct(env, StructBack(env, v, q), q) == PackStruct(env, v, q)
    ensures ContentRepacks(env, v, t, asVar)
  {
    hide PackStruct;
    var w, t2 := PlainBack(env, v, t, asVar), TypeAgain(v, t, asVar);
    assert PackPlain(env, w, t2) == PackStruct(env, w, q);
    assert PackPlain(env, v, t) == PackStruct(env, v, q);
  }

  ghost predicate FieldRepacks(env: Env, attrs: seq<Attr>, f: Field) {
    match AttrIndex(attrs, f.name)
    case Nothing => true
    case Just(i) => Repacks(env, attrs[i].value, f.typ, false)
  }

  lemma FieldSame(env: Env, v: Py, q: string, i: nat)
    requires StructFits(env, v, q) && DistinctNames(env.structs[q]) && i < |env.structs[q]|
    requires FieldRepacks(env, v.attrs, env.structs[q][i])
    ensures PackField(env, v.attrs, env.structs[q][i]) == PackField(env, StructBack(env, v, q).attrs, env.structs[q][i])
  {
    hide Pack, Fits, Back;
    var fs := env.structs[q];
    var attrs := StructBack(env, v, q).attrs;
    assert forall j | 0 <= j < |fs| :: attrs[j] == FieldBack(env, v.attrs, fs[j]);
    AttrAt(attrs, fs, i);
    assert FieldFits(env, v.attrs, fs[i]);
    assert attrs[i] == FieldBack(env, v.attrs, fs[i]);
  }

  /** Packing as a varvalue does not depend on the name of the type. */
  lemma VarValuePackAlike(env: Env, v: Py, t: TypeDef)
    requires IsVarValueType(t)
    ensures Pack(env, v, t) == Pack(env, v, VARVALUE_TYPE)
  {
    if v.VarVal? {
      var d := Pack(env, v.data, VarValueType(v.typ));
      hide PackContainer, PackPlain;
    }
  }

  ghost predicate ElementRepacks(env: Env, v: Py, t: TypeDef, asVar: bool) {
    var w := Back(env, v, RemoveContainers(t), asVar);
    Pack(env, w, RemoveContainers(TypeAgain(v, t, asVar))) == Pack(env, v, RemoveContainers(t))
  }

  lemma ElementFromRepacks(env: Env, v: Py, t: TypeDef, asVar: bool)
    requires !t.container.NoContainer? && Fits(env, v, RemoveContainers(t), asVar)
    requires Repacks(env, v, RemoveContainers(t), asVar)
    ensures ElementRepacks(env, v, t, asVar)
  {
    hide Fits, Back, Pack;
    if asVar {
      VarValuePackAlike(env, Back(env, v, RemoveContainers(t), asVar), RemoveContainers(TypeAgain(v, t, asVar)));
    }
  }

  lemma {:induction false} PackItemsSame(env: Env, a: seq<Py>, b: seq<Py>, ta: TypeDef, tb: TypeDef, i: nat)
    requires |a| == |b|
    requires forall j | 0 <= j < |a| :: Pack(env, a[j], ta).Ok? && Pack(env, a[j], ta) == Pack(env, b[j], tb)
    ensures PackItems(env, a, ta, i) == PackItems(env, b, tb, i)
  {
    hide Pack;
    if a != [] {
      forall j | 0 <= j < |a[1..]|
        ensures Pack(env, a[1..][j], ta).Ok? && Pack(env, a[1..][j], ta) == Pack(env, b[1..][j], tb)
      {
        assert a[1..][j] == a[j + 1] && b[1..][j] == b[j + 1];
      }
      PackItemsSame(env, a[1..], b[1..], ta, tb, i + 1);
    }
  }

  /** A map packs to the elements its entries pack to. */
  lemma PackMapSame(env: Env, a: seq<Entry>, b: seq<Entry>, ta: TypeDef, tb: TypeDef)
    requires |a| == |b| && ta.container == tb.container
    requires forall j | 0 <= j < |a| ::
               PackEntry(env, a[j], ta).Ok? && PackEntry(env, a[j], ta) == PackEntry(env, b[j], tb)
    ensures PackMap(env, a, ta) == PackMap(env, b, tb)
  {
    hide PackEntry, PackMap;
    PackMapEach(env, a, ta);
    PackMapEach(env, b, tb);
    var ra, rb := PackMap(env, a, ta), PackMap(env, b, tb);
    forall j | 0 <= j < |a| ensures ra.value[j] == rb.value[j] {
      assert Ok(ra.value[j]) == Ok(rb.value[j]);
    }
    assert ra.value == rb.value;
  }

  /** A list packed as an int map packs to the same elements as the map keyed by position. */
  lemma ListAsMapSame(env: Env, items: seq<Py>, entries: seq<Entry>, t: TypeDef, tb: TypeDef)
    requires tb.container.MapInt32? && |items| == |entries| && |items| <= INT32_MAX
    requires forall j | 0 <= j < |items| :: Pack(env, items[j], t).Ok?
    requires forall j | 0 <= j < |items| ::
      entries[j].key == PyInt(j) && Pack(env, items[j], t) == Pack(env, entries[j].value, RemoveContainers(tb))
    ensures PackItems(env, items, t, 0) == PackMap(env, entries, tb)
  {
    hide Pack, PackMap, PackItems, PackEntry;
    PackItemsEach(env, items, t, 0);
    PackMapEach(env, entries, tb);
    var ra, rb := PackItems(env, items, t, 0), PackMap(env, entries, tb);
    forall j | 0 <= j < |items|
      ensures PackEntry(env, entries[j], tb) == Ok(Elem(Number(j), Pack(env, items[j], t).value))
    {
      NumberedEntry(env, entries[j], tb, j);
    }
    forall j | 0 <= j < |items| ensures ra.value[j] == rb.value[j] {
      assert Ok(rb.value[j]) == PackEntry(env, entries[j], tb);
      assert ra.value[j] == Elem(Number(0 + j), Pack(env, items[j], t).value);
    }
    assert ra.value == rb.value;
  }

  lemma NumberedEntry(env: Env, e: Entry, tb: TypeDef, j: nat)
    requires tb.container.MapInt32? && e.key == PyInt(j) && j <= INT32_MAX
             && Pack(env, e.value, RemoveContainers(tb)).Ok?
    ensures PackEntry(env, e, tb) == Ok(Elem(Number(j), Pack(env, e.value, RemoveContainers(tb)).value))
  {
    hide Pack;
  }

  lemma RepackList(env: Env, v: Py, t: TypeDef, asVar: bool)
    requires Iterable(v) && (t.container.ListOf? || t.container.MapInt32?)
    requires forall i | 0 <= i < |Items(v)| :: ElementRepacks(env, Items(v)[i], t, asVar)
    requires forall i | 0 <= i < |Items(v)| :: Pack(env, Items(v)[i], RemoveContainers(t)).Ok?
    ensures ContentRepacks(env, v, t, asVar)
  {
    hide Pack, Back, PackMap, PackItems, Items;
    var items := Items(v);
    var w, t2, t1 := ContainerBack(env, v, t, asVar), TypeAgain(v, t, asVar), RemoveContainers(t);
    assert forall i | 0 <= i < |items| :: ElementRepacks(env, items[i], t, asVar);
    forall i | 0 <= i < |items| ensures RemoveContainers(TypeAgain(items[i], t, asVar)) == RemoveContainers(t2) {
    }
    if t.container.MapInt32? {
      ListAsMapSame(env, items, w.entries, t1, t2);
      SequencePacks(env, w, t2, v, t) by { hide ElementRepacks; }
    } else {
      PackItemsSame(env, items, w.items, t1, RemoveContainers(t2), 0);
      SequencePacks(env, w, t2, v, t) by { hide ElementRepacks; }
    }
    PlainBackIs(env, v, t, asVar);
  }

  /** A sequence and the list or map that came back for it pack alike when their items do. */
  lemma SequencePacks(env: Env, w: Py, t2: TypeDef, v: Py, t: TypeDef)
    requires Iterable(v) && t2.container == t.container && (t.container.ListOf? || t.container.MapInt32?)
    requires t.container.ListOf? ==>
      w.List? && |w.items| <= INT32_MAX &&
      PackItems(env, w.items, RemoveContainers(t2), 0) == PackItems(env, Items(v), RemoveContainers(t), 0)
    requires t.container.MapInt32? ==>
      w.Dict? && PackMap(env, w.entries, t2) == PackItems(env, Items(v), RemoveContainers(t), 0)
    ensures Pack(env, w, t2) == Pack(env, v, t)
  {
    hide PackItems, PackIntEntries, PackStringEntries, PackPlain;
    assert Pack(env, w, t2) == PackContainer(env, w, t2);
    assert Pack(env, v, t) == PackContainer(env, v, t);
  }

  /** A string, byte array or numpy array given for a list or an int map packs as the list of its items. */
  lemma SequencePacksAsList(env: Env, v: Py, t: TypeDef)
    requires Iterable(v) && (t.container.ListOf? || t.container.MapInt32?)
    ensures Pack(env, v, t) == Pack(env, List(Items(v)), t)
  {
    hide PackItems, PackIntEntries, PackStringEntries, PackPlain;
    assert Pack(env, v, t) == PackContainer(env, v, t);
    assert Pack(env, List(Items(v)), t) == PackContainer(env, List(Items(v)), t);
  }

  lemma PlainBackIs(env: Env, v: Py, t: TypeDef, asVar: bool)
    requires !t.container.NoContainer?
    ensures PlainBack(env, v, t, asVar) == ContainerBack(env, v, t, asVar)
  {
  }

  /** What a map packs to, by its container kind. */
  lemma MapPacks(env: Env, w: Py, t2: TypeDef, v: Py, t: TypeDef)
    requires t2.container == t.container && v.Dict? && (t.container.MapInt32? || t.container.MapString?)
    requires w.Dict? && PackMap(env, w.entries, t2) == PackMap(env, v.entries, t)
    ensures Pack(env, w, t2) == Pack(env, v, t)
  {
    hide PackItems, PackIntEntries, PackStringEntries, PackPlain;
    assert Pack(env, w, t2) == PackContainer(env, w, t2);
    assert Pack(env, v, t) == PackContainer(env, v, t);
  }

  lemma RepackDict(env: Env, v: Py, t: TypeDef, asVar: bool)
    requires v.Dict? && (t.container.MapInt32? || t.container.MapString?)
    requires forall i | 0 <= i < |v.entries| :: EntryFits(env, v.entries[i], t, asVar)
    requires forall i | 0 <= i < |v.entries| :: ElementRepacks(env, v.entries[i].value, t, asVar)
    requires forall i | 0 <= i < |v.entries| :: Pack(env, v.entries[i].value, RemoveContainers(t)).Ok?
    ensures ContentRepacks(env, v, t, asVar)
  {
    var w, t2 := ContainerBack(env, v, t, asVar), TypeAgain(v, t, asVar);
    forall i | 0 <= i < |v.entries|
      ensures PackEntry(env, v.entries[i], t).Ok? && PackEntry(env, v.entries[i], t) == PackEntry(env, w.entries[i], t2)
    {
      assert EntryFits(env, v.entries[i], t, asVar);
      assert ElementRepacks(env, v.entries[i].value, t, asVar);
      RepackEntry(env, v.entries[i], t, asVar, w.entries[i], t2);
    }
    hide Pack, Back, PackMap, PackEntry, ElementRepacks, EntryFits;
    PackMapSame(env, v.entries, w.entries, t, t2);
    MapPacks(env, w, t2, v, t);
    PlainBackIs(env, v, t, asVar);
  }

  lemma RepackEntry(env: Env, e: Entry, t: TypeDef, asVar: bool, e': Entry, t2: TypeDef)
    requires t.container.MapInt32? || t.container.MapString?
    requires EntryFits(env, e, t, asVar) && ElementRepacks(env, e.value, t, asVar)
    requires Pack(env, e.value, RemoveContainers(t)).Ok?
    requires e' == EntryBack(env, e, t, asVar) && t2.container == t.container
    requires RemoveContainers(t2) == RemoveContainers(TypeAgain(e.value, t, asVar))
    ensures PackEntry(env, e, t).Ok? && PackEntry(env, e, t) == PackEntry(env, e', t2)
  {
    hide Pack, Back, Fits;
    IntKeys(e.key);
  }

  lemma IntKeys(key: Py)
    ensures IntKeyOk(key) ==> IntKeyOk(PyInt(KeyNumber(key))) && KeyNumber(PyInt(KeyNumber(key))) == KeyNumber(key)
  {
  }

  // ----- the theorem

  lemma WrapRepacks(env: Env, v: Py, t: TypeDef, asVar: bool)
    requires v != None && !IsVarValueType(t) && ContentRepacks(env, v, t, asVar)
    ensures Repacks(env, v, t, asVar)
  {
    if asVar {
      var w, t2 := PlainBack(env, v, t, asVar), TypeBack(v, t);
      hide PackContainer, PackPlain, PlainBack, Fits;
      assert VarValueType(t2) == t2;
      assert Pack(env, VarVal(w, t2), VARVALUE_TYPE) == Pack(env, w, t2);
    }
  }

  lemma {:induction false} RepackElements(env: Env, v: Py, t: TypeDef, asVar: bool)
    requires EnvOk(env) && TypeOk(env, RemoveContainers(t)) && !t.container.NoContainer?
    requires Iterable(v) ==> forall i | 0 <= i < |Items(v)| :: PyOk(env, Items(v)[i])
    requires Iterable(v) && !t.container.MapString? ==>
               forall i | 0 <= i < |Items(v)| :: Fits(env, Items(v)[i], RemoveContainers(t), asVar)
    requires v.Dict? ==> forall i | 0 <= i < |v.entries| ::
      PyOk(env, v.entries[i].value) && Fits(env, v.entries[i].value, RemoveContainers(t), asVar)
    ensures Iterable(v) && !t.container.MapString? ==> forall i | 0 <= i < |Items(v)| ::
      ElementRepacks(env, Items(v)[i], t, asVar) && Pack(env, Items(v)[i], RemoveContainers(t)).Ok?
    ensures v.Dict? ==> forall i | 0 <= i < |v.entries| ::
      ElementRepacks(env, v.entries[i].value, t, asVar) && Pack(env, v.entries[i].value, RemoveContainers(t)).Ok?
    decreases Rank(v, false), v, 0
  {
    hide EnvOk, PyOk, TypeOk, Repacks, ElementRepacks, Fits, Pack, Back, Items;
    if Iterable(v) && !t.container.MapString? {
      forall i | 0 <= i < |Items(v)|
        ensures ElementRepacks(env, Items(v)[i], t, asVar) && Pack(env, Items(v)[i], RemoveContainers(t)).Ok?
      {
        RepackValue(env, Items(v)[i], RemoveContainers(t), asVar);
        ElementFromRepacks(env, Items(v)[i], t, asVar);
        ValueRoundTrip(env, Items(v)[i], RemoveContainers(t), asVar);
      }
    }
    if v.Dict? {
      forall i | 0 <= i < |v.entries|
        ensures ElementRepacks(env, v.entries[i].value, t, asVar)
                && Pack(env, v.entries[i].value, RemoveContainers(t)).Ok?
      {
        assert v.entries[i].value < v.entries[i];
        RepackValue(env, v.entries[i].value, RemoveContainers(t), asVar);
        ElementFromRepacks(env, v.entries[i].value, t, asVar);
        ValueRoundTrip(env, v.entries[i].value, RemoveContainers(t), asVar);
      }
    }
  }

  lemma {:induction false} RepackAttributes(env: Env, v: Py, q: string)
    requires EnvOk(env) && StructFits(env, v, q)
    requires forall i | 0 <= i < |v.attrs| :: PyOk(env, v.attrs[i].value)
    ensures DistinctNames(env.structs[q])
    ensures forall i | 0 <= i < |env.structs[q]| ::
      FieldRepacks(env, v.attrs, env.structs[q][i]) && PackField(env, v.attrs, env.structs[q][i]).Ok?
    decreases Rank(v, true), v, 0
  {
    StructDefOk(env, q);
    hide EnvOk, PyOk, TypeOk, Repacks, Fits, Pack, Back;
    var fs := env.structs[q];
    forall i | 0 <= i < |fs| ensures FieldRepacks(env, v.attrs, fs[i]) && PackField(env, v.attrs, fs[i]).Ok? {
      assert FieldFits(env, v.attrs, fs[i]);
      var j := AttrIndex(v.attrs, fs[i].name).value;
      assert v.attrs[j].value < v.attrs[j];
      RepackValue(env, v.attrs[j].value, fs[i].typ, false);
      ValueRoundTrip(env, v.attrs[j].value, fs[i].typ, false);
    }
  }

  lemma RepackPlain(env: Env, v: Py, t: TypeDef, asVar: bool)
    requires IsPlain(v, t) && TypeOk(env, t) && PyOk(env, v) && PlainFits(env, v, t, asVar)
    requires !(t.base.Named? && t.base.def.Structure?)
    ensures ContentRepacks(env, v, t, asVar)
  {
    if t.base.Numeric? {
      RepackNumeric(env, v, t, t.base.kind, asVar);
    } else if t.base.Text? {
      RepackText(env, v, t, asVar);
    } else if t.base.def.Enum? {
      RepackEnum(env, v, t, asVar);
    } else {
      RepackRecordValue(env, v, t, asVar);
    }
  }

  lemma RepackText(env: Env, v: Py, t: TypeDef, asVar: bool)
    requires IsPlain(v, t) && t.base.Text? && v.Str?
    ensures ContentRepacks(env, v, t, asVar)
  {
    hide PackContainer;
    var t2 := TypeAgain(v, t, asVar);
    assert PackPlain(env, v, t2) == Ok(Chars(v.s));
    assert PackPlain(env, v, t) == Ok(Chars(v.s));
  }

  /** For every value that obeys its type, packing what the receiver got gives the same message data:
      pack, unpack, pack equals pack. */
  lemma {:induction false} RepackValue(env: Env, v: Py, t: TypeDef, asVar: bool)
    requires EnvOk(env) && TypeOk(env, t) && PyOk(env, v)
    ensures Repacks(env, v, t, asVar)
    decreases Rank(v, t.container.NoContainer?), v
  {
    if Fits(env, v, t, asVar) && v != None {
      FitsParts(env, v, t, asVar);
      if IsVarValueType(t) {
        VarValOk(env, v);
        RepackValue(env, v.data, VarValueType(v.typ), true);
        RepackVarVal(env, v, t, asVar);
      } else {
        ContentOk(env, v, t);
        hide EnvOk, PyOk, TypeOk, Repacks, Fits, Pack, Back, ContentRepacks, ElementRepacks, FieldRepacks, PlainFits,
             ContainerFits, StructFits, FieldFits, PodOk, NamedDefOk;
        if !t.container.NoContainer? {
          RepackElements(env, v, t, asVar);
          if Iterable(v) {
            RepackList(env, v, t, asVar);
          } else {
            RepackDict(env, v, t, asVar);
          }
        } else if t.base.Named? && t.base.def.Structure? {
          RepackAttributes(env, v, t.base.def.qname);
          RepackStruct(env, v, t, asVar, t.base.def.qname);
        } else {
          RepackPlain(env, v, t, asVar);
        }
        WrapRepacks(env, v, t, asVar);
      }
    } else {
      hide PyOk, TypeOk, EnvOk;
    }
  }

  lemma FitsParts(env: Env, v: Py, t: TypeDef, asVar: bool)
    requires Fits(env, v, t, asVar) && v != None
    ensures IsVarValueType(t) ==> v.VarVal? && Fits(env, v.data, VarValueType(v.typ), true)
    ensures !IsVarValueType(t) && t.container.NoContainer? ==> IsPlain(v, t) && PlainFits(env, v, t, asVar)
    ensures !IsVarValueType(t) && t.container.NoContainer? && t.base.Named? && t.base.def.Structure? ==>
      StructFits(env, v, t.base.def.qname)
    ensures !t.container.NoContainer? ==> Iterable(v) || v.Dict?
    ensures !t.container.NoContainer? && Iterable(v) ==>
      (t.container.ListOf? || t.container.MapInt32?) &&
      forall i | 0 <= i < |Items(v)| :: Fits(env, Items(v)[i], RemoveContainers(t), asVar)
    ensures !t.container.NoContainer? && v.Dict? ==>
      (t.container.MapInt32? || t.container.MapString?) &&
      forall i | 0 <= i < |v.entries| :: EntryFits(env, v.entries[i], t, asVar)
  {
    hide Items;
  }

  lemma RepackVarVal(env: Env, v: Py, t: TypeDef, asVar: bool)
    requires IsVarValueType(t) && v.VarVal? && Fits(env, v, t, asVar)
    requires Repacks(env, v.data, VarValueType(v.typ), true)
    ensures Repacks(env, v, t, asVar)
  {
    var w := Back(env, v.data, VarValueType(v.typ), true);
    VarValuePackAlike(env, w, t);
    assert Pack(env, v, t) == Pack(env, v.data, VarValueType(v.typ));
    assert Back(env, v, t, asVar) == w;
    assert Fits(env, v.data, VarValueType(v.typ), true);
    hide Pack, Back, Fits;
  }

  /** One trip normalises a value; every later trip sends the same message and changes nothing. */
  lemma LaterTripsAreStable(env: Env, v: Py, t: TypeDef, asVar: bool)
    requires EnvOk(env) && TypeOk(env, t) && PyOk(env, v) && Fits(env, v, t, asVar)
    ensures var w := Back(env, v, t, asVar); var t2 := if asVar then VARVALUE_TYPE else t;
      && Pack(env, v, t).Ok? && Pack(env, w, t2) == Pack(env, v, t)
      && Unpack(env, Pack(env, w, t2).value, Just(t2)) == Ok(w)
  {
    RepackValue(env, v, t, asVar);
    ValueRoundTrip(env, v, t, asVar);
    hide EnvOk, TypeOk, PyOk, Pack, Unpack, Back, Fits;
  }
}
