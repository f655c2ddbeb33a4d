/** Pods survive packing and unpacking: variable-length fields keep their length and elements, the
    padding behind them is reset to zero, and everything else is unchanged. */
module PodRoundTrip {
  import opened ColumnMajor
  import opened Types
  import opened Packing
  import opened Unpacking
  import opened Layout

  // ----- what the packer accepts and what comes back

  /** The lengths of variable-length fields lie within their bounds and no scalar field is a bool,
      which numpy hands over as a scalar the packer refuses. */
  predicate CellFits(fs: seq<Field>, c: Cell) {
    c.Record? && forall i | 0 <= i < |fs| && i < |c.fields| :: SlotFits(fs[i].typ, c.fields[i])
  }

  predicate SlotFits(t: TypeDef, s: Slot) {
    if s.Padded? then 0 <= s.len <= |s.cells| && forall i | 0 <= i < s.len :: ElementFits(t.base, s.cells[i])
    else
      && !(t.arr.NotArray? && t.base == Numeric(Bool))
      && forall i | 0 <= i < |s.cells| :: ElementFits(t.base, s.cells[i])
  }

  predicate ElementFits(b: Base, c: Cell) {
    match b
    case Named(Pod(_, fields)) => CellFits(fields, c)
    case _ => true
  }

  function NormCell(fs: seq<Field>, c: Cell): Cell {
    if c.Record? && |c.fields| == |fs| then
      Record(seq(|fs|, i requires 0 <= i < |fs| => NormSlot(fs[i].typ, c.fields[i])))
    else c
  }

  function NormSlot(t: TypeDef, s: Slot): Slot {
    match s
    case Fixed(shape, cells) => Fixed(shape, NormElements(t.base, cells, |cells|))
    case Padded(len, cells) =>
      if 0 <= len <= |cells| then
        Padded(len, Resize(NormElements(t.base, cells, len), |cells|, ZeroCell(t.base)))
      else s
  }

  function NormElements(b: Base, cells: seq<Cell>, n: nat): (r: seq<Cell>)
    requires n <= |cells|
    ensures |r| == n
  {
    seq(n, i requires 0 <= i < n => NormElement(b, cells[i]))
  }

  function NormElement(b: Base, c: Cell): Cell {
    match b
    case Named(Pod(_, fields)) => NormCell(fields, c)
    case _ => c
  }

  // ----- lists of named elements

  predicate NamedAs(es: seq<Elem>, fs: seq<Field>) {
    |es| == |fs| && forall i | 0 <= i < |fs| :: es[i].id == Name(fs[i].name)
  }

  /** With distinct names, looking a field up finds the element packed for it. */
  lemma {:induction false} FindNamed(es: seq<Elem>, fs: seq<Field>, i: nat)
    requires NamedAs(es, fs) && DistinctNames(fs) && i < |fs|
    ensures FindElement(es, fs[i].name) == Just(es[i])
  {
    if i > 0 {
      assert fs[0].name != fs[i].name;
      assert DistinctNames(fs[1..]) by {
        forall a, b | 0 <= a < b < |fs[1..]| ensures fs[1..][a].name != fs[1..][b].name {
          assert fs[a + 1].name != fs[b + 1].name;
        }
      }
      FindNamed(es[1..], fs[1..], i - 1);
    }
  }

  /** A record packs when each of its fields does, into one element per field. */
  lemma {:induction false} PackSlotsEach(fs: seq<Field>, slots: seq<Slot>)
    requires |slots| == |fs|
    ensures PackSlots(fs, slots).Ok? <==> forall i | 0 <= i < |fs| :: PackSlot(fs[i].typ, slots[i]).Ok?
    ensures PackSlots(fs, slots).Ok? ==>
      var es := PackSlots(fs, slots).value;
      NamedAs(es, fs) && forall i | 0 <= i < |fs| :: es[i].data == PackSlot(fs[i].typ, slots[i]).value
  {
    if fs != [] {
      PackSlotsEach(fs[1..], slots[1..]);
      assert forall i | 0 < i < |fs| :: fs[i] == fs[1..][i - 1] && slots[i] == slots[1..][i - 1];
    }
  }

  /** An array of records packs when each record does, into one numbered element per record. */
  lemma {:induction false} PackRecordsEach(fs: seq<Field>, order: seq<nat>, cells: seq<Cell>, k: nat)
    requires k <= |order| && forall p | p in order :: p < |cells|
    ensures var r := PackRecords(fs, order, cells, k);
      && (r.Ok? <==> forall j | k <= j < |order| :: PackCell(fs, Pick(cells, order)[j]).Ok?)
      && (r.Ok? ==>
            && |r.value| == |order| - k
            && forall j | k <= j < |order| ::
                 r.value[j - k] == Elem(Number(j), Nested(PodT, "", PackCell(fs, Pick(cells, order)[j]).value)))
    decreases |order| - k
  {
    if k < |order| {
      PackRecordsEach(fs, order, cells, k + 1);
      assert Pick(cells, order)[k] == cells[order[k]];
    }
  }

  lemma {:induction false} UnpackRecordsEach(env: Env, fs: seq<Field>, es: seq<Elem>, i: nat, cells: seq<Cell>)
    requires |cells| == |es|
    requires forall j | 0 <= j < |es| ::
      && es[j].id == Number(i + j) && es[j].data.Nested? && es[j].data.typ.PodT?
      && cells[j].Record? && UnpackSlots(env, fs, es[j].data.elems) == Ok(cells[j].fields)
    ensures UnpackRecords(env, fs, es, i) == Ok(cells)
  {
    if es != [] {
      assert es[0].id == Number(i + 0);
      UnpackRecordsEach(env, fs, es[1..], i + 1, cells[1..]);
      assert cells == [Record(cells[0].fields)] + cells[1..];
    }
  }

  // ----- records

  ghost predicate CellReturns(env: Env, fs: seq<Field>, c: Cell) {
    var r := PackCell(fs, c);
    && (r.Ok? <==> CellFits(fs, c))
    && (r.Ok? ==> NormCell(fs, c).Record? && UnpackSlots(env, fs, r.value) == Ok(NormCell(fs, c).fields))
  }

  function NormCells(fs: seq<Field>, cells: seq<Cell>): seq<Cell> {
    seq(|cells|, i requires 0 <= i < |cells| => NormCell(fs, cells[i]))
  }

  /** Records come back in the order they were packed in. */
  ghost predicate RecordsReturn(env: Env, fs: seq<Field>, order: seq<nat>, cells: seq<Cell>)
    requires forall p | p in order :: p < |cells|
  {
    var picked := Pick(cells, order);
    var r := PackRecords(fs, order, cells, 0);
    && (r.Ok? <==> forall c | c in picked :: CellFits(fs, c))
    && (r.Ok? ==> |r.value| == |picked| && UnpackRecords(env, fs, r.value, 0) == Ok(NormCells(fs, picked)))
  }

  lemma RecordsFromCells(env: Env, fs: seq<Field>, order: seq<nat>, cells: seq<Cell>)
    requires forall p | p in order :: p < |cells|
    requires forall j | 0 <= j < |order| :: CellReturns(env, fs, Pick(cells, order)[j])
    ensures RecordsReturn(env, fs, order, cells)
  {
    hide PackCell, CellFits, NormCell, UnpackSlots, PackRecords, UnpackRecords;
    var picked := Pick(cells, order);
    PackRecordsEach(fs, order, cells, 0);
    AllFit(env, fs, picked);
    var r := PackRecords(fs, order, cells, 0);
    if r.Ok? {
      forall j | 0 <= j < |order|
        ensures r.value[j] == Elem(Number(0 + j), Nested(PodT, "", PackCell(fs, picked[j]).value))
        ensures CellReturns(env, fs, picked[j]) && PackCell(fs, picked[j]).Ok?
      {
        assert r.value[j] == r.value[j - 0];
      }
      UnpackRecordsEach(env, fs, r.value, 0, NormCells(fs, picked));
    }
  }

  lemma AllFit(env: Env, fs: seq<Field>, picked: seq<Cell>)
    requires forall j | 0 <= j < |picked| :: CellReturns(env, fs, picked[j])
    ensures (forall j | 0 <= j < |picked| :: PackCell(fs, picked[j]).Ok?) <==> forall c | c in picked :: CellFits(fs, c)
  {
    hide PackCell, CellFits, NormCell, UnpackSlots;
    if forall c | c in picked :: CellFits(fs, c) {
      forall j | 0 <= j < |picked| ensures PackCell(fs, picked[j]).Ok? {
        assert picked[j] in picked;
      }
    }
  }

  lemma {:induction false} RecordsRoundTrip(env: Env, fs: seq<Field>, order: seq<nat>, cells: seq<Cell>)
    requires PodOk(env, fs) && forall p | p in order :: p < |cells|
    requires forall c | c in cells :: CellOk(fs, c)
    ensures RecordsReturn(env, fs, order, cells)
    decreases cells
  {
    forall j | 0 <= j < |order|
      ensures CellReturns(env, fs, Pick(cells, order)[j])
    {
      assert order[j] in order && cells[order[j]] in cells;
      CellRoundTrip(env, fs, cells[order[j]]);
    }
    RecordsFromCells(env, fs, order, cells);
  }

  lemma {:induction false} CellRoundTrip(env: Env, fs: seq<Field>, c: Cell)
    requires PodOk(env, fs) && CellOk(fs, c)
    ensures CellReturns(env, fs, c)
    decreases c
  {
    forall i | 0 <= i < |fs|
      ensures SlotReturns(env, fs[i].typ, c.fields[i])
    {
      SlotRoundTrip(env, fs[i], c.fields[i]);
    }
    CellFromSlots(env, fs, c);
  }

  lemma CellFromSlots(env: Env, fs: seq<Field>, c: Cell)
    requires DistinctNames(fs) && c.Record? && |c.fields| == |fs|
    requires forall i | 0 <= i < |fs| :: SlotReturns(env, fs[i].typ, c.fields[i])
    ensures CellReturns(env, fs, c)
  {
    PackSlotsEach(fs, c.fields);
    var r := PackCell(fs, c);
    if r.Ok? {
      var slots := NormCell(fs, c).fields;
      forall i | 0 <= i < |fs| ensures SlotBack(env, fs[i].typ, r.value[i].data, slots[i]) {
        assert SlotReturns(env, fs[i].typ, c.fields[i]);
      }
      SlotsBack(env, fs, r.value, slots, 0);
      assert fs[0..] == fs && slots[0..] == slots;
    }
  }

  /** Unpacking `d` and storing it in a field of type `t` gives the slot `s`. */
  ghost predicate SlotBack(env: Env, t: TypeDef, d: Data, s: Slot) {
    var cells := UnpackSlotCells(env, t, d);
    cells.Ok? && StoreField(t, cells.value) == Ok(s)
  }

  ghost predicate SlotReturns(env: Env, t: TypeDef, s: Slot) {
    var r := PackSlot(t, s);
    && (r.Ok? <==> SlotFits(t, s))
    && (r.Ok? ==> SlotBack(env, t, r.value, NormSlot(t, s)))
  }

  lemma {:induction false} SlotsBack(env: Env, fs: seq<Field>, es: seq<Elem>, slots: seq<Slot>, i: nat)
    requires DistinctNames(fs) && NamedAs(es, fs) && |slots| == |fs| && i <= |fs|
    requires forall j | 0 <= j < |fs| :: SlotBack(env, fs[j].typ, es[j].data, slots[j])
    ensures UnpackSlots(env, fs[i..], es) == Ok(slots[i..])
    decreases |fs| - i
  {
    hide UnpackSlotCells, StoreField;
    if i < |fs| {
      FindNamed(es, fs, i);
      SlotsBack(env, fs, es, slots, i + 1);
      var rest := fs[i..];
      assert rest[0] == fs[i] && rest[1..] == fs[i + 1..];
      assert SlotBack(env, fs[i].typ, es[i].data, slots[i]);
      assert slots[i..] == [slots[i]] + slots[i + 1..];
    } else {
      assert fs[i..] == [] && slots[i..] == [];
    }
  }

  // ----- fields

  /** The cells of a field are what its type says. */
  lemma SlotCells(t: TypeDef, s: Slot)
    requires SlotOk(t, s)
    ensures t.base.Numeric? ==> forall c | c in s.cells :: c.NumCell? && NumOk(t.base.kind, c.x)
    ensures t.base.Named? && (t.base.def.Pod? || t.base.def.NamedArray?) ==>
      forall c | c in s.cells :: CellOk(t.base.def.fields, c)
  {
    forall c | c in s.cells
      ensures t.base.Numeric? ==> c.NumCell? && NumOk(t.base.kind, c.x)
      ensures t.base.Named? && (t.base.def.Pod? || t.base.def.NamedArray?) ==> CellOk(t.base.def.fields, c)
    {
      assert ElementOk(t.base, c);
    }
  }

  /** The part of `SlotOk` and `PodFieldOk` that concerns sizes. */
  predicate Sized(t: TypeDef, s: Slot) {
    && (t.arr.NotArray? ==> t.lengths == [])
    && (t.arr.Array? ==> |t.lengths| == 1)
    && (t.arr.MultiDim? ==> !t.varLength)
    && (if t.arr.Array? && t.varLength then s.Padded? && |s.cells| == t.lengths[0] && 0 <= s.len <= |s.cells|
        else s.Fixed? && s.shape == SlotShape(t) && |s.cells| == Product(s.shape))
  }

  /** The number of elements of a field, and why they fit its declared length. */
  lemma SlotSize(t: TypeDef, s: Slot)
    requires Sized(t, s)
    ensures var n := Product(SlotDims(t, s));
      && n == (if s.Padded? then s.len else |s.cells|)
      && CheckRecords(FlattenType(t), n).Ok? && RecordLimit(FlattenType(t), n)
      && CheckLength(FlattenType(t), n).Ok? && (t.arr.NotArray? ==> n == 1)
      && (!t.arr.MultiDim? ==> SlotDims(t, s) == [n])
  {
    ProductOne(1);
    if s.Padded? { ProductOne(s.len); }
    if t.arr.Array? {
      ProductOne(t.lengths[0]);
      assert t.lengths == [t.lengths[0]];
    } else {
      ProductOne(|s.cells|);
    }
  }

  lemma {:induction false} SlotRoundTrip(env: Env, f: Field, s: Slot)
    requires PodFieldOk(env, f) && SlotOk(f.typ, s)
    ensures SlotReturns(env, f.typ, s)
    decreases s
  {
    if s.Padded? ==> 0 <= s.len <= |s.cells| {
      SlotSize(f.typ, s);
      SlotCells(f.typ, s);
      match f.typ.base
      case Numeric(k) => NumericSlotRoundTrip(env, f.typ, s, k);
      case Named(NamedArray(q, fields)) => NamedSlotRoundTrip(env, f.typ, s, q, fields);
      case Named(Pod(q, fields)) =>
        RecordsRoundTrip(env, fields, FortranOrder(SlotDims(f.typ, s)), s.cells);
        PodSlotRoundTrip(env, f.typ, s, q, fields);
    }
  }

  /** Storing the elements that came back, in the order they were packed in. */
  lemma StorePacked(t: TypeDef, s: Slot, norm: seq<Cell>)
    requires Sized(t, s) && |norm| == Product(SlotDims(t, s))
    ensures StoreField(t, Flattened(SlotDims(t, s), norm)) ==
      Ok(if s.Padded? then Padded(s.len, Resize(norm, |s.cells|, ZeroCell(t.base))) else Fixed(s.shape, norm))
  {
    SlotSize(t, s);
    if t.arr.MultiDim? {
      ReorderInverse(t.lengths, norm);
    } else {
      OneDimensionalOrder(|norm|, norm);
    }
  }

  /** The records of a pod field: packed as they fit, and unpacked normalised. */
  lemma PodArrayRoundTrip(env: Env, t: TypeDef, q: string, fields: seq<Field>, dims: seq<nat>, cells: seq<Cell>)
    requires q in env.pods && env.pods[q] == fields && Product(dims) <= |cells|
    requires CheckRecords(t, Product(dims)).Ok? && RecordLimit(t, Product(dims))
             && (t.arr.NotArray? ==> Product(dims) == 1)
    requires RecordsReturn(env, fields, FortranOrder(dims), cells)
    ensures var d := PackPods(t, q, fields, dims, cells);
            var picked := Pick(cells, FortranOrder(dims));
            && (d.Ok? <==> forall c | c in picked :: CellFits(fields, c))
            && (d.Ok? ==>
                  UnpackPods(env, d.value, Just(t))
                  == Ok(NdArray(DNamed(q), [Product(dims)], NormCells(fields, picked))))
  {
    hide PackRecords, UnpackRecords, CellFits, NormCell, FortranOrder, NormCells;
  }

  lemma PodSlotRoundTrip(env: Env, t: TypeDef, s: Slot, q: string, fields: seq<Field>)
    requires Sized(t, s) && t.base == Named(Pod(q, fields)) && q in env.pods && env.pods[q] == fields
    requires Product(SlotDims(t, s)) <= |s.cells|
    requires RecordsReturn(env, fields, FortranOrder(SlotDims(t, s)), s.cells)
    ensures SlotReturns(env, t, s)
  {
    hide PackPods, UnpackPods, CellFits, NormCells, FortranOrder, Pick, NormElements, RecordsReturn, PackSlot,
         UnpackSlotCells, SlotFits, SlotDims, FlattenType, Flattened, Product;
    var dims := SlotDims(t, s);
    var n := Product(dims);
    SlotSize(t, s);
    PodArrayRoundTrip(env, FlattenType(t), q, fields, dims, s.cells);
    PickFirst(dims, s.cells);
    PodSlotFits(t, s, q, fields, n);
    PodSlotPacked(t, s, q, fields);
    var d := PackSlot(t, s);
    if d.Ok? {
      var norm := NormElements(t.base, s.cells, n);
      NormPods(t.base, fields, s.cells, n);
      NormFlattened(fields, dims, s.cells[..n]);
      StorePacked(t, s, norm);
      PodSlotUnpacked(env, t, d.value, q, fields, n, Flattened(dims, norm));
    }
  }

  lemma PodSlotPacked(t: TypeDef, s: Slot, q: string, fields: seq<Field>)
    requires Sized(t, s) && t.base == Named(Pod(q, fields))
    ensures PackSlot(t, s) == PackPods(FlattenType(t), q, fields, SlotDims(t, s), s.cells)
  {
    hide PackPods, SlotDims, FlattenType;
  }

  lemma PodSlotUnpacked(env: Env, t: TypeDef, d: Data, q: string, fields: seq<Field>, n: nat, cells: seq<Cell>)
    requires t.base == Named(Pod(q, fields))
    requires UnpackPods(env, d, Just(FlattenType(t))) == Ok(NdArray(DNamed(q), [n], cells))
    ensures UnpackSlotCells(env, t, d) == Ok(cells)
  {
    hide UnpackPods, FlattenType;
  }

  lemma PodSlotFits(t: TypeDef, s: Slot, q: string, fields: seq<Field>, n: nat)
    requires Sized(t, s) && t.base == Named(Pod(q, fields)) && n == (if s.Padded? then s.len else |s.cells|)
    requires n <= |s.cells|
    ensures SlotFits(t, s) <==> forall c | c in s.cells[..n] :: CellFits(fields, c)
  {
    hide CellFits;
    assert forall j | 0 <= j < n :: s.cells[..n][j] == s.cells[j];
    assert forall j | 0 <= j < n :: ElementFits(t.base, s.cells[j]) <==> CellFits(fields, s.cells[..n][j]);
  }

  lemma NormPods(b: Base, fs: seq<Field>, cells: seq<Cell>, n: nat)
    requires n <= |cells| && b.Named? && b.def.Pod? && b.def.fields == fs
    ensures NormElements(b, cells, n) == NormCells(fs, cells[..n])
  {
    hide NormCell;
    forall i | 0 <= i < n ensures NormElement(b, cells[i]) == NormCell(fs, cells[..n][i]) {
    }
  }

  /** Picking by the column-major order of `dims` takes exactly the first elements, flattened. */
  lemma PickFirst(dims: seq<nat>, cells: seq<Cell>)
    requires Product(dims) <= |cells|
    ensures var picked := Pick(cells, FortranOrder(dims)); var n := Product(dims);
      && picked == Flattened(dims, cells[..n])
      && forall c :: c in picked <==> c in cells[..n]
  {
    var order, n := FortranOrder(dims), Product(dims);
    assert Pick(cells, order) == Pick(cells[..n], order);
    PickFlattens(dims, cells[..n]);
    FortranOrderCovers(dims);
    forall c | c in cells[..n] ensures c in Pick(cells, order) {
      var p :| 0 <= p < n && cells[p] == c;
      assert p in order;
      var k :| 0 <= k < |order| && order[k] == p;
      assert Pick(cells, order)[k] == c;
    }
  }

  /** Normalising records and flattening their array commute. */
  lemma NormFlattened(fs: seq<Field>, shape: seq<nat>, cells: seq<Cell>)
    requires |cells| == Product(shape)
    ensures NormCells(fs, Flattened(shape, cells)) == Flattened(shape, NormCells(fs, cells))
  {
  }

  /** Elements other than pods come back as they are. */
  lemma NormPlain(b: Base, cells: seq<Cell>, n: nat)
    requires n <= |cells| && !(b.Named? && b.def.Pod?)
    ensures NormElements(b, cells, n) == cells[..n]
  {
    forall i | 0 <= i < n ensures NormElement(b, cells[i]) == cells[i] {
    }
  }

  lemma NumericSlotRoundTrip(env: Env, t: TypeDef, s: Slot, k: Kind)
    requires Sized(t, s) && t.base == Numeric(k)
    requires forall c | c in s.cells :: c.NumCell? && NumOk(k, c.x)
    ensures SlotReturns(env, t, s)
  {
    var dims := SlotDims(t, s);
    var n := Product(dims);
    SlotSize(t, s);
    var norm := NormElements(t.base, s.cells, n);
    NormPlain(t.base, s.cells, n);
    if t.arr.NotArray? {
      assert s.cells[0] in s.cells;
      ScalarConverts(k, s.cells[0].x);
      OneDimensionalOrder(1, norm);
    } else {
      FlatNumbers(t, dims, norm, k);
      CellNumsInverse(Flattened(dims, norm));
    }
    if PackSlot(t, s).Ok? {
      assert NumCells(PackSlot(t, s).value.xs) == Flattened(dims, norm);
      StorePacked(t, s, norm);
    }
  }

  /** A numeric array field is one flat numpy array of its own kind. */
  lemma FlatNumbers(t: TypeDef, dims: seq<nat>, cells: seq<Cell>, k: Kind)
    requires !t.arr.NotArray? && |cells| == Product(dims)
    requires if t.arr.MultiDim? then true else dims == [|cells|]
    ensures PackNumericSlot(t, dims, cells, k) == Ok(CellNums(Flattened(dims, cells)))
  {
    hide PackSequence;
    if !t.arr.MultiDim? {
      OneDimensionalOrder(|cells|, cells);
    }
  }

  lemma CellNumsInverse(cells: seq<Cell>)
    requires forall c | c in cells :: c.NumCell?
    ensures NumCells(CellNums(cells)) == cells
  {
  }

  /** A numpy scalar of the field's own kind converts to itself, unless it is a bool. */
  lemma ScalarConverts(k: Kind, x: Num)
    requires NumOk(k, x)
    ensures Convert(k, NpScalar(k, x)) == if k.Bool? then Nothing else Just(x)
  {
  }

  lemma NamedSlotRoundTrip(env: Env, t: TypeDef, s: Slot, q: string, fields: seq<Field>)
    requires Sized(t, s) && t.base == Named(NamedArray(q, fields)) && NamedDefOk(env, q, fields)
    requires forall c | c in s.cells :: CellOk(fields, c)
    ensures SlotReturns(env, t, s)
  {
    hide PackNamedArray, UnpackNamedArray, PackPods, UnpackPods, PackNumericSlot, NumberCells, NormElements, Resize,
         NamedDefOk, StoreField, ToColumnMajor, FromColumnMajor, CellOk;
    var dims := SlotDims(t, s);
    var n := Product(dims);
    SlotSize(t, s);
    var cells := s.cells[..n];
    assert forall c | c in cells :: c in s.cells && CellOk(fields, c);
    NamedArrayRoundTrip(env, FlattenType(t), q, fields, dims, cells, Just(FlattenType(t)));
    NormPlain(t.base, s.cells, n);
    StorePacked(t, s, cells);
    assert PackSlot(t, s) == PackNamedArray(FlattenType(t), q, fields, dims, cells);
    assert SlotFits(t, s);
    var d := PackSlot(t, s).value;
    assert UnpackNamedArray(env, d, Just(FlattenType(t))) == Ok(NdArray(DNamed(q), [n], ToColumnMajor(dims, cells)));
    assert UnpackSlotCells(env, t, d) == Ok(ToColumnMajor(dims, cells));
    assert StoreField(t, ToColumnMajor(dims, cells)) == Ok(NormSlot(t, s));
  }

  /** Named arrays travel as their numbers and come back as the same records, in column-major order. */
  lemma NamedArrayRoundTrip(env: Env, t: TypeDef, q: string, fs: seq<Field>, shape: seq<nat>, cells: seq<Cell>,
                            t2: Option<TypeDef>)
    requires NamedDefOk(env, q, fs) && |cells| == Product(shape)
    requires forall c | c in cells :: CellOk(fs, c)
    ensures var d := PackNamedArray(t, q, fs, shape, cells);
      && (d.Ok? <==> CheckRecords(t, |cells|).Ok?)
      && (d.Ok? ==>
            UnpackNamedArray(env, d.value, t2) ==
              if CheckUnpackedRecords(t2, |cells|).Ok?
              then Ok(NdArray(DNamed(q), [|cells|], ToColumnMajor(shape, cells)))
              else Fail(DataTypeError))
  {
    var k := ElementKind(fs);
    var ordered := ToColumnMajor(shape, cells);
    FlattenAllUnflatten(fs, k, ordered);
    LemmaDivModUnique(|cells| * Count(fs), Count(fs), |cells|, 0);
  }
}
