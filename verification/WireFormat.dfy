/** The message format, said apart from the packer: which data stands for which value of which type. */
module WireFormat {
  import opened ColumnMajor
  import opened Types
  import opened Packing
  import opened Unpacking
  import opened PodRoundTrip
  import opened Containers
  import opened NumberMeaning

  // ----- arrays

  /** `out` lists an array given in row-major order with the first index varying fastest. */
  ghost predicate FirstIndexFastest<T>(shape: seq<nat>, cells: seq<T>, out: seq<T>) {
    && |out| == |cells| == Product(shape)
    && forall idx | InBounds(shape, idx) && ColumnIndex(shape, idx) < |out| && RowIndex(shape, idx) < |cells| ::
         out[ColumnIndex(shape, idx)] == cells[RowIndex(shape, idx)]
  }

  lemma FlattenedIsListing<T>(shape: seq<nat>, cells: seq<T>)
    requires |cells| == Product(shape)
    ensures FirstIndexFastest(shape, cells, Flattened(shape, cells))
  {
    var out := Flattened(shape, cells);
    forall idx | InBounds(shape, idx) && ColumnIndex(shape, idx) < |out| && RowIndex(shape, idx) < |cells|
      ensures out[ColumnIndex(shape, idx)] == cells[RowIndex(shape, idx)]
    {
      ColumnIndexInverse(shape, idx);
      assert out[ColumnIndex(shape, idx)] == cells[RowPosition(shape, ColumnIndex(shape, idx))];
    }
  }

  // ----- records

  /** The dimensions a field's elements are listed by: the used length of a variable-length field. */
  function UsedDims(t: TypeDef, s: Slot): seq<nat> {
    match s
    case Padded(len, _) => if len < 0 then [0] else [len]
    case Fixed(shape, _) => if t.arr.NotArray? then [1] else shape
  }

  /** The elements of a field that are in use. */
  function Used(t: TypeDef, s: Slot): seq<Cell> {
    var n := Product(UsedDims(t, s));
    if n <= |s.cells| then s.cells[..n] else s.cells
  }

  /** A pod record is an element list without a name, one named element per field in the order of the
      definition. */
  ghost predicate RecordEncoded(fs: seq<Field>, c: Cell, d: Data)
    decreases c
  {
    && c.Record? && |c.fields| == |fs|
    && d.Nested? && d.typ.PodT? && d.typeName == "" && |d.elems| == |fs|
    && forall i | 0 <= i < |fs| ::
         d.elems[i].id == Name(fs[i].name) && SlotEncoded(fs[i].typ, c.fields[i], d.elems[i].data)
  }

  /** A field is an array of its used elements, whatever its type says. */
  ghost predicate SlotEncoded(t: TypeDef, s: Slot, d: Data)
    decreases s
  {
    var dims := UsedDims(t, s);
    match t.base
    case Numeric(k) =>
      d.Nums? && d.kind == k && FirstIndexFastest(dims, CellNums(Used(t, s)), d.xs)
    case Named(Pod(q, fields)) => PodsEncoded(q, fields, dims, s.cells, d)
    case Named(NamedArray(q, fields)) => NamedNumbers(q, fields, dims, Used(t, s), d)
    case _ => false
  }

  /** An array of named-array records is one array of numbers under the name `array`: the numbers of each
      record together, the records listed with the first index varying fastest. */
  ghost predicate NamedNumbers(q: string, fs: seq<Field>, dims: seq<nat>, cells: seq<Cell>, d: Data) {
    && d.Nested? && d.typ.NamedArrayT? && d.typeName == q && |d.elems| == 1 && d.elems[0].id == Name("array")
    && d.elems[0].data.Nums? && d.elems[0].data.kind == ElementKind(fs)
    && exists order: seq<Cell> :: FirstIndexFastest(dims, cells, order) && d.elems[0].data.xs == FlattenCells(order)
  }

  /** An array of pods: its records, numbered. */
  ghost predicate PodsEncoded(q: string, fs: seq<Field>, dims: seq<nat>, cells: seq<Cell>, d: Data)
    decreases cells
  {
    && d.Nested? && d.typ.PodArrayT? && d.typeName == q && |d.elems| == Product(dims)
    && forall idx | InBounds(dims, idx) && ColumnIndex(dims, idx) < |d.elems| && RowIndex(dims, idx) < |cells| ::
         d.elems[ColumnIndex(dims, idx)].id == Number(ColumnIndex(dims, idx))
         && RecordEncoded(fs, cells[RowIndex(dims, idx)], d.elems[ColumnIndex(dims, idx)].data)
  }

  lemma NumbersAreListed(dims: seq<nat>, cells: seq<Cell>)
    requires |cells| == Product(dims)
    ensures FirstIndexFastest(dims, CellNums(cells), CellNums(Flattened(dims, cells)))
  {
    assert CellNums(Flattened(dims, cells)) == Flattened(dims, CellNums(cells));
    FlattenedIsListing(dims, CellNums(cells));
  }

  lemma UsedIsPacked(t: TypeDef, s: Slot)
    requires Sized(t, s)
    ensures UsedDims(t, s) == SlotDims(t, s)
    ensures var n := Product(SlotDims(t, s)); n <= |s.cells| && |Used(t, s)| == n && Used(t, s) == s.cells[..n]
  {
    SlotSize(t, s);
  }

  lemma NumericSlotIsEncoded(t: TypeDef, s: Slot, k: Kind)
    requires Sized(t, s) && t.base == Numeric(k) && (forall c | c in s.cells :: c.NumCell? && NumOk(k, c.x))
    requires PackSlot(t, s).Ok?
    ensures SlotEncoded(t, s, PackSlot(t, s).value)
  {
    hide FirstIndexFastest, Flattened, Product, PackSequence, Convert;
    var dims, used := SlotDims(t, s), Used(t, s);
    SlotSize(t, s);
    UsedIsPacked(t, s);
    NumbersAreListed(dims, used);
    if t.arr.NotArray? {
      assert s.cells[0] in s.cells;
      ScalarSlotPacked(t, s, k);
      OneDimensionalOrder(1, used);
    } else {
      FlatNumbers(t, dims, used, k);
    }
  }

  lemma ScalarSlotPacked(t: TypeDef, s: Slot, k: Kind)
    requires Sized(t, s) && t.base == Numeric(k) && t.arr.NotArray? && |s.cells| == 1
    requires s.cells[0].NumCell? && NumOk(k, s.cells[0].x) && PackSlot(t, s).Ok?
    ensures PackSlot(t, s).value == Nums(k, [s.cells[0].x]) && Flattened([1], Used(t, s)) == Used(t, s)
    ensures CellNums(Used(t, s)) == [s.cells[0].x]
  {
    var v := NpScalar(k, s.cells[0].x);
    ScalarConverts(k, s.cells[0].x);
    ProductOne(1);
    OneDimensionalOrder(1, Used(t, s));
    assert [v][0] == v;
    hide Convert;
    assert PackNumbers(v, FlattenType(t), k) == PackSequence([v], FlattenType(t), k);
  }

  lemma PodsFromRecords(t: TypeDef, q: string, fs: seq<Field>, dims: seq<nat>, cells: seq<Cell>)
    requires PackPods(t, q, fs, dims, cells).Ok?
    requires forall i | 0 <= i < |cells| ::
      PackCell(fs, cells[i]).Ok? ==> RecordEncoded(fs, cells[i], Nested(PodT, "", PackCell(fs, cells[i]).value))
    ensures PodsEncoded(q, fs, dims, cells, PackPods(t, q, fs, dims, cells).value)
  {
    hide RecordEncoded, PackCell;
    var order := FortranOrder(dims);
    PackRecordsEach(fs, order, cells, 0);
    var es := PackRecords(fs, order, cells, 0).value;
    forall idx | InBounds(dims, idx) && ColumnIndex(dims, idx) < |es| && RowIndex(dims, idx) < |cells|
      ensures es[ColumnIndex(dims, idx)].id == Number(ColumnIndex(dims, idx))
      ensures RecordEncoded(fs, cells[RowIndex(dims, idx)], es[ColumnIndex(dims, idx)].data)
    {
      var j := ColumnIndex(dims, idx);
      ColumnIndexInverse(dims, idx);
      assert order[j] == RowPosition(dims, j) == RowIndex(dims, idx);
      assert es[j - 0] == Elem(Number(j), Nested(PodT, "", PackCell(fs, Pick(cells, order)[j]).value));
    }
  }

  lemma {:induction false} PodsAreEncoded(env: Env, t: TypeDef, q: string, fs: seq<Field>, dims: seq<nat>,
                                          cells: seq<Cell>)
    requires PodOk(env, fs) && (forall c | c in cells :: CellOk(fs, c)) && PackPods(t, q, fs, dims, cells).Ok?
    ensures PodsEncoded(q, fs, dims, cells, PackPods(t, q, fs, dims, cells).value)
    decreases cells
  {
    hide PackPods, PackCell, RecordEncoded, PodsEncoded, CellOk, PodOk;
    forall i | 0 <= i < |cells| && PackCell(fs, cells[i]).Ok?
      ensures RecordEncoded(fs, cells[i], Nested(PodT, "", PackCell(fs, cells[i]).value))
    {
      assert cells[i] in cells;
      RecordIsEncoded(env, fs, cells[i]);
    }
    PodsFromRecords(t, q, fs, dims, cells);
  }

  lemma {:induction false} RecordIsEncoded(env: Env, fs: seq<Field>, c: Cell)
    requires PodOk(env, fs) && CellOk(fs, c) && PackCell(fs, c).Ok?
    ensures RecordEncoded(fs, c, Nested(PodT, "", PackCell(fs, c).value))
    decreases c
  {
    hide PackSlot, SlotEncoded, SlotOk, PodFieldOk;
    PackSlotsEach(fs, c.fields);
    forall i | 0 <= i < |fs|
      ensures SlotEncoded(fs[i].typ, c.fields[i], PackSlot(fs[i].typ, c.fields[i]).value)
    {
      assert fs[i] in fs;
      SlotIsEncoded(env, fs[i], c.fields[i]);
    }
  }

  lemma {:induction false} SlotIsEncoded(env: Env, f: Field, s: Slot)
    requires PodFieldOk(env, f) && SlotOk(f.typ, s) && PackSlot(f.typ, s).Ok?
    ensures SlotEncoded(f.typ, s, PackSlot(f.typ, s).value)
    decreases s
  {
    hide PackSlot, SlotEncoded, PackPods, PackNumericSlot, PackNamedArray, PodsEncoded, CellOk, NamedDefOk, PodOk;
    SlotsUsedFit(f.typ, s);
    SlotSize(f.typ, s);
    SlotCells(f.typ, s);
    match f.typ.base
    case Numeric(k) => NumericSlotIsEncoded(f.typ, s, k);
    case Named(NamedArray(q, fields)) => NamedSlotIsEncoded(f.typ, s, q, fields);
    case Named(Pod(q, fields)) =>
      PodSlotPacked(f.typ, s, q, fields);
      PodsAreEncoded(env, FlattenType(f.typ), q, fields, SlotDims(f.typ, s), s.cells);
      PodSlotEncoded(f.typ, s, q, fields);
  }

  lemma SlotsUsedFit(t: TypeDef, s: Slot)
    requires PackSlot(t, s).Ok?
    ensures s.Padded? ==> 0 <= s.len <= |s.cells|
  {
    hide PackNumericSlot, PackPods, PackNamedArray;
  }

  lemma PodSlotEncoded(t: TypeDef, s: Slot, q: string, fields: seq<Field>)
    requires t.base == Named(Pod(q, fields)) && PackSlot(t, s).Ok?
    requires PodsEncoded(q, fields, SlotDims(t, s), s.cells, PackSlot(t, s).value)
    ensures SlotEncoded(t, s, PackSlot(t, s).value)
  {
    hide PackSlot, PodsEncoded;
  }

  lemma NamedNumbersPacked(t: TypeDef, q: string, fields: seq<Field>, dims: seq<nat>, cells: seq<Cell>)
    requires |cells| == Product(dims) && PackNamedArray(t, q, fields, dims, cells).Ok?
    ensures NamedNumbers(q, fields, dims, cells, PackNamedArray(t, q, fields, dims, cells).value)
  {
    hide FirstIndexFastest, Flattened, FlattenCells;
    FlattenedIsListing(dims, cells);
  }

  lemma NamedSlotIsEncoded(t: TypeDef, s: Slot, q: string, fields: seq<Field>)
    requires Sized(t, s) && t.base == Named(NamedArray(q, fields)) && PackSlot(t, s).Ok?
    ensures SlotEncoded(t, s, PackSlot(t, s).value)
  {
    hide NamedNumbers, PackNamedArray, Product;
    UsedIsPacked(t, s);
    NamedNumbersPacked(FlattenType(t), q, fields, SlotDims(t, s), Used(t, s));
  }
}
