/** The two back ends and the Python packer lay a named array out alike. */
module NamedArrayLayouts {
  import opened ColumnMajor
  import opened Types
  import opened Packing
  import opened Unpacking
  import opened Layout
  import Java = JavaNamedArray
  import CSharp = CSharpNamedArray

  /** The C# struct with the field values of a record, each array at the length the record has. */
  function StructOf(fs: seq<Field>, slots: seq<Slot>): CSharp.CsStruct
    requires |slots| == |fs|
    decreases slots, 1
  {
    CSharp.CsStruct(FieldsOf(fs, slots))
  }

  function FieldsOf(fs: seq<Field>, slots: seq<Slot>): (vs: seq<CSharp.CsField>)
    requires |slots| == |fs|
    ensures |vs| == |fs|
    decreases slots, 0
  {
    if fs == [] then [] else [FieldOf(fs[0], slots[0])] + FieldsOf(fs[1..], slots[1..])
  }

  function FieldOf(f: Field, s: Slot): CSharp.CsField
    decreases s
  {
    match f.typ.base
    case Named(NamedArray(_, def)) =>
      var ss := StructsOf(def, s.cells);
      if f.typ.arr.NotArray? && ss != [] then CSharp.StructValue(ss[0]) else CSharp.StructArray(Just(ss))
    case _ =>
      if f.typ.arr.NotArray? && s.cells != [] then CSharp.Value(CellNum(s.cells[0]))
      else CSharp.ValueArray(Just(CellNums(s.cells)))
  }

  function StructsOf(def: seq<Field>, cells: seq<Cell>): (ss: seq<CSharp.CsStruct>)
    ensures |ss| == |cells|
    decreases cells
  {
    if cells == [] then []
    else
      var s := if cells[0].Record? && |cells[0].fields| == |def| then StructOf(def, cells[0].fields)
               else CSharp.CsStruct([]);
      [s] + StructsOf(def, cells[1..])
  }

  /** The struct `xs` lays out holds the values of the record `xs` lays out. */
  lemma {:induction false} SameStruct(fs: seq<Field>, xs: seq<Num>)
    requires |xs| == Count(fs)
    ensures |UnflattenSlots(fs, xs)| == |fs|
    ensures StructOf(fs, UnflattenSlots(fs, xs)) == CSharp.StructFrom(fs, xs)
    decreases fs, 1, 0
  {
    if fs != [] {
      var n := FieldCount(fs[0]);
      SameField(fs[0], xs[..n]);
      SameStruct(fs[1..], xs[n..]);
    }
  }

  lemma {:induction false} SameField(f: Field, xs: seq<Num>)
    requires |xs| == FieldCount(f)
    ensures FieldOf(f, UnflattenField(f, xs)) == CSharp.FieldFrom(f, xs)
    decreases f, 0, 0
  {
    match f.typ.base
    case Named(NamedArray(_, def)) =>
      SameStructs(def, Multiplicity(f.typ), xs);
      if f.typ.arr.NotArray? {
        assert xs[..Count(def)] == xs;
        CSharp.StructsFromCons(def, 1, xs);
      }
    case _ => assert CellNums(NumCells(xs)) == xs;
  }

  lemma {:induction false} SameStructs(def: seq<Field>, n: nat, xs: seq<Num>)
    requires |xs| == n * Count(def)
    ensures StructsOf(def, UnflattenAll(def, n, xs)) == CSharp.StructsFrom(def, n, xs)
    decreases def, 2, n
  {
    if n > 0 {
      UnflattenAllCons(def, n, xs);
      CSharp.StructsFromCons(def, n, xs);
      SameStruct(def, xs[..Count(def)]);
      SameStructs(def, n - 1, xs[Count(def)..]);
    }
  }

  /** Whatever a record holds, the Java object and the C# struct with its values write the same numbers to
      the same places: those the Python packer sends for it. */
  lemma SameNumbers(fs: seq<Field>, k: Kind, c: Cell, data: seq<Num>, offset: nat)
    requires CSharp.FieldsOk(fs, k) && CellOk(fs, c) && offset + Count(fs) <= |data|
    ensures |FlattenCell(c)| == Count(fs)
    ensures var after := CSharp.Splice(data, offset, FlattenCell(c));
            var java := Java.Get(Java.Code(fs, 0, 0), c.fields, Java.Buffer(data, []), offset);
            var segment, before := CSharp.Seg(offset, Count(fs)), CSharp.State(data, [], Nothing);
            var csharp := CSharp.Get(CSharp.ProgramFor(fs), StructOf(fs, c.fields), segment, before);
            && java.Done? && java.value.data == after
            && csharp.error.Nothing? && csharp.data == after
  {
    FlattenUnflatten(fs, k, c);
    SameStruct(fs, FlattenCell(c));
    Java.GetWrites(fs, k, c, Java.Buffer(data, []), offset);
    CSharp.GetWrites(fs, k, FlattenCell(c), CSharp.Seg(offset, Count(fs)), CSharp.State(data, [], Nothing));
  }

  /** Reading the same numbers, the two back ends and the Python unpacker end with the same values. */
  lemma SameValues(fs: seq<Field>, k: Kind, c: Cell, s: CSharp.CsStruct, data: seq<Num>, offset: nat)
    requires CSharp.FieldsOk(fs, k) && CellOk(fs, c) && CSharp.Allocated(fs, s) && offset + Count(fs) <= |data|
    ensures var slots := UnflattenSlots(fs, data[offset..offset + Count(fs)]);
            && |slots| == |fs|
            && Java.Assign(Java.Code(fs, 0, 0), c.fields, data, offset) == Java.Done(slots)
            && CSharp.Assign(CSharp.ProgramFor(fs), s, CSharp.Seg(offset, Count(fs)), data, []).value
              == StructOf(fs, slots)
  {
    SameStruct(fs, data[offset..offset + Count(fs)]);
    Java.AssignReads(fs, k, c, data, offset);
    CSharp.AssignReads(fs, k, s, CSharp.Seg(offset, Count(fs)), data, []);
  }
}
