/** The memory layout of named arrays: writing a record as consecutive numbers and reading it back. */
module Layout {
  import opened ColumnMajor
  import opened Types
  import opened Packing
  import opened Unpacking

  /** The numbers of a record fill exactly the element count of its definition, are all of its
      element kind, and determine the record. */
  lemma {:induction false} FlattenUnflatten(fs: seq<Field>, k: Kind, c: Cell)
    requires forall f | f in fs :: NamedArrayFieldOk(f, k)
    requires CellOk(fs, c)
    ensures |FlattenCell(c)| == Count(fs) && NumsOk(k, FlattenCell(c))
    ensures Unflatten(fs, FlattenCell(c)) == c
    decreases c, 1
  {
    FlattenSlotsUnflatten(fs, k, c.fields);
  }

  lemma {:induction false} FlattenSlotsUnflatten(fs: seq<Field>, k: Kind, slots: seq<Slot>)
    requires forall f | f in fs :: NamedArrayFieldOk(f, k)
    requires |slots| == |fs| && forall i | 0 <= i < |fs| :: SlotOk(fs[i].typ, slots[i])
    ensures |FlattenSlots(slots)| == Count(fs) && NumsOk(k, FlattenSlots(slots))
    ensures UnflattenSlots(fs, FlattenSlots(slots)) == slots
    decreases slots, 0
  {
    if fs != [] {
      var f, s := fs[0], slots[0];
      FlattenFieldUnflatten(f, k, s);
      FlattenSlotsUnflatten(fs[1..], k, slots[1..]);
      var xs := FlattenSlots(slots);
      assert xs == FlattenCells(s.cells) + FlattenSlots(slots[1..]);
      assert xs[..FieldCount(f)] == FlattenCells(s.cells);
      assert xs[FieldCount(f)..] == FlattenSlots(slots[1..]);
    }
  }

  lemma {:induction false} FlattenFieldUnflatten(f: Field, k: Kind, s: Slot)
    requires NamedArrayFieldOk(f, k) && SlotOk(f.typ, s)
    ensures |FlattenCells(s.cells)| == FieldCount(f) && NumsOk(k, FlattenCells(s.cells))
    ensures UnflattenField(f, FlattenCells(s.cells)) == s
    decreases s
  {
    var m := Multiplicity(f.typ);
    assert |s.cells| == m;
    match f.typ.base
    case Named(NamedArray(_, fields)) =>
      assert forall c | c in s.cells :: ElementOk(f.typ.base, c);
      FlattenAllUnflatten(fields, k, s.cells);
    case Numeric(_) =>
      assert forall c | c in s.cells :: ElementOk(f.typ.base, c);
      FlattenNumbers(k, s.cells);
  }

  lemma {:induction false} FlattenNumbers(k: Kind, cells: seq<Cell>)
    requires forall c | c in cells :: c.NumCell? && NumOk(k, c.x)
    ensures |FlattenCells(cells)| == |cells| && NumsOk(k, FlattenCells(cells))
    ensures NumCells(FlattenCells(cells)) == cells
  {
    if cells != [] {
      FlattenNumbers(k, cells[1..]);
      assert FlattenCells(cells) == [cells[0].x] + FlattenCells(cells[1..]);
      assert cells == [cells[0]] + cells[1..];
    }
  }

  lemma OneMore(n: nat, c: nat)
    requires n > 0
    ensures n * c == c + (n - 1) * c
  {
  }

  lemma FlattenCellsCons(cells: seq<Cell>)
    requires cells != []
    ensures FlattenCells(cells) == FlattenCell(cells[0]) + FlattenCells(cells[1..])
  {
  }

  lemma UnflattenAllCons(fs: seq<Field>, n: nat, xs: seq<Num>)
    requires n > 0 && |xs| == n * Count(fs)
    ensures Count(fs) <= |xs| && |xs| - Count(fs) == (n - 1) * Count(fs)
    ensures UnflattenAll(fs, n, xs) == [Unflatten(fs, xs[..Count(fs)])] + UnflattenAll(fs, n - 1, xs[Count(fs)..])
  {
    hide Unflatten, Count;
    OneMore(n, Count(fs));
    MulMonotone(Count(fs), 1, n);
  }

  lemma {:induction false} FlattenAllUnflatten(fs: seq<Field>, k: Kind, cells: seq<Cell>)
    requires forall f | f in fs :: NamedArrayFieldOk(f, k)
    requires forall c | c in cells :: CellOk(fs, c)
    ensures |FlattenCells(cells)| == |cells| * Count(fs) && NumsOk(k, FlattenCells(cells))
    ensures UnflattenAll(fs, |cells|, FlattenCells(cells)) == cells
    decreases cells, 0
  {
    if cells != [] {
      hide FlattenCell, FlattenCells, Unflatten, UnflattenAll, Count, NamedArrayFieldOk, CellOk;
      var c, n := Count(fs), |cells|;
      FlattenUnflatten(fs, k, cells[0]);
      FlattenAllUnflatten(fs, k, cells[1..]);
      FlattenCellsCons(cells);
      OneMore(n, c);
      var head, rest := FlattenCell(cells[0]), FlattenCells(cells[1..]);
      assert (head + rest)[..c] == head && (head + rest)[c..] == rest;
      UnflattenAllCons(fs, n, head + rest);
    }
  }

  /** The converse: any numbers of the right count and kind are those of the record read from them. */
  lemma {:induction false} UnflattenFlatten(fs: seq<Field>, k: Kind, xs: seq<Num>)
    requires (forall f | f in fs :: NamedArrayFieldOk(f, k)) && |xs| == Count(fs) && NumsOk(k, xs)
    ensures CellOk(fs, Unflatten(fs, xs)) && FlattenCell(Unflatten(fs, xs)) == xs
    decreases fs, 1, 0
  {
    UnflattenSlotsFlatten(fs, k, xs);
  }

  lemma {:induction false} UnflattenSlotsFlatten(fs: seq<Field>, k: Kind, xs: seq<Num>)
    requires (forall f | f in fs :: NamedArrayFieldOk(f, k)) && |xs| == Count(fs) && NumsOk(k, xs)
    ensures var slots := UnflattenSlots(fs, xs);
            && |slots| == |fs| && (forall i | 0 <= i < |fs| :: SlotOk(fs[i].typ, slots[i]))
            && FlattenSlots(slots) == xs
    decreases fs, 0, 0
  {
    hide NamedArrayFieldOk, SlotOk, FlattenCells, UnflattenField;
    if fs != [] {
      var n := FieldCount(fs[0]);
      UnflattenFieldFlatten(fs[0], k, xs[..n]);
      UnflattenSlotsFlatten(fs[1..], k, xs[n..]);
      assert xs == xs[..n] + xs[n..];
      var slots, rest := UnflattenSlots(fs, xs), UnflattenSlots(fs[1..], xs[n..]);
      assert slots == [UnflattenField(fs[0], xs[..n])] + rest;
      assert slots[1..] == rest;
    }
  }

  lemma {:induction false} UnflattenFieldFlatten(f: Field, k: Kind, xs: seq<Num>)
    requires NamedArrayFieldOk(f, k) && |xs| == FieldCount(f) && NumsOk(k, xs)
    ensures var s := UnflattenField(f, xs); SlotOk(f.typ, s) && FlattenCells(s.cells) == xs
    decreases f, 0, 0
  {
    match f.typ.base
    case Named(NamedArray(_, fields)) =>
      UnflattenAllFlatten(fields, k, Multiplicity(f.typ), xs);
    case Numeric(_) =>
      NumbersFlatten(xs);
      assert forall i | 0 <= i < |xs| :: NumCells(xs)[i] == NumCell(xs[i]) && xs[i] in xs;
  }

  lemma {:induction false} NumbersFlatten(xs: seq<Num>)
    ensures FlattenCells(NumCells(xs)) == xs
  {
    if xs != [] {
      NumbersFlatten(xs[1..]);
      assert NumCells(xs)[1..] == NumCells(xs[1..]);
      assert xs == [xs[0]] + xs[1..];
    }
  }

  lemma {:induction false} UnflattenAllFlatten(fs: seq<Field>, k: Kind, n: nat, xs: seq<Num>)
    requires (forall f | f in fs :: NamedArrayFieldOk(f, k)) && |xs| == n * Count(fs) && NumsOk(k, xs)
    ensures forall c | c in UnflattenAll(fs, n, xs) :: CellOk(fs, c)
    ensures FlattenCells(UnflattenAll(fs, n, xs)) == xs
    decreases fs, 2, n
  {
    if n > 0 {
      var c := Count(fs);
      assert (n - 1) * c == n * c - c && n * c >= c by { MulMonotone(c, 1, n); }
      UnflattenFlatten(fs, k, xs[..c]);
      UnflattenAllFlatten(fs, k, n - 1, xs[c..]);
      assert xs == xs[..c] + xs[c..];
    }
  }
}
