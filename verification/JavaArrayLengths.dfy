/** The emitted Java methods on objects whose arrays have other than the declared lengths, or are null.
    The generated fields are public, and nothing checks them. */
module JavaArrayLengths {
  import opened ColumnMajor
  import opened Types
  import opened Layout
  import opened JavaNamedArray

  /** What the class declares: one slot per member, one number for a number member, at most one object,
      none for null, for an object member. The lengths of arrays are open. */
  predicate Typed(fs: seq<Field>, obj: seq<Slot>)
    decreases fs, 0
  {
    |obj| == |fs| && forall i | 0 <= i < |fs| :: TypedSlot(fs[i], obj[i])
  }

  predicate TypedSlot(f: Field, s: Slot)
    decreases f, 0
  {
    match f.typ.base
    case Named(NamedArray(_, def)) =>
      && (f.typ.arr.NotArray? ==> |s.cells| <= 1)
      && forall c | c in s.cells && c.Record? :: Typed(def, c.fields)
    case _ => f.typ.arr.NotArray? ==> |s.cells| == 1
  }

  /** No number array is shorter than declared, no object null, all the way down. */
  predicate Complete(fs: seq<Field>, obj: seq<Slot>)
    decreases fs, 0
  {
    fs == [] || (obj != [] && CompleteSlot(fs[0], obj[0]) && Complete(fs[1..], obj[1..]))
  }

  predicate CompleteSlot(f: Field, s: Slot)
    decreases f, 0
  {
    match f.typ.base
    case Named(NamedArray(_, def)) =>
      (f.typ.arr.NotArray? ==> s.cells != []) && AllComplete(def, s.cells)
    case _ => |s.cells| >= Multiplicity(f.typ)
  }

  predicate AllComplete(def: seq<Field>, cells: seq<Cell>)
    decreases def, 1
  {
    forall c | c in cells :: c.Record? && Complete(def, c.fields)
  }

  function Max(a: nat, b: nat): nat {
    if a < b then b else a
  }

  /** One past the last position a copy for the members of `fs` touches, the first at `at`. */
  function Reach(fs: seq<Field>, obj: seq<Slot>, at: nat): nat
    decreases fs, 0
  {
    if fs == [] || obj == [] then 0
    else Max(SlotReach(fs[0], obj[0], at), Reach(fs[1..], obj[1..], at + FieldCount(fs[0])))
  }

  function SlotReach(f: Field, s: Slot, at: nat): nat
    decreases f, 0
  {
    match f.typ.base
    case Named(NamedArray(_, def)) => EachReach(def, s.cells, at)
    case _ => at + Multiplicity(f.typ)
  }

  function EachReach(def: seq<Field>, cells: seq<Cell>, at: nat): nat
    decreases def, 1, |cells|
  {
    if cells == [] || !cells[0].Record? then 0
    else Max(Reach(def, cells[0].fields, at), EachReach(def, cells[1..], at + Count(def)))
  }

  // ----- getNumericArray

  ghost predicate Within(b: seq<Num>, r: seq<Num>, from: nat, to: nat) {
    |r| == |b| && forall i | 0 <= i < |b| && !(from <= i < to) :: r[i] == b[i]
  }

  /** What a run of `getNumericArray` tells: it ends normally exactly if `ok`, having changed nothing
      outside `from` to `to`. */
  ghost predicate Writes(r: Run<Buffer>, b: Buffer, ok: bool, from: nat, to: nat) {
    (r.Done? <==> ok && to <= |b.data|) && (r.Done? ==> Within(b.data, r.value.data, from, to))
  }

  /** Whatever the lengths of its arrays, `getNumericArray` ends normally if and only if no number array is
      short, nothing is null, and the buffer is long enough for the longest reach; then it has written
      nothing beyond that reach. */
  lemma {:induction false} GetCompletes(fs: seq<Field>, obj: seq<Slot>, b: Buffer, offset: nat)
    requires Typed(fs, obj)
    ensures Writes(Get(Code(fs, 0, 0), obj, b, offset), b, Complete(fs, obj), offset, Reach(fs, obj, offset))
    decreases fs, |fs| + 1
  {
    assert fs[0..] == fs && obj[0..] == obj;
    GetCompletesFrom(fs, obj, 0, 0, b, offset);
  }

  lemma {:induction false} GetCompletesFrom(fs: seq<Field>, obj: seq<Slot>, m: nat, at: nat, b: Buffer, offset: nat)
    requires Typed(fs, obj) && m <= |fs|
    ensures Writes(Get(Code(fs, m, at), obj, b, offset), b, Complete(fs[m..], obj[m..]), offset + at,
                   Reach(fs[m..], obj[m..], offset + at))
    decreases fs, |fs| - m
  {
    hide GetStep, InstrFor, CompleteSlot, SlotReach, FieldCount, TypedSlot;
    if m == |fs| {
      assert fs[m..] == [];
    } else {
      var n := FieldCount(fs[m]);
      assert fs[m..][0] == fs[m] && fs[m..][1..] == fs[m + 1..];
      assert obj[m..][0] == obj[m] && obj[m..][1..] == obj[m + 1..];
      var code := Code(fs, m, at);
      assert code[0] == InstrFor(fs[m], m, at) && code[1..] == Code(fs, m + 1, at + n);
      StepCompletes(fs[m], obj, m, at, b, offset);
      var r := GetStep(code[0], obj, b, offset);
      if r.Done? {
        GetCompletesFrom(fs, obj, m + 1, at + n, r.value, offset);
      }
    }
  }

  lemma {:induction false} StepCompletes(f: Field, obj: seq<Slot>, m: nat, at: nat, b: Buffer, offset: nat)
    requires m < |obj| && TypedSlot(f, obj[m])
    ensures Writes(GetStep(InstrFor(f, m, at), obj, b, offset), b, CompleteSlot(f, obj[m]), offset + at,
                   SlotReach(f, obj[m], offset + at))
    decreases f, 0
  {
    match f.typ.base
    case Named(NamedArray(_, def)) => CallCompletes(f, def, obj, m, at, b, offset);
    case _ => CopyCompletes(f, obj, m, at, b, offset);
  }

  lemma CopyCompletes(f: Field, obj: seq<Slot>, m: nat, at: nat, b: Buffer, offset: nat)
    requires m < |obj| && TypedSlot(f, obj[m]) && !(f.typ.base.Named? && f.typ.base.def.NamedArray?)
    ensures Writes(GetStep(InstrFor(f, m, at), obj, b, offset), b, CompleteSlot(f, obj[m]), offset + at,
                   SlotReach(f, obj[m], offset + at))
  {
    hide Product, Put, Writes;
    var cells, n := obj[m].cells, Multiplicity(f.typ);
    if |cells| >= n {
      PutWrites(b, offset + at, if f.typ.arr.NotArray? then [CellNum(cells[0])] else CellNums(cells[..n]));
    } else {
      NothingDone(b, offset + at, offset + at + n);
    }
  }

  lemma PutWrites(b: Buffer, at: nat, xs: seq<Num>)
    ensures Writes(Put(b, at, xs), b, true, at, at + |xs|)
  {
  }

  lemma NothingDone(b: Buffer, from: nat, to: nat)
    ensures Writes(Raised(IndexOutOfBounds), b, false, from, to)
  {
  }

  lemma {:induction false} CallCompletes(f: Field, def: seq<Field>, obj: seq<Slot>, m: nat, at: nat, b: Buffer,
                                         offset: nat)
    requires m < |obj| && TypedSlot(f, obj[m])
    requires f.typ.base.Named? && f.typ.base.def.NamedArray? && def == f.typ.base.def.fields
    ensures Writes(GetStep(InstrFor(f, m, at), obj, b, offset), b, CompleteSlot(f, obj[m]), offset + at,
                   SlotReach(f, obj[m], offset + at))
    decreases f, 0, 0
  {
    hide Code, Get, GetEach, Count, Reach, Complete, Typed, Within;
    var cells := obj[m].cells;
    if !f.typ.arr.NotArray? {
      hide EachReach, AllComplete;
      assert cells[0..] == cells;
      assert Count(def) * 0 == 0;
      EachCompletes(def, cells, 0, offset + at, b, offset + at);
    } else if cells != [] && cells[0].Record? {
      OneObject(def, cells, offset + at);
      GetCompletes(def, cells[0].fields, b, offset + at);
    } else if cells != [] {
      assert cells[0] in cells;
    }
  }

  lemma OneObject(def: seq<Field>, cells: seq<Cell>, at: nat)
    requires |cells| == 1 && cells[0].Record?
    ensures cells[0] in cells && (AllComplete(def, cells) <==> Complete(def, cells[0].fields))
    ensures EachReach(def, cells, at) == Reach(def, cells[0].fields, at)
  {
    hide Complete, Reach;
    assert cells == [cells[0]] && cells[1..] == [];
    assert EachReach(def, [], at + Count(def)) == 0;
  }

  lemma {:induction false} EachCompletes(def: seq<Field>, cells: seq<Cell>, i: nat, at: nat, b: Buffer, offset: nat)
    requires i <= |cells| && at == offset + Count(def) * i
    requires forall c | c in cells && c.Record? :: Typed(def, c.fields)
    ensures Writes(GetEach(Code(def, 0, 0), Count(def), cells, i, b, offset), b,
                   AllComplete(def, cells[i..]), at, EachReach(def, cells[i..], at))
    decreases def, |def| + 2, |cells| - i
  {
    hide Code, Get, Count, Reach, Complete, Typed, Within;
    var rest := cells[i..];
    if i == |cells| {
      NothingWritten(b, at);
    } else {
      var n := Count(def);
      assert rest[0] == cells[i] && rest[1..] == cells[i + 1..];
      HeadComplete(def, rest);
      if cells[i].Record? {
        assert cells[i] in cells;
        GetCompletes(def, cells[i].fields, b, at);
        assert n * (i + 1) == n * i + n;
        var r := Get(Code(def, 0, 0), cells[i].fields, b, at);
        if r.Done? {
          EachCompletes(def, cells, i + 1, at + n, r.value, offset);
          WritesThen(r, GetEach(Code(def, 0, 0), n, cells, i + 1, r.value, offset), b, at,
                     Reach(def, cells[i].fields, at), Complete(def, cells[i].fields), at + n,
                     EachReach(def, cells[i + 1..], at + n), AllComplete(def, cells[i + 1..]));
        }
      }
    }
  }

  lemma NothingWritten(b: Buffer, from: nat)
    ensures Within(b.data, b.data, from, 0)
  {
  }

  lemma HeadComplete(def: seq<Field>, cells: seq<Cell>)
    requires cells != []
    ensures AllComplete(def, cells)
       <==> cells[0].Record? && Complete(def, cells[0].fields) && AllComplete(def, cells[1..])
  {
    hide Complete;
    assert cells == [cells[0]] + cells[1..];
  }

  lemma WritesThen(r: Run<Buffer>, r2: Run<Buffer>, b: Buffer, from: nat, to: nat, ok: bool, from2: nat, to2: nat,
                   ok2: bool)
    requires Writes(r, b, ok, from, to) && r.Done? && Writes(r2, r.value, ok2, from2, to2) && from <= from2
    ensures Writes(r2, b, ok && ok2, from, Max(to, to2))
  {
  }

  // ----- assignFromNumericArray

  /** `assignFromNumericArray` ends normally under the same condition, and leaves every array its length. */
  lemma {:induction false} AssignCompletes(fs: seq<Field>, obj: seq<Slot>, buf: seq<Num>, offset: nat)
    requires Typed(fs, obj)
    ensures var r := Assign(Code(fs, 0, 0), obj, buf, offset);
            && (r.Done? <==> Complete(fs, obj) && Reach(fs, obj, offset) <= |buf|)
            && (r.Done? ==> SameLengths(obj, r.value))
    decreases fs, |fs| + 1
  {
    assert fs[0..] == fs && obj[0..] == obj;
    AssignCompletesFrom(fs, obj, 0, 0, buf, offset);
  }

  ghost predicate SameLengths(obj: seq<Slot>, r: seq<Slot>) {
    |r| == |obj| && forall i | 0 <= i < |obj| :: |r[i].cells| == |obj[i].cells|
  }

  lemma {:induction false} AssignCompletesFrom(fs: seq<Field>, obj: seq<Slot>, m: nat, at: nat, buf: seq<Num>,
                                               offset: nat)
    requires m <= |fs| == |obj| && forall i | m <= i < |fs| :: TypedSlot(fs[i], obj[i])
    ensures var r := Assign(Code(fs, m, at), obj, buf, offset);
            && (r.Done? <==> Complete(fs[m..], obj[m..]) && Reach(fs[m..], obj[m..], offset + at) <= |buf|)
            && (r.Done? ==> SameLengths(obj, r.value))
    decreases fs, |fs| - m
  {
    hide AssignStep, InstrFor, CompleteSlot, SlotReach, FieldCount, TypedSlot;
    if m == |fs| {
      assert fs[m..] == [];
    } else {
      var n := FieldCount(fs[m]);
      assert fs[m..][0] == fs[m] && fs[m..][1..] == fs[m + 1..];
      assert obj[m..][0] == obj[m] && obj[m..][1..] == obj[m + 1..];
      var code := Code(fs, m, at);
      assert code[0] == InstrFor(fs[m], m, at) && code[1..] == Code(fs, m + 1, at + n);
      AssignStepCompletes(fs[m], obj, m, at, buf, offset);
      var r := AssignStep(code[0], obj, buf, offset);
      if r.Done? {
        assert r.value[m + 1..] == obj[m + 1..];
        AssignCompletesFrom(fs, r.value, m + 1, at + n, buf, offset);
      }
    }
  }

  /** What one statement of `assignFromNumericArray` tells. */
  ghost predicate Reads(r: Run<seq<Slot>>, obj: seq<Slot>, m: nat, ok: bool)
    requires m < |obj|
  {
    (r.Done? <==> ok)
    && (r.Done? ==> exists s: Slot :: r.value == obj[m := s] && |s.cells| == |obj[m].cells|)
  }

  lemma {:induction false} AssignStepCompletes(f: Field, obj: seq<Slot>, m: nat, at: nat, buf: seq<Num>, offset: nat)
    requires m < |obj| && TypedSlot(f, obj[m])
    ensures Reads(AssignStep(InstrFor(f, m, at), obj, buf, offset), obj, m,
                  CompleteSlot(f, obj[m]) && SlotReach(f, obj[m], offset + at) <= |buf|)
    decreases f, 0
  {
    match f.typ.base
    case Named(NamedArray(_, def)) => AssignCallCompletes(f, def, obj, m, at, buf, offset);
    case _ => AssignCopyCompletes(f, obj, m, at, buf, offset);
  }

  lemma AssignCopyCompletes(f: Field, obj: seq<Slot>, m: nat, at: nat, buf: seq<Num>, offset: nat)
    requires m < |obj| && TypedSlot(f, obj[m]) && !(f.typ.base.Named? && f.typ.base.def.NamedArray?)
    ensures Reads(AssignStep(InstrFor(f, m, at), obj, buf, offset), obj, m,
                  CompleteSlot(f, obj[m]) && SlotReach(f, obj[m], offset + at) <= |buf|)
  {
    var r := AssignStep(InstrFor(f, m, at), obj, buf, offset);
    if r.Done? {
      assert r.value == obj[m := r.value[m]];
    }
  }

  lemma {:induction false} AssignCallCompletes(f: Field, def: seq<Field>, obj: seq<Slot>, m: nat, at: nat,
                                               buf: seq<Num>, offset: nat)
    requires m < |obj| && TypedSlot(f, obj[m])
    requires f.typ.base.Named? && f.typ.base.def.NamedArray? && def == f.typ.base.def.fields
    ensures Reads(AssignStep(InstrFor(f, m, at), obj, buf, offset), obj, m,
                  CompleteSlot(f, obj[m]) && SlotReach(f, obj[m], offset + at) <= |buf|)
    decreases f, 0, 0
  {
    hide Code, Assign, AssignEach, Count, Reach, Complete, Typed, SameLengths;
    var cells := obj[m].cells;
    if !f.typ.arr.NotArray? {
      hide EachReach, AllComplete;
      assert cells[0..] == cells;
      assert Count(def) * 0 == 0;
      AssignEachCompletes(def, cells, 0, offset + at, buf, offset + at);
    } else if cells != [] && cells[0].Record? {
      OneObject(def, cells, offset + at);
      AssignCompletes(def, cells[0].fields, buf, offset + at);
    } else if cells != [] {
      assert cells[0] in cells;
    }
    var r := AssignStep(InstrFor(f, m, at), obj, buf, offset);
    if r.Done? {
      assert r.value == obj[m := r.value[m]];
    }
  }

  lemma {:induction false} AssignEachCompletes(def: seq<Field>, cells: seq<Cell>, i: nat, at: nat, buf: seq<Num>,
                                               offset: nat)
    requires i <= |cells| && at == offset + Count(def) * i
    requires forall j | i <= j < |cells| && cells[j].Record? :: Typed(def, cells[j].fields)
    ensures var r := AssignEach(Code(def, 0, 0), Count(def), cells, i, buf, offset);
            && (r.Done? <==> AllComplete(def, cells[i..]) && EachReach(def, cells[i..], at) <= |buf|)
            && (r.Done? ==> |r.value| == |cells|)
    decreases def, |def| + 2, |cells| - i
  {
    hide Code, Assign, Count, Reach, Complete, Typed, SameLengths;
    var rest := cells[i..];
    if i < |cells| {
      var n := Count(def);
      assert rest[0] == cells[i] && rest[1..] == cells[i + 1..];
      HeadComplete(def, rest);
      if cells[i].Record? {
        AssignCompletes(def, cells[i].fields, buf, at);
        assert n * (i + 1) == n * i + n;
        var r := Assign(Code(def, 0, 0), cells[i].fields, buf, at);
        if r.Done? {
          var cells1 := cells[i := Record(r.value)];
          assert cells1[i + 1..] == cells[i + 1..];
          AssignEachCompletes(def, cells1, i + 1, at + n, buf, offset);
        }
      }
    }
  }

  // ----- staying inside the own numbers

  /** No object array is longer than declared, all the way down. */
  predicate NoneOverlong(fs: seq<Field>, obj: seq<Slot>)
    decreases fs, 0
  {
    fs == [] || obj == [] || (NotOverlong(fs[0], obj[0]) && NoneOverlong(fs[1..], obj[1..]))
  }

  predicate NotOverlong(f: Field, s: Slot)
    decreases f, 0
  {
    match f.typ.base
    case Named(NamedArray(_, def)) =>
      |s.cells| <= Multiplicity(f.typ) && forall c | c in s.cells && c.Record? :: NoneOverlong(def, c.fields)
    case _ => true
  }

  /** With no object array too long, the reach is the object's own count, whatever else is wrong. */
  lemma {:induction false} ReachIsInside(fs: seq<Field>, obj: seq<Slot>, at: nat)
    requires NoneOverlong(fs, obj)
    ensures Reach(fs, obj, at) <= at + Count(fs)
    decreases fs, 0
  {
    hide FieldCount, SlotReach, NotOverlong;
    if fs != [] && obj != [] {
      SlotReachIsInside(fs[0], obj[0], at);
      ReachIsInside(fs[1..], obj[1..], at + FieldCount(fs[0]));
    }
  }

  lemma {:induction false} SlotReachIsInside(f: Field, s: Slot, at: nat)
    requires NotOverlong(f, s)
    ensures SlotReach(f, s, at) <= at + FieldCount(f)
    decreases f, 0
  {
    match f.typ.base
    case Named(NamedArray(_, def)) =>
      EachReachIsInside(def, s.cells, at);
      MulMonotone(Count(def), |s.cells|, Multiplicity(f.typ));
    case _ =>
  }

  lemma {:induction false} EachReachIsInside(def: seq<Field>, cells: seq<Cell>, at: nat)
    requires forall c | c in cells && c.Record? :: NoneOverlong(def, c.fields)
    ensures EachReach(def, cells, at) <= at + |cells| * Count(def)
    decreases def, 1, |cells|
  {
    hide Count, Reach, NoneOverlong;
    if cells != [] && cells[0].Record? {
      ReachIsInside(def, cells[0].fields, at);
      EachReachIsInside(def, cells[1..], at + Count(def));
      OneMore(|cells|, Count(def));
    }
  }

  /** An object with the single number `x`. */
  function Point(x: Num): Cell {
    Record([Fixed([], [NumCell(x)])])
  }

  lemma PointWrites(x: Num, b: Buffer, offset: nat)
    ensures Get([Scalar(0, 0)], Point(x).fields, b, offset) == Put(b, offset, [x])
  {
    var code := [Scalar(0, 0)];
    assert code[1..] == [] && Point(x).fields[0].cells == [NumCell(x)];
    assert GetStep(code[0], Point(x).fields, b, offset) == Put(b, offset, [x]);
  }

  /** One object too many in an array is enough to write over the number after the object's own. */
  lemma OverlongWritesPast(x: Num, y: Num, b: Buffer)
    requires |b.data| == 2
    ensures var inner := [Field("x", TypeDef("x", Numeric(Double), NotArray, false, [], NoContainer))];
            var points := TypeDef("p", Named(NamedArray("test.point", inner)), Array, false, [1], NoContainer);
            var fs := [Field("p", points)];
            var r := Get(Code(fs, 0, 0), [Fixed([2], [Point(x), Point(y)])], b, 0);
            Count(fs) == 1 && r.Done? && r.value.data == [x, y]
  {
    var inner := [Field("x", TypeDef("x", Numeric(Double), NotArray, false, [], NoContainer))];
    var points := TypeDef("p", Named(NamedArray("test.point", inner)), Array, false, [1], NoContainer);
    var fs, obj := [Field("p", points)], [Fixed([2], [Point(x), Point(y)])];
    assert inner[1..] == [] && fs[1..] == [];
    assert Count(inner) == 1 && Count(fs) == 1;
    var body, code := [Scalar(0, 0)], [CallEach(0, 0, 1, [Scalar(0, 0)])];
    assert Code(inner, 0, 0) == body;
    assert Code(fs, 0, 0) == code && code[1..] == [];
    var b1 := Written(b, 0, [x]);
    var b2 := Written(b1, 1, [y]);
    PointWrites(x, b, 0);
    PointWrites(y, b1, 1);
    var cells := obj[0].cells;
    assert GetEach(body, 1, cells, 2, b2, 0) == Done(b2);
    assert GetEach(body, 1, cells, 1, b1, 0) == Done(b2);
    assert GetEach(body, 1, cells, 0, b, 0) == Done(b2);
    assert GetStep(code[0], obj, b, 0) == Done(b2);
    assert b2.data == [x, y];
  }
}
