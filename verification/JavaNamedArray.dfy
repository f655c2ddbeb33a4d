/** The Java back end for named arrays: a generator that walks the members with a running offset and
    emits one copy per member, and the meaning of the emitted `getNumericArray` and
    `assignFromNumericArray`. */
module JavaNamedArray {
  import opened ColumnMajor
  import opened Types
  import opened Packing
  import opened Unpacking
  import opened Layout

  // ----- the emitted program

  /** One emitted statement. `m` is the member, `at` the constant added to the offset. A call holds the
      statements of the method it calls, and a call over an array also the stride `count` the static
      method of the called class multiplies its index with. */
  datatype Instr =
    | Scalar(m: nat, at: nat)
    | Copy(m: nat, at: nat, len: nat)
    | Call(m: nat, at: nat, body: seq<Instr>)
    | CallEach(m: nat, at: nat, count: nat, body: seq<Instr>)

  /** `JavaServiceLangGen_RemoveMultiDimArray` turns a multi-dimensional member into an array of
      `Multiplicity` elements before the statement is chosen. */
  function InstrFor(f: Field, m: nat, at: nat): Instr
    decreases f, 0
  {
    match f.typ.base
    case Named(NamedArray(_, def)) =>
      if f.typ.arr.NotArray? then Call(m, at, Code(def, 0, 0)) else CallEach(m, at, Count(def), Code(def, 0, 0))
    case _ => if f.typ.arr.NotArray? then Scalar(m, at) else Copy(m, at, Multiplicity(f.typ))
  }

  /** The statements for the members from `m` on, the first at offset `at`. */
  function Code(fs: seq<Field>, m: nat, at: nat): seq<Instr>
    requires m <= |fs|
    decreases fs, |fs| - m
  {
    if m == |fs| then [] else [InstrFor(fs[m], m, at)] + Code(fs, m + 1, at + FieldCount(fs[m]))
  }

  lemma {:induction false} CountSplit(fs: seq<Field>, m: nat)
    requires m <= |fs|
    ensures Count(fs) == Count(fs[..m]) + Count(fs[m..])
    ensures m < |fs| ==> Count(fs[..m + 1]) == Count(fs[..m]) + FieldCount(fs[m])
    ensures Count(fs[..0]) == 0
    decreases m
  {
    assert fs[0..] == fs;
    if m < |fs| {
      LastCount(fs[..m], fs[m]);
      assert fs[..m + 1] == fs[..m] + [fs[m]];
      assert fs[m..][1..] == fs[m + 1..] && fs[m..][0] == fs[m];
    }
    if m > 0 {
      CountSplit(fs, m - 1);
      assert fs[m - 1..][1..] == fs[m..];
    }
  }

  lemma {:induction false} LastCount(fs: seq<Field>, f: Field)
    ensures Count(fs + [f]) == Count(fs) + FieldCount(f)
  {
    if fs == [] {
      assert fs + [f] == [f] && [f][1..] == [];
    } else {
      LastCount(fs[1..], f);
      assert (fs + [f])[1..] == fs[1..] + [f];
    }
  }

  /** The member loop of `GenerateNamedArray`. The running offset `i` always is the summed size of the
      members already emitted. */
  method GenerateNamedArray(fs: seq<Field>) returns (code: seq<Instr>, total: nat)
    ensures code == Code(fs, 0, 0) && total == Count(fs)
    ensures |code| == |fs| && forall m | 0 <= m < |fs| :: code[m] == InstrFor(fs[m], m, Count(fs[..m]))
  {
    hide InstrFor, Count, FieldCount;
    code := [];
    var i: nat := 0;
    CountSplit(fs, 0);
    var m := 0;
    while m < |fs|
      invariant 0 <= m <= |fs|
      invariant i == Count(fs[..m])
      invariant |code| == m && forall j | 0 <= j < m :: code[j] == InstrFor(fs[j], j, Count(fs[..j]))
      invariant Code(fs, 0, 0) == code + Code(fs, m, i)
    {
      CountSplit(fs, m);
      code := code + [InstrFor(fs[m], m, i)];
      i := i + FieldCount(fs[m]);
      m := m + 1;
    }
    assert fs[..m] == fs;
    total := i;
  }

  // ----- the meaning of getNumericArray

  datatype Exception = IndexOutOfBounds | NullPointer

  datatype Run<+T> = Done(value: T) | Raised(exception: Exception) {
    predicate IsFailure() { Raised? }
    function PropagateFailure<U>(): Run<U> requires Raised? { Raised(exception) }
    function Extract(): T requires Done? { value }
  }

  /** The buffer and the positions written so far, in order. */
  datatype Buffer = Buffer(data: seq<Num>, written: seq<nat>)

  function Range(from: nat, n: nat): (r: seq<nat>)
    ensures |r| == n
  {
    seq(n, i requires 0 <= i < n => from + i)
  }

  /** The buffer after writing `xs` at `at`. */
  function Written(b: Buffer, at: nat, xs: seq<Num>): (r: Buffer)
    requires at + |xs| <= |b.data|
    ensures |r.data| == |b.data|
  {
    Buffer(b.data[..at] + xs + b.data[at + |xs|..], b.written + Range(at, |xs|))
  }

  /** `System.arraycopy` into the buffer: all or nothing. */
  function Put(b: Buffer, at: nat, xs: seq<Num>): Run<Buffer> {
    if at + |xs| > |b.data| then Raised(IndexOutOfBounds)
    else Done(Written(b, at, xs))
  }

  function Get(code: seq<Instr>, obj: seq<Slot>, b: Buffer, offset: nat): Run<Buffer>
    decreases code, 0
  {
    if code == [] then Done(b)
    else
      var b1 :- GetStep(code[0], obj, b, offset);
      Get(code[1..], obj, b1, offset)
  }

  function GetStep(i: Instr, obj: seq<Slot>, b: Buffer, offset: nat): Run<Buffer>
    decreases i
  {
    if i.m >= |obj| then Raised(NullPointer)
    else
      var cells := obj[i.m].cells;
      match i
      case Scalar(_, at) =>
        if cells == [] then Raised(NullPointer) else Put(b, offset + at, [CellNum(cells[0])])
      case Copy(_, at, len) =>
        if |cells| < len then Raised(IndexOutOfBounds) else Put(b, offset + at, CellNums(cells[..len]))
      case Call(_, at, body) =>
        if cells == [] || !cells[0].Record? then Raised(NullPointer)
        else Get(body, cells[0].fields, b, offset + at)
      case CallEach(_, at, count, body) => GetEach(body, count, cells, 0, b, offset + at)
  }

  /** `for (int i = 0; i < s.length; i++) s[i].getNumericArray(a, offset + count * i)`. */
  function GetEach(body: seq<Instr>, count: nat, cells: seq<Cell>, i: nat, b: Buffer, offset: nat): Run<Buffer>
    requires i <= |cells|
    decreases body, 1, |cells| - i
  {
    if i == |cells| then Done(b)
    else if !cells[i].Record? then Raised(NullPointer)
    else
      var b1 :- Get(body, cells[i].fields, b, offset + count * i);
      GetEach(body, count, cells, i + 1, b1, offset)
  }

  lemma WriteTwice(b: Buffer, at: nat, xs: seq<Num>, ys: seq<Num>)
    requires at + |xs| + |ys| <= |b.data|
    ensures Written(Written(b, at, xs), at + |xs|, ys) == Written(b, at, xs + ys)
  {
    var once := Written(b, at, xs);
    assert once.data[..at + |xs|] == b.data[..at] + xs;
    assert once.data[at + |xs| + |ys|..] == b.data[at + |xs| + |ys|..];
    assert b.data[..at] + xs + ys == b.data[..at] + (xs + ys);
    assert Range(at, |xs|) + Range(at + |xs|, |ys|) == Range(at, |xs + ys|);
  }

  lemma WriteNothing(b: Buffer, at: nat)
    requires at <= |b.data|
    ensures Written(b, at, []) == b
  {
    assert b.data[..at] + [] + b.data[at..] == b.data;
    assert b.written + Range(at, 0) == b.written;
  }

  /** The emitted `getNumericArray` writes exactly the positions from `offset` to `offset + count`, each
      once and in order, with the numbers of the object in layout order, and nothing else. */
  lemma {:induction false} GetWrites(fs: seq<Field>, k: Kind, c: Cell, b: Buffer, offset: nat)
    requires (forall f | f in fs :: NamedArrayFieldOk(f, k)) && CellOk(fs, c)
    requires offset + Count(fs) <= |b.data|
    ensures |FlattenCell(c)| == Count(fs)
    ensures Get(Code(fs, 0, 0), c.fields, b, offset) == Done(Written(b, offset, FlattenCell(c)))
    decreases c, |fs| + 1
  {
    FlattenUnflatten(fs, k, c);
    assert fs[0..] == fs && c.fields[0..] == c.fields;
    GetWritesFrom(fs, k, c, 0, 0, b, offset);
  }

  lemma {:induction false} GetWritesFrom(fs: seq<Field>, k: Kind, c: Cell, m: nat, at: nat, b: Buffer, offset: nat)
    requires (forall f | f in fs :: NamedArrayFieldOk(f, k)) && CellOk(fs, c) && m <= |fs|
    requires offset + at + Count(fs[m..]) <= |b.data|
    ensures |FlattenSlots(c.fields[m..])| == Count(fs[m..])
    ensures Get(Code(fs, m, at), c.fields, b, offset) == Done(Written(b, offset + at, FlattenSlots(c.fields[m..])))
    decreases c, |fs| - m
  {
    hide GetStep, InstrFor, Written, FlattenCells, NamedArrayFieldOk, SlotOk, FieldCount;
    var obj := c.fields;
    if m == |fs| {
      assert fs[m..] == [] && obj[m..] == [];
      WriteNothing(b, offset + at);
    } else {
      var n := FieldCount(fs[m]);
      assert fs[m..][0] == fs[m] && fs[m..][1..] == fs[m + 1..];
      assert obj[m..][0] == obj[m] && obj[m..][1..] == obj[m + 1..];
      FlattenFieldUnflatten(fs[m], k, obj[m]);
      StepWrites(fs[m], k, obj, m, at, b, offset);
      var xs := FlattenCells(obj[m].cells);
      var b1 := Written(b, offset + at, xs);
      GetWritesFrom(fs, k, c, m + 1, at + n, b1, offset);
      WriteTwice(b, offset + at, xs, FlattenSlots(obj[m + 1..]));
      var code := Code(fs, m, at);
      assert code[0] == InstrFor(fs[m], m, at) && code[1..] == Code(fs, m + 1, at + n);
    }
  }

  lemma {:induction false} StepWrites(f: Field, k: Kind, obj: seq<Slot>, m: nat, at: nat, b: Buffer, offset: nat)
    requires m < |obj| && NamedArrayFieldOk(f, k) && SlotOk(f.typ, obj[m])
    requires offset + at + FieldCount(f) <= |b.data|
    ensures |FlattenCells(obj[m].cells)| == FieldCount(f)
    ensures GetStep(InstrFor(f, m, at), obj, b, offset) == Done(Written(b, offset + at, FlattenCells(obj[m].cells)))
    decreases obj[m], 2
  {
    hide Written;
    var s := obj[m];
    FlattenFieldUnflatten(f, k, s);
    assert forall c | c in s.cells :: ElementOk(f.typ.base, c);
    match f.typ.base
    case Numeric(_) =>
      hide FlattenCells, CellNums;
      FlattenNumbers(k, s.cells);
      NumbersAre(s.cells);
      assert s.cells[..|s.cells|] == s.cells;
      if f.typ.arr.NotArray? {
        assert CellNums(s.cells) == [CellNum(s.cells[0])] by { OneNumber(s.cells); }
      }
    case Named(NamedArray(_, def)) =>
      hide FlattenCells, Count;
      CallWrites(f, def, k, obj, m, at, b, offset);
  }

  lemma CallWrites(f: Field, def: seq<Field>, k: Kind, obj: seq<Slot>, m: nat, at: nat, b: Buffer, offset: nat)
    requires m < |obj| && NamedArrayFieldOk(f, k) && SlotOk(f.typ, obj[m])
    requires f.typ.base.Named? && f.typ.base.def.NamedArray? && def == f.typ.base.def.fields
    requires offset + at + FieldCount(f) <= |b.data| && |FlattenCells(obj[m].cells)| == FieldCount(f)
    ensures GetStep(InstrFor(f, m, at), obj, b, offset) == Done(Written(b, offset + at, FlattenCells(obj[m].cells)))
    decreases obj[m], 1
  {
    hide Written, Code, Get, GetEach, FlattenCell, Count;
    var s := obj[m];
    assert forall c | c in s.cells :: ElementOk(f.typ.base, c);
    if f.typ.arr.NotArray? {
      assert s.cells == [s.cells[0]] && s.cells[0] in s.cells;
      GetWrites(def, k, s.cells[0], b, offset + at);
      assert s.cells[1..] == [] && FlattenCell(s.cells[0]) + [] == FlattenCell(s.cells[0]);
    } else {
      hide FlattenCells;
      assert s.cells[0..] == s.cells;
      assert Count(def) * 0 == 0;
      GetEachWrites(def, k, s.cells, 0, offset + at, b, offset + at);
    }
  }

  lemma OneNumber(cells: seq<Cell>)
    requires |cells| == 1
    ensures CellNums(cells) == [CellNum(cells[0])]
  {
  }

  lemma {:induction false} NumbersAre(cells: seq<Cell>)
    requires forall c | c in cells :: c.NumCell?
    ensures FlattenCells(cells) == CellNums(cells)
  {
    if cells != [] {
      NumbersAre(cells[1..]);
      assert CellNums(cells)[1..] == CellNums(cells[1..]);
    }
  }

  lemma {:induction false} GetEachWrites(def: seq<Field>, k: Kind, cells: seq<Cell>, i: nat, at: nat, b: Buffer,
                                         offset: nat)
    requires (forall f | f in def :: NamedArrayFieldOk(f, k)) && (forall c | c in cells :: CellOk(def, c))
    requires i <= |cells| && at == offset + Count(def) * i && at + (|cells| - i) * Count(def) <= |b.data|
    ensures |FlattenCells(cells[i..])| == (|cells| - i) * Count(def)
    ensures GetEach(Code(def, 0, 0), Count(def), cells, i, b, offset) == Done(Written(b, at, FlattenCells(cells[i..])))
    decreases cells, |cells| - i
  {
    hide Get, Code, Count, Written, FlattenCell, FlattenCells, SlotOk, NamedArrayFieldOk;
    var n, rest := Count(def), cells[i..];
    FlattenAllUnflatten(def, k, rest);
    if i == |cells| {
      NoCells(rest);
      WriteNothing(b, at);
    } else {
      OneMore(|cells| - i, n);
      MulMonotone(n, 1, |cells| - i);
      assert n * (i + 1) == n * i + n;
      assert rest[0] == cells[i] && rest[1..] == cells[i + 1..];
      FlattenCellsCons(rest);
      GetWrites(def, k, cells[i], b, at);
      var xs := FlattenCell(cells[i]);
      GetEachWrites(def, k, cells, i + 1, at + n, Written(b, at, xs), offset);
      WriteTwice(b, at, xs, FlattenCells(cells[i + 1..]));
    }
  }

  lemma NoCells(cells: seq<Cell>)
    requires cells == []
    ensures FlattenCells(cells) == []
  {
  }

  // ----- the meaning of assignFromNumericArray

  function Assign(code: seq<Instr>, obj: seq<Slot>, buf: seq<Num>, offset: nat): Run<seq<Slot>>
    decreases code, 0
  {
    if code == [] then Done(obj)
    else
      var obj1 :- AssignStep(code[0], obj, buf, offset);
      Assign(code[1..], obj1, buf, offset)
  }

  function AssignStep(i: Instr, obj: seq<Slot>, buf: seq<Num>, offset: nat): Run<seq<Slot>>
    decreases i
  {
    if i.m >= |obj| then Raised(NullPointer)
    else
      var s := obj[i.m];
      match i
      case Scalar(_, at) =>
        if offset + at >= |buf| then Raised(IndexOutOfBounds)
        else Done(obj[i.m := s.(cells := [NumCell(buf[offset + at])])])
      case Copy(_, at, len) =>
        if offset + at + len > |buf| || len > |s.cells| then Raised(IndexOutOfBounds)
        else Done(obj[i.m := s.(cells := NumCells(buf[offset + at..offset + at + len]) + s.cells[len..])])
      case Call(_, at, body) =>
        if s.cells == [] || !s.cells[0].Record? then Raised(NullPointer)
        else
          var fields :- Assign(body, s.cells[0].fields, buf, offset + at);
          Done(obj[i.m := s.(cells := [Record(fields)] + s.cells[1..])])
      case CallEach(_, at, count, body) =>
        var cells :- AssignEach(body, count, s.cells, 0, buf, offset + at);
        Done(obj[i.m := s.(cells := cells)])
  }

  /** `for (int i = 0; i < s.length; i++) s[i].assignFromNumericArray(a, offset + count * i)`. */
  function AssignEach(body: seq<Instr>, count: nat, cells: seq<Cell>, i: nat, buf: seq<Num>, offset: nat)
    : Run<seq<Cell>>
    requires i <= |cells|
    decreases body, 1, |cells| - i
  {
    if i == |cells| then Done(cells)
    else if !cells[i].Record? then Raised(NullPointer)
    else
      var fields :- Assign(body, cells[i].fields, buf, offset + count * i);
      AssignEach(body, count, cells[i := Record(fields)], i + 1, buf, offset)
  }

  function Segment(buf: seq<Num>, from: nat, n: nat): (r: seq<Num>)
    requires from + n <= |buf|
    ensures |r| == n
  {
    buf[from..from + n]
  }

  lemma SegmentSplits(buf: seq<Num>, from: nat, n: nat, i: nat)
    requires from + n <= |buf| && i <= n
    ensures Segment(buf, from, n)[..i] == Segment(buf, from, i)
    ensures Segment(buf, from, n)[i..] == Segment(buf, from + i, n - i)
  {
  }

  /** The emitted `assignFromNumericArray` turns any object of the class into the one laid out in the
      segment from `offset` to `offset + count`, whatever it held before. */
  lemma {:induction false} AssignReads(fs: seq<Field>, k: Kind, c: Cell, buf: seq<Num>, offset: nat)
    requires (forall f | f in fs :: NamedArrayFieldOk(f, k)) && CellOk(fs, c)
    requires offset + Count(fs) <= |buf|
    ensures Assign(Code(fs, 0, 0), c.fields, buf, offset)
         == Done(Unflatten(fs, Segment(buf, offset, Count(fs))).fields)
    decreases fs, |fs| + 1
  {
    assert fs[0..] == fs && c.fields[..0] == [];
    AssignReadsFrom(fs, k, c.fields, 0, 0, buf, offset);
    var slots := UnflattenSlots(fs, Segment(buf, offset, Count(fs)));
    assert [] + slots == slots;
  }

  lemma {:induction false} AssignReadsFrom(fs: seq<Field>, k: Kind, obj: seq<Slot>, m: nat, at: nat, buf: seq<Num>,
                                           offset: nat)
    requires m <= |fs| == |obj| && offset + at + Count(fs[m..]) <= |buf|
    requires forall i | m <= i < |fs| :: NamedArrayFieldOk(fs[i], k) && SlotOk(fs[i].typ, obj[i])
    ensures Assign(Code(fs, m, at), obj, buf, offset)
         == Done(obj[..m] + UnflattenSlots(fs[m..], Segment(buf, offset + at, Count(fs[m..]))))
    decreases fs, |fs| - m
  {
    hide InstrFor, AssignStep, UnflattenField, NamedArrayFieldOk, SlotOk, FieldCount, Segment;
    var xs := Segment(buf, offset + at, Count(fs[m..]));
    if m == |fs| {
      assert fs[m..] == [] && obj[..m] + [] == obj;
    } else {
      var n := FieldCount(fs[m]);
      assert fs[m..][0] == fs[m] && fs[m..][1..] == fs[m + 1..];
      var s1 := UnflattenField(fs[m], xs[..n]);
      SegmentSplits(buf, offset + at, Count(fs[m..]), n);
      AssignStepReads(fs[m], k, obj, m, at, buf, offset);
      var obj1 := obj[m := s1];
      AssignReadsFrom(fs, k, obj1, m + 1, at + n, buf, offset);
      var rest := UnflattenSlots(fs[m + 1..], xs[n..]);
      assert obj1[..m + 1] + rest == obj[..m] + ([s1] + rest);
      var code := Code(fs, m, at);
      assert code[0] == InstrFor(fs[m], m, at) && code[1..] == Code(fs, m + 1, at + n);
    }
  }

  lemma {:induction false} AssignStepReads(f: Field, k: Kind, obj: seq<Slot>, m: nat, at: nat, buf: seq<Num>,
                                           offset: nat)
    requires m < |obj| && NamedArrayFieldOk(f, k) && SlotOk(f.typ, obj[m])
    requires offset + at + FieldCount(f) <= |buf|
    ensures AssignStep(InstrFor(f, m, at), obj, buf, offset)
         == Done(obj[m := UnflattenField(f, Segment(buf, offset + at, FieldCount(f)))])
    decreases f, 0
  {
    var s := obj[m];
    assert forall c | c in s.cells :: ElementOk(f.typ.base, c);
    match f.typ.base
    case Numeric(_) =>
      var xs := NumCells(Segment(buf, offset + at, FieldCount(f)));
      assert xs + s.cells[FieldCount(f)..] == xs;
      if f.typ.arr.NotArray? {
        assert xs == [NumCell(buf[offset + at])];
      }
    case Named(NamedArray(_, def)) =>
      if f.typ.arr.NotArray? {
        CallReads(f, def, k, obj, m, at, buf, offset);
      } else {
        CallEachReads(f, def, k, obj, m, at, buf, offset);
      }
  }

  lemma CallReads(f: Field, def: seq<Field>, k: Kind, obj: seq<Slot>, m: nat, at: nat, buf: seq<Num>, offset: nat)
    requires m < |obj| && NamedArrayFieldOk(f, k) && SlotOk(f.typ, obj[m])
    requires f.typ.arr.NotArray? && f.typ.base.Named? && f.typ.base.def.NamedArray? && def == f.typ.base.def.fields
    requires offset + at + FieldCount(f) <= |buf|
    ensures AssignStep(InstrFor(f, m, at), obj, buf, offset)
         == Done(obj[m := UnflattenField(f, Segment(buf, offset + at, FieldCount(f)))])
    decreases f, 0, 0
  {
    hide Segment, Code, Assign, Count, UnflattenSlots;
    var s, n := obj[m], Count(def);
    assert forall c | c in s.cells :: ElementOk(f.typ.base, c);
    assert s.cells == [s.cells[0]] && s.cells[0] in s.cells;
    AssignReads(def, k, s.cells[0], buf, offset + at);
    var xs := Segment(buf, offset + at, n);
    assert xs[..n] == xs && UnflattenAll(def, 1, xs) == [Unflatten(def, xs)];
    assert [Unflatten(def, xs)] + s.cells[1..] == [Unflatten(def, xs)];
  }

  lemma CallEachReads(f: Field, def: seq<Field>, k: Kind, obj: seq<Slot>, m: nat, at: nat, buf: seq<Num>, offset: nat)
    requires m < |obj| && NamedArrayFieldOk(f, k) && SlotOk(f.typ, obj[m])
    requires !f.typ.arr.NotArray? && f.typ.base.Named? && f.typ.base.def.NamedArray? && def == f.typ.base.def.fields
    requires offset + at + FieldCount(f) <= |buf|
    ensures AssignStep(InstrFor(f, m, at), obj, buf, offset)
         == Done(obj[m := UnflattenField(f, Segment(buf, offset + at, FieldCount(f)))])
    decreases f, 0, 0
  {
    hide Segment, Code, AssignEach, Count, UnflattenAll;
    var s := obj[m];
    assert forall c | c in s.cells :: ElementOk(f.typ.base, c);
    assert Count(def) * 0 == 0 && s.cells[..0] == [];
    assert forall j | 0 <= j < |s.cells| :: s.cells[j] in s.cells;
    AssignEachReads(def, k, s.cells, 0, offset + at, Segment(buf, offset + at, FieldCount(f)), buf, offset + at);
    var cells := UnflattenAll(def, |s.cells|, Segment(buf, offset + at, FieldCount(f)));
    assert [] + cells == cells;
  }

  lemma NothingUnflattened(def: seq<Field>, xs: seq<Num>)
    requires |xs| == 0 * Count(def)
    ensures UnflattenAll(def, 0, xs) == []
  {
  }

  lemma {:induction false} AssignEachReads(def: seq<Field>, k: Kind, cells: seq<Cell>, i: nat, at: nat, xs: seq<Num>,
                                           buf: seq<Num>, offset: nat)
    requires (forall f | f in def :: NamedArrayFieldOk(f, k)) && i <= |cells|
    requires forall j | i <= j < |cells| :: CellOk(def, cells[j])
    requires at == offset + Count(def) * i && |xs| == (|cells| - i) * Count(def)
    requires at + |xs| <= |buf| && xs == Segment(buf, at, |xs|)
    ensures AssignEach(Code(def, 0, 0), Count(def), cells, i, buf, offset)
         == Done(cells[..i] + UnflattenAll(def, |cells| - i, xs))
    decreases def, |def| + 2, |cells| - i
  {
    hide Assign, Code, Segment, Count, SlotOk, UnflattenSlots, UnflattenAll, NamedArrayFieldOk;
    if i == |cells| {
      NothingUnflattened(def, xs);
      assert cells[..i] + [] == cells;
    } else {
      var n, r := Count(def), |cells| - i;
      UnflattenAllCons(def, r, xs);
      assert n * (i + 1) == n * i + n;
      SegmentSplits(buf, at, |xs|, n);
      AssignReads(def, k, cells[i], buf, at);
      var c, rest := Unflatten(def, xs[..n]), UnflattenAll(def, r - 1, xs[n..]);
      var cells1 := cells[i := c];
      AssignEachReads(def, k, cells1, i + 1, at + n, xs[n..], buf, offset);
      assert cells1[..i + 1] + rest == cells[..i] + ([c] + rest);
    }
  }

  // ----- the two programs undo each other

  /** What one object writes, any other object of the class reads back as the same object. */
  lemma {:induction false} AssignUndoesGet(fs: seq<Field>, k: Kind, c: Cell, d: Cell, b: Buffer, offset: nat)
    requires (forall f | f in fs :: NamedArrayFieldOk(f, k)) && CellOk(fs, c) && CellOk(fs, d)
    requires offset + Count(fs) <= |b.data|
    ensures var got := Get(Code(fs, 0, 0), c.fields, b, offset);
            got.Done? && Assign(Code(fs, 0, 0), d.fields, got.value.data, offset) == Done(c.fields)
  {
    hide Assign, Get, Code, UnflattenSlots, FlattenSlots, SlotOk, NamedArrayFieldOk, Count;
    GetWrites(fs, k, c, b, offset);
    FlattenUnflatten(fs, k, c);
    var data := Written(b, offset, FlattenCell(c)).data;
    assert Segment(data, offset, Count(fs)) == FlattenCell(c);
    AssignReads(fs, k, d, data, offset);
  }

  /** What an object reads from a segment, it writes back to any segment as the same numbers; written
      to where it came from, it changes nothing. */
  lemma {:induction false} GetUndoesAssign(fs: seq<Field>, k: Kind, d: Cell, buf: seq<Num>, offset: nat, b: Buffer,
                                           to: nat)
    requires (forall f | f in fs :: NamedArrayFieldOk(f, k)) && CellOk(fs, d)
    requires offset + Count(fs) <= |buf| && to + Count(fs) <= |b.data|
    requires NumsOk(k, Segment(buf, offset, Count(fs)))
    ensures var filled := Assign(Code(fs, 0, 0), d.fields, buf, offset);
            && filled.Done?
            && Get(Code(fs, 0, 0), filled.value, b, to) == Done(Written(b, to, Segment(buf, offset, Count(fs))))
    ensures b.data == buf && to == offset ==> Written(b, to, Segment(buf, offset, Count(fs))).data == buf
  {
    hide Assign, Get, Code, UnflattenSlots, FlattenSlots, SlotOk, NamedArrayFieldOk, Count;
    var xs := Segment(buf, offset, Count(fs));
    AssignReads(fs, k, d, buf, offset);
    UnflattenFlatten(fs, k, xs);
    GetWrites(fs, k, Unflatten(fs, xs), b, to);
  }

  /** The static methods: `n` objects and `n * count` numbers. The objects of an array tile the buffer
      back to back, and each direction undoes the other. */
  lemma {:induction false} ArraysTileTheBuffer(fs: seq<Field>, k: Kind, cs: seq<Cell>, ds: seq<Cell>, b: Buffer,
                                               offset: nat)
    requires (forall f | f in fs :: NamedArrayFieldOk(f, k)) && |cs| == |ds|
    requires (forall c | c in cs :: CellOk(fs, c)) && (forall c | c in ds :: CellOk(fs, c))
    requires offset + Count(fs) * |cs| <= |b.data|
    ensures |FlattenCells(cs)| == Count(fs) * |cs|
    ensures GetEach(Code(fs, 0, 0), Count(fs), cs, 0, b, offset) == Done(Written(b, offset, FlattenCells(cs)))
    ensures AssignEach(Code(fs, 0, 0), Count(fs), ds, 0, Written(b, offset, FlattenCells(cs)).data, offset) == Done(cs)
  {
    hide AssignEach, GetEach, Code, UnflattenAll, FlattenCells, CellOk, NamedArrayFieldOk, Count;
    var n := Count(fs);
    assert cs[0..] == cs && ds[..0] == [] && n * 0 == 0 && n * |cs| == |cs| * n;
    GetEachWrites(fs, k, cs, 0, offset, b, offset);
    FlattenAllUnflatten(fs, k, cs);
    var data := Written(b, offset, FlattenCells(cs)).data;
    assert Segment(data, offset, |cs| * n) == FlattenCells(cs);
    assert forall j | 0 <= j < |ds| :: ds[j] in ds;
    AssignEachReads(fs, k, ds, 0, offset, FlattenCells(cs), data, offset);
    assert [] + cs == cs;
  }
}
