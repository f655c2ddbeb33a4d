/** The C# back end for named arrays: structs whose emitted methods copy to and from `ArraySegment`s,
    the extension methods over arrays of structs, and the generated stub conversions. */
module CSharpNamedArray {
  import opened ColumnMajor
  import opened Types
  import opened Layout

  // ----- the structs the generated code declares

  /** The fields of a generated struct: arrays are references and may be null, structs are not. */
  datatype CsStruct = CsStruct(fields: seq<CsField>)
  datatype CsField =
    | Value(x: Num)
    | ValueArray(xs: Option<seq<Num>>)
    | StructValue(s: CsStruct)
    | StructArray(ss: Option<seq<CsStruct>>)

  predicate Typed(fs: seq<Field>, s: CsStruct)
    decreases fs, 0
  {
    |s.fields| == |fs| && forall i | 0 <= i < |fs| :: TypedField(fs[i], s.fields[i])
  }

  predicate TypedField(f: Field, v: CsField)
    decreases f, 0
  {
    match f.typ.base
    case Named(NamedArray(_, def)) =>
      if f.typ.arr.NotArray? then v.StructValue? && Typed(def, v.s)
      else v.StructArray? && (v.ss.Just? ==> forall e | e in v.ss.value :: Typed(def, e))
    case _ => if f.typ.arr.NotArray? then v.Value? else v.ValueArray?
  }

  predicate FieldsOk(fs: seq<Field>, k: Kind) {
    forall f | f in fs :: NamedArrayFieldOk(f, k)
  }

  // ----- the emitted program

  /** A method body: the guard on the segment's length, then one statement per member. */
  datatype Program = Program(count: nat, code: seq<Instr>)

  /** A call builds the segment of `len` elements from `at` on and passes it to `callee`; `CallEach`
      passes it to the extension method, whose loop passes segments of `callee.count` elements on. */
  datatype Instr =
    | Scalar(m: nat, at: nat)
    | Copy(m: nat, at: nat, len: nat)
    | Call(m: nat, at: nat, len: nat, callee: Program)
    | CallEach(m: nat, at: nat, len: nat, callee: Program)

  function InstrFor(f: Field, m: nat, at: nat): Instr
    decreases f, 0
  {
    match f.typ.base
    case Named(NamedArray(_, def)) =>
      var callee := Program(Count(def), CodeFor(def, 0, 0));
      if f.typ.arr.NotArray? then Call(m, at, Count(def), callee) else CallEach(m, at, FieldCount(f), callee)
    case _ => if f.typ.arr.NotArray? then Scalar(m, at) else Copy(m, at, Multiplicity(f.typ))
  }

  function CodeFor(fs: seq<Field>, m: nat, at: nat): seq<Instr>
    requires m <= |fs|
    decreases fs, |fs| - m
  {
    if m == |fs| then [] else [InstrFor(fs[m], m, at)] + CodeFor(fs, m + 1, at + FieldCount(fs[m]))
  }

  function ProgramFor(fs: seq<Field>): Program {
    Program(Count(fs), CodeFor(fs, 0, 0))
  }

  lemma CodeForCons(fs: seq<Field>, m: nat, at: nat)
    requires m < |fs|
    ensures Count(fs[m..]) == FieldCount(fs[m]) + Count(fs[m + 1..])
    ensures CodeFor(fs, m, at) == [InstrFor(fs[m], m, at)] + CodeFor(fs, m + 1, at + FieldCount(fs[m]))
    ensures InstrFor(fs[m], m, at).m == m
  {
    assert fs[m..][0] == fs[m] && fs[m..][1..] == fs[m + 1..];
  }

  /** The member loop of `GeneratePod`: the running offset `i` always is the summed size of the members
      already emitted, and ends at the count the guard compares with. */
  method GeneratePod(fs: seq<Field>) returns (p: Program)
    ensures p == ProgramFor(fs)
  {
    hide InstrFor, CodeFor, FieldCount, Count;
    var code := [];
    var i: nat := 0;
    var m := 0;
    NothingEmitted(fs);
    while m < |fs|
      invariant 0 <= m <= |fs|
      invariant Count(fs) == i + Count(fs[m..])
      invariant CodeFor(fs, 0, 0) == code + CodeFor(fs, m, i)
    {
      CodeForCons(fs, m, i);
      code := code + [InstrFor(fs[m], m, i)];
      i := i + FieldCount(fs[m]);
      m := m + 1;
    }
    AllEmitted(fs, i);
    p := Program(i, code);
  }

  lemma NothingEmitted(fs: seq<Field>)
    ensures Count(fs) == Count(fs[0..])
  {
    assert fs[0..] == fs;
  }

  lemma AllEmitted(fs: seq<Field>, at: nat)
    ensures Count(fs[|fs|..]) == 0 && CodeFor(fs, |fs|, at) == []
  {
  }

  // ----- segments

  datatype Seg = Seg(offset: nat, count: nat)

  predicate Inside(child: Seg, parent: Seg) {
    parent.offset <= child.offset && child.offset + child.count <= parent.offset + parent.count
  }

  /** A segment built by the code of a method that was given `parent`. */
  datatype Nesting = Nesting(parent: Seg, child: Seg)

  /** `Guard` is the emitted `ArgumentException`, `BadSegment` that of the `ArraySegment` constructor. */
  datatype Exception = Guard | BadSegment | ArgumentNull | CopyOutOfRange | IndexOutOfRange | NullReference | IllTyped

  // ----- the meaning of GetNumericArray

  /** The array, the segments built so far, and the exception that ended the run, if any. */
  datatype State = State(data: seq<Num>, log: seq<Nesting>, error: Option<Exception>)

  function Throw(st: State, e: Exception): State {
    st.(error := Just(e))
  }

  function Splice(data: seq<Num>, at: nat, xs: seq<Num>): (r: seq<Num>)
    requires at + |xs| <= |data|
    ensures |r| == |data|
  {
    data[..at] + xs + data[at + |xs|..]
  }

  function Get(p: Program, s: CsStruct, a: Seg, st: State): State
    decreases p, 0
  {
    if a.count < p.count then Throw(st, Guard) else GetCode(p.code, s, a, st)
  }

  function GetCode(code: seq<Instr>, s: CsStruct, a: Seg, st: State): State
    decreases code, 0
  {
    if code == [] || st.error.Just? then st else GetCode(code[1..], s, a, GetStep(code[0], s, a, st))
  }

  function GetStep(i: Instr, s: CsStruct, a: Seg, st: State): State
    decreases i
  {
    if i.m >= |s.fields| then Throw(st, IllTyped)
    else
      var v, from := s.fields[i.m], a.offset + i.at;
      match i
      case Scalar(_, _) =>
        if !v.Value? then Throw(st, IllTyped)
        else if from >= |st.data| then Throw(st, IndexOutOfRange)
        else st.(data := Splice(st.data, from, [v.x]))
      case Copy(_, _, len) =>
        if !v.ValueArray? then Throw(st, IllTyped)
        else if v.xs.Nothing? then Throw(st, ArgumentNull)
        else if |v.xs.value| < len || from + len > |st.data| then Throw(st, CopyOutOfRange)
        else st.(data := Splice(st.data, from, v.xs.value[..len]))
      case Call(_, _, len, callee) =>
        if !v.StructValue? then Throw(st, IllTyped)
        else if from + len > |st.data| then Throw(st, BadSegment)
        else Get(callee, v.s, Seg(from, len), Built(st, a, Seg(from, len)))
      case CallEach(_, _, len, callee) =>
        if !v.StructArray? then Throw(st, IllTyped)
        else if from + len > |st.data| then Throw(st, BadSegment)
        else if v.ss.Nothing? then Throw(Built(st, a, Seg(from, len)), NullReference)
        else if len < callee.count * |v.ss.value| then Throw(Built(st, a, Seg(from, len)), Guard)
        else GetEach(callee, v.ss.value, 0, Seg(from, len), Built(st, a, Seg(from, len)))
  }

  function Built(st: State, a: Seg, child: Seg): State {
    st.(log := st.log + [Nesting(a, child)])
  }

  /** The loop of the extension method. */
  function GetEach(p: Program, ss: seq<CsStruct>, i: nat, a: Seg, st: State): State
    requires i <= |ss|
    decreases p, 1, |ss| - i
  {
    if i == |ss| || st.error.Just? then st
    else
      var a1 := Seg(a.offset + p.count * i, p.count);
      if a1.offset + a1.count > |st.data| then Throw(st, BadSegment)
      else GetEach(p, ss, i + 1, a, Get(p, ss[i], a1, Built(st, a, a1)))
  }

  // ----- which exception ends a run

  function FirstOf(x: Option<Exception>, y: Option<Exception>): Option<Exception> {
    if x.Just? then x else y
  }

  /** What stops `GetNumericArray`, read off the struct alone: the first null or short number array, null
      struct array, or struct array longer than declared. */
  function GetFault(fs: seq<Field>, vs: seq<CsField>): Option<Exception>
    decreases fs, 0
  {
    if fs == [] || vs == [] then Nothing else FirstOf(GetFieldFault(fs[0], vs[0]), GetFault(fs[1..], vs[1..]))
  }

  function GetFieldFault(f: Field, v: CsField): Option<Exception>
    decreases f, 0
  {
    match f.typ.base
    case Named(NamedArray(_, def)) =>
      if v.StructValue? then GetFault(def, v.s.fields)
      else if !v.StructArray? then Nothing
      else if v.ss.Nothing? then Just(NullReference)
      else if FieldCount(f) < Count(def) * |v.ss.value| then Just(Guard)
      else GetArrayFault(def, v.ss.value)
    case _ =>
      if !v.ValueArray? then Nothing
      else if v.xs.Nothing? then Just(ArgumentNull)
      else if |v.xs.value| < Multiplicity(f.typ) then Just(CopyOutOfRange)
      else Nothing
  }

  function GetArrayFault(def: seq<Field>, ss: seq<CsStruct>): Option<Exception>
    decreases def, 1, |ss|
  {
    if ss == [] then Nothing else FirstOf(GetFault(def, ss[0].fields), GetArrayFault(def, ss[1..]))
  }

  /** From `st` to `r` nothing outside `w` was written, and every segment built lies inside the segment
      of the method that built it, all inside `a`. */
  ghost predicate Stays(st: State, r: State, w: Seg, a: Seg) {
    && |r.data| == |st.data|
    && (forall i | 0 <= i < |st.data| && !(w.offset <= i < w.offset + w.count) :: r.data[i] == st.data[i])
    && Nested(st.log, r.log, a)
  }

  ghost predicate Nested(before: seq<Nesting>, after: seq<Nesting>, a: Seg) {
    && |before| <= |after| && after[..|before|] == before
    && forall j | |before| <= j < |after| :: Inside(after[j].child, after[j].parent) && Inside(after[j].parent, a)
  }

  lemma NestedThen(x: seq<Nesting>, y: seq<Nesting>, z: seq<Nesting>, a: Seg)
    requires Nested(x, y, a) && Nested(y, z, a)
    ensures Nested(x, z, a)
  {
    assert z[..|x|] == z[..|y|][..|x|];
    forall j | |x| <= j < |z| ensures Inside(z[j].child, z[j].parent) && Inside(z[j].parent, a) {
      if j < |y| {
        assert z[..|y|][j] == y[j];
      }
    }
  }

  lemma NestedInner(x: seq<Nesting>, z: seq<Nesting>, a: Seg, child: Seg)
    requires Inside(child, a) && Nested(x + [Nesting(a, child)], z, child)
    ensures Nested(x, z, a)
  {
    var y := x + [Nesting(a, child)];
    assert y[..|x|] == x && y[|x|] == Nesting(a, child);
    assert Nested(x, y, a);
    assert Nested(y, z, a);
    NestedThen(x, y, z, a);
  }

  lemma StaysThen(x: State, y: State, z: State, v: Seg, w: Seg, u: Seg, a: Seg)
    requires Stays(x, y, v, a) && Stays(y, z, w, a) && Inside(v, u) && Inside(w, u)
    ensures Stays(x, z, u, a)
  {
    NestedThen(x.log, y.log, z.log, a);
  }

  lemma StaysInner(x: State, z: State, w: Seg, a: Seg, child: Seg)
    requires Inside(child, a) && Stays(Built(x, a, child), z, w, child)
    ensures Stays(x, z, w, a)
  {
    NestedInner(x.log, z.log, a, child);
  }

  lemma SpliceStays(st: State, at: nat, xs: seq<Num>, a: Seg)
    requires at + |xs| <= |st.data|
    ensures Stays(st, st.(data := Splice(st.data, at, xs)), Seg(at, |xs|), a)
  {
  }

  /** Once the outermost segment passes its length guard, the run writes inside the first `count`
      elements only, builds every nested segment inside its parent, and ends with exactly the fault of
      the struct: no constructor of a segment and no index check fails, and no inner guard fires unless a
      struct array is longer than declared. */
  lemma {:induction false} GetRuns(fs: seq<Field>, k: Kind, s: CsStruct, a: Seg, st: State)
    requires FieldsOk(fs, k) && Typed(fs, s) && st.error.Nothing?
    requires Count(fs) <= a.count && a.offset + a.count <= |st.data|
    ensures var r := Get(ProgramFor(fs), s, a, st);
            r.error == GetFault(fs, s.fields) && Stays(st, r, Seg(a.offset, Count(fs)), a)
    decreases fs, |fs| + 1
  {
    assert fs[0..] == fs && s.fields[0..] == s.fields;
    GetCodeRuns(fs, k, s, 0, 0, a, st);
  }

  lemma {:induction false} GetCodeRuns(fs: seq<Field>, k: Kind, s: CsStruct, m: nat, at: nat, a: Seg, st: State)
    requires FieldsOk(fs, k) && Typed(fs, s) && st.error.Nothing? && m <= |fs|
    requires at + Count(fs[m..]) <= a.count && a.offset + a.count <= |st.data|
    ensures var r := GetCode(CodeFor(fs, m, at), s, a, st);
            && r.error == GetFault(fs[m..], s.fields[m..])
            && Stays(st, r, Seg(a.offset + at, Count(fs[m..])), a)
    decreases fs, |fs| - m
  {
    hide GetStep, InstrFor, GetFieldFault, FieldCount, TypedField, NamedArrayFieldOk, Stays;
    if m == |fs| {
      assert fs[m..] == [];
      StaysSame(st, Seg(a.offset + at, 0), a);
    } else {
      var n := FieldCount(fs[m]);
      assert fs[m..][0] == fs[m] && fs[m..][1..] == fs[m + 1..];
      assert s.fields[m..][0] == s.fields[m] && s.fields[m..][1..] == s.fields[m + 1..];
      GetStepRuns(fs[m], k, s, m, at, a, st);
      var code := CodeFor(fs, m, at);
      assert code[0] == InstrFor(fs[m], m, at) && code[1..] == CodeFor(fs, m + 1, at + n);
      var st1 := GetStep(code[0], s, a, st);
      StaysLength(st, st1, Seg(a.offset + at, n), a);
      var w, u := Seg(a.offset + (at + n), Count(fs[m + 1..])), Seg(a.offset + at, Count(fs[m..]));
      if st1.error.Nothing? {
        GetCodeRuns(fs, k, s, m + 1, at + n, a, st1);
        StaysThen(st, st1, GetCode(code[1..], s, a, st1), Seg(a.offset + at, n), w, u, a);
      } else {
        StaysSame(st1, w, a);
        StaysThen(st, st1, st1, Seg(a.offset + at, n), w, u, a);
        assert GetCode(code[1..], s, a, st1) == st1;
      }
    }
  }

  lemma StaysSame(st: State, w: Seg, a: Seg)
    ensures Stays(st, st, w, a)
  {
  }

  lemma StaysLength(x: State, y: State, w: Seg, a: Seg)
    requires Stays(x, y, w, a)
    ensures |x.data| == |y.data|
  {
  }

  lemma {:induction false} GetStepRuns(f: Field, k: Kind, s: CsStruct, m: nat, at: nat, a: Seg, st: State)
    requires NamedArrayFieldOk(f, k) && m < |s.fields| && TypedField(f, s.fields[m]) && st.error.Nothing?
    requires at + FieldCount(f) <= a.count && a.offset + a.count <= |st.data|
    ensures var r := GetStep(InstrFor(f, m, at), s, a, st);
            r.error == GetFieldFault(f, s.fields[m]) && Stays(st, r, Seg(a.offset + at, FieldCount(f)), a)
    decreases f, 0
  {
    hide Stays, Splice, CodeFor, Count, GetCode, GetEach, Typed;
    var v, from := s.fields[m], a.offset + at;
    var w := Seg(from, FieldCount(f));
    StaysSame(st, w, a);
    match f.typ.base
    case Numeric(_) =>
      if v.Value? {
        SpliceStays(st, from, [v.x], a);
      } else if v.xs.Just? && |v.xs.value| >= FieldCount(f) {
        SpliceStays(st, from, v.xs.value[..FieldCount(f)], a);
      } else {
        StaysThrow(st, st, w, a);
      }
    case Named(NamedArray(_, def)) =>
      var built := Built(st, a, w);
      if v.StructValue? {
        GetRuns(def, k, v.s, w, built);
        StaysInner(st, Get(ProgramFor(def), v.s, w, built), w, a, w);
      } else if v.ss.Just? && Count(def) * |v.ss.value| <= FieldCount(f) {
        assert v.ss.value[0..] == v.ss.value;
        GetEachRuns(def, k, v.ss.value, 0, w, built);
        StaysInner(st, GetEach(ProgramFor(def), v.ss.value, 0, w, built), w, a, w);
      } else {
        StaysSame(built, w, w);
        StaysInner(st, built, w, a, w);
        StaysThrow(st, built, w, a);
      }
  }

  lemma StaysThrow(x: State, y: State, w: Seg, a: Seg)
    requires Stays(x, y, w, a)
    ensures forall e :: Stays(x, Throw(y, e), w, a)
  {
  }

  lemma {:induction false} GetEachRuns(def: seq<Field>, k: Kind, ss: seq<CsStruct>, i: nat, a: Seg, st: State)
    requires FieldsOk(def, k) && (forall e | e in ss :: Typed(def, e)) && i <= |ss| && st.error.Nothing?
    requires Count(def) * |ss| <= a.count && a.offset + a.count <= |st.data|
    ensures var r := GetEach(ProgramFor(def), ss, i, a, st);
            r.error == GetArrayFault(def, ss[i..]) && Stays(st, r, a, a)
    decreases def, |def| + 2, |ss| - i
  {
    hide Stays, CodeFor, Count, GetCode, Typed, GetFault;
    StaysSame(st, a, a);
    if i < |ss| {
      var n := Count(def);
      assert n * (i + 1) == n * i + n && n * (i + 1) <= n * |ss| by { MulMonotone(n, i + 1, |ss|); }
      assert ss[i..][0] == ss[i] && ss[i..][1..] == ss[i + 1..];
      var a1 := Seg(a.offset + n * i, n);
      var built := Built(st, a, a1);
      GetRuns(def, k, ss[i], a1, built);
      var st1 := Get(ProgramFor(def), ss[i], a1, built);
      StaysInner(st, st1, a1, a, a1);
      StaysLength(st, st1, a1, a);
      if st1.error.Nothing? {
        GetEachRuns(def, k, ss, i + 1, a, st1);
        StaysThen(st, st1, GetEach(ProgramFor(def), ss, i + 1, a, st1), a1, a, a, a);
      } else {
        StaysSame(st1, a, a);
        StaysThen(st, st1, st1, a1, a, a, a);
      }
    }
  }

  /** A nested struct array holds more structs than its definition declares. */
  predicate Overlong(fs: seq<Field>, vs: seq<CsField>)
    decreases fs, 0
  {
    fs != [] && vs != [] && (OverlongField(fs[0], vs[0]) || Overlong(fs[1..], vs[1..]))
  }

  predicate OverlongField(f: Field, v: CsField)
    decreases f, 0
  {
    match f.typ.base
    case Named(NamedArray(_, def)) =>
      if v.StructValue? then Overlong(def, v.s.fields)
      else v.StructArray? && v.ss.Just?
           && (Multiplicity(f.typ) < |v.ss.value| || exists e | e in v.ss.value :: Overlong(def, e.fields))
    case _ => false
  }

  /** Inner guards fire for nothing but such an array. */
  lemma {:induction false} OnlyOverlongArraysFire(fs: seq<Field>, vs: seq<CsField>)
    requires !Overlong(fs, vs)
    ensures var e := GetFault(fs, vs);
            e == Nothing || e == Just(ArgumentNull) || e == Just(CopyOutOfRange) || e == Just(NullReference)
    ensures AssignFault(fs, vs) == Nothing || AssignFault(fs, vs) == Just(NullReference)
    decreases fs, 0
  {
    if fs != [] && vs != [] {
      OnlyOverlongArraysFire(fs[1..], vs[1..]);
      var f, v := fs[0], vs[0];
      match f.typ.base
      case Named(NamedArray(_, def)) =>
        if v.StructValue? {
          OnlyOverlongArraysFire(def, v.s.fields);
        } else if v.StructArray? && v.ss.Just? {
          MulMonotone(Count(def), |v.ss.value|, Multiplicity(f.typ));
          OnlyOverlongElementsFire(def, v.ss.value);
        }
      case _ =>
    }
  }

  lemma {:induction false} OnlyOverlongElementsFire(def: seq<Field>, ss: seq<CsStruct>)
    requires forall e | e in ss :: !Overlong(def, e.fields)
    ensures var e := GetArrayFault(def, ss);
            e == Nothing || e == Just(ArgumentNull) || e == Just(CopyOutOfRange) || e == Just(NullReference)
    ensures AssignArrayFault(def, ss) == Nothing || AssignArrayFault(def, ss) == Just(NullReference)
    decreases def, 1, |ss|
  {
    if ss != [] {
      OnlyOverlongArraysFire(def, ss[0].fields);
      OnlyOverlongElementsFire(def, ss[1..]);
    }
  }

  // ----- the meaning of AssignFromNumericArray

  /** The value after a run, the segments built, and the exception that ended it, if any. */
  datatype Assigned<T> = Assigned(value: T, log: seq<Nesting>, error: Option<Exception>)

  function Assign(p: Program, s: CsStruct, a: Seg, data: seq<Num>, log: seq<Nesting>): Assigned<CsStruct>
    decreases p, 0
  {
    if a.count < p.count then Assigned(s, log, Just(Guard)) else AssignCode(p.code, s, a, data, log)
  }

  function AssignCode(code: seq<Instr>, s: CsStruct, a: Seg, data: seq<Num>, log: seq<Nesting>): Assigned<CsStruct>
    decreases code, 0
  {
    if code == [] then Assigned(s, log, Nothing)
    else if code[0].m >= |s.fields| then Assigned(s, log, Just(IllTyped))
    else
      var r := AssignStep(code[0], s.fields[code[0].m], a, data, log);
      var s1 := CsStruct(s.fields[code[0].m := r.value]);
      if r.error.Just? then Assigned(s1, r.log, r.error) else AssignCode(code[1..], s1, a, data, r.log)
  }

  /** The new value of the member. A number array is allocated anew when null or of another length; a
      struct array is filled in place. */
  function AssignStep(i: Instr, v: CsField, a: Seg, data: seq<Num>, log: seq<Nesting>): Assigned<CsField>
    decreases i
  {
    var from := a.offset + i.at;
    match i
    case Scalar(_, _) =>
      if !v.Value? then Assigned(v, log, Just(IllTyped))
      else if from >= |data| then Assigned(v, log, Just(IndexOutOfRange))
      else Assigned(Value(data[from]), log, Nothing)
    case Copy(_, _, len) =>
      if !v.ValueArray? then Assigned(v, log, Just(IllTyped))
      else if from + len > |data| then Assigned(v, log, Just(CopyOutOfRange))
      else Assigned(ValueArray(Just(data[from..from + len])), log, Nothing)
    case Call(_, _, len, callee) =>
      if !v.StructValue? then Assigned(v, log, Just(IllTyped))
      else if from + len > |data| then Assigned(v, log, Just(BadSegment))
      else
        var r := Assign(callee, v.s, Seg(from, len), data, log + [Nesting(a, Seg(from, len))]);
        Assigned(StructValue(r.value), r.log, r.error)
    case CallEach(_, _, len, callee) =>
      var log1 := log + [Nesting(a, Seg(from, len))];
      if !v.StructArray? then Assigned(v, log, Just(IllTyped))
      else if from + len > |data| then Assigned(v, log, Just(BadSegment))
      else if v.ss.Nothing? then Assigned(v, log1, Just(NullReference))
      else
        var r := AssignArray(callee, v.ss.value, Seg(from, len), data, log1);
        Assigned(StructArray(Just(r.value)), r.log, r.error)
  }

  /** The extension method: its guard and its loop. */
  function AssignArray(p: Program, ss: seq<CsStruct>, a: Seg, data: seq<Num>, log: seq<Nesting>)
      : Assigned<seq<CsStruct>>
    decreases p, 2
  {
    if a.count < p.count * |ss| then Assigned(ss, log, Just(Guard)) else AssignEach(p, ss, 0, a, data, log)
  }

  function AssignEach(p: Program, ss: seq<CsStruct>, i: nat, a: Seg, data: seq<Num>, log: seq<Nesting>)
    : Assigned<seq<CsStruct>>
    requires i <= |ss|
    decreases p, 1, |ss| - i
  {
    if i == |ss| then Assigned(ss, log, Nothing)
    else
      var a1 := Seg(a.offset + p.count * i, p.count);
      if a1.offset + a1.count > |data| then Assigned(ss, log, Just(BadSegment))
      else
        var r := Assign(p, ss[i], a1, data, log + [Nesting(a, a1)]);
        var ss1 := ss[i := r.value];
        if r.error.Just? then Assigned(ss1, r.log, r.error) else AssignEach(p, ss1, i + 1, a, data, r.log)
  }

  /** What stops `AssignFromNumericArray`: the first struct array that is null or too long. */
  function AssignFault(fs: seq<Field>, vs: seq<CsField>): Option<Exception>
    decreases fs, 0
  {
    if fs == [] || vs == [] then Nothing else FirstOf(AssignFieldFault(fs[0], vs[0]), AssignFault(fs[1..], vs[1..]))
  }

  function AssignFieldFault(f: Field, v: CsField): Option<Exception>
    decreases f, 0
  {
    match f.typ.base
    case Named(NamedArray(_, def)) =>
      if v.StructValue? then AssignFault(def, v.s.fields)
      else if !v.StructArray? then Nothing
      else if v.ss.Nothing? then Just(NullReference)
      else if FieldCount(f) < Count(def) * |v.ss.value| then Just(Guard)
      else AssignArrayFault(def, v.ss.value)
    case _ => Nothing
  }

  function AssignArrayFault(def: seq<Field>, ss: seq<CsStruct>): Option<Exception>
    decreases def, 1, |ss|
  {
    if ss == [] then Nothing else FirstOf(AssignFault(def, ss[0].fields), AssignArrayFault(def, ss[1..]))
  }

  /** The counterpart of `GetRuns`. */
  lemma {:induction false} AssignRuns(fs: seq<Field>, k: Kind, s: CsStruct, a: Seg, data: seq<Num>, log: seq<Nesting>)
    requires FieldsOk(fs, k) && Typed(fs, s)
    requires Count(fs) <= a.count && a.offset + a.count <= |data|
    ensures var r := Assign(ProgramFor(fs), s, a, data, log);
            r.error == AssignFault(fs, s.fields) && Nested(log, r.log, a)
    decreases fs, |fs| + 1
  {
    assert fs[0..] == fs && s.fields[0..] == s.fields;
    AssignCodeRuns(fs, k, s, 0, 0, a, data, log);
  }

  lemma {:induction false} AssignCodeRuns(fs: seq<Field>, k: Kind, s: CsStruct, m: nat, at: nat, a: Seg,
                                          data: seq<Num>, log: seq<Nesting>)
    requires FieldsOk(fs, k) && m <= |fs| == |s.fields|
    requires forall i | m <= i < |fs| :: TypedField(fs[i], s.fields[i])
    requires at + Count(fs[m..]) <= a.count && a.offset + a.count <= |data|
    ensures var r := AssignCode(CodeFor(fs, m, at), s, a, data, log);
            r.error == AssignFault(fs[m..], s.fields[m..]) && Nested(log, r.log, a)
    decreases fs, |fs| - m
  {
    hide AssignStep, InstrFor, AssignFieldFault, FieldCount, TypedField, NamedArrayFieldOk, Nested;
    if m == |fs| {
      assert fs[m..] == [];
      NestedSame(log, a);
    } else {
      var n := FieldCount(fs[m]);
      assert fs[m..][0] == fs[m] && fs[m..][1..] == fs[m + 1..];
      assert s.fields[m..][0] == s.fields[m] && s.fields[m..][1..] == s.fields[m + 1..];
      AssignStepRuns(fs[m], k, s.fields[m], m, at, a, data, log);
      var code := CodeFor(fs, m, at);
      assert code[0] == InstrFor(fs[m], m, at) && code[1..] == CodeFor(fs, m + 1, at + n);
      InstrMember(fs[m], m, at);
      var r := AssignStep(code[0], s.fields[m], a, data, log);
      var s1 := CsStruct(s.fields[m := r.value]);
      assert s1.fields[m + 1..] == s.fields[m + 1..];
      if r.error.Nothing? {
        AssignCodeRuns(fs, k, s1, m + 1, at + n, a, data, r.log);
        NestedThen(log, r.log, AssignCode(code[1..], s1, a, data, r.log).log, a);
      }
    }
  }

  lemma InstrMember(f: Field, m: nat, at: nat)
    ensures InstrFor(f, m, at).m == m
  {
  }

  lemma NestedSame(log: seq<Nesting>, a: Seg)
    ensures Nested(log, log, a)
  {
  }

  lemma {:induction false} AssignStepRuns(f: Field, k: Kind, v: CsField, m: nat, at: nat, a: Seg, data: seq<Num>,
                                          log: seq<Nesting>)
    requires NamedArrayFieldOk(f, k) && TypedField(f, v)
    requires at + FieldCount(f) <= a.count && a.offset + a.count <= |data|
    ensures var r := AssignStep(InstrFor(f, m, at), v, a, data, log);
            r.error == AssignFieldFault(f, v) && Nested(log, r.log, a)
    decreases f, 0
  {
    hide Nested, CodeFor, Count, AssignCode, AssignEach, Typed;
    var w := Seg(a.offset + at, FieldCount(f));
    NestedSame(log, a);
    match f.typ.base
    case Numeric(_) =>
    case Named(NamedArray(_, def)) =>
      var log1 := log + [Nesting(a, w)];
      NestedSame(log1, w);
      NestedInner(log, log1, a, w);
      if v.StructValue? {
        AssignRuns(def, k, v.s, w, data, log1);
        NestedInner(log, Assign(ProgramFor(def), v.s, w, data, log1).log, a, w);
      } else if v.ss.Just? && Count(def) * |v.ss.value| <= FieldCount(f) {
        assert v.ss.value[0..] == v.ss.value;
        AssignEachRuns(def, k, v.ss.value, 0, w, data, log1);
        NestedInner(log, AssignEach(ProgramFor(def), v.ss.value, 0, w, data, log1).log, a, w);
      }
  }

  lemma {:induction false} AssignEachRuns(def: seq<Field>, k: Kind, ss: seq<CsStruct>, i: nat, a: Seg,
                                          data: seq<Num>, log: seq<Nesting>)
    requires FieldsOk(def, k) && i <= |ss| && (forall j | i <= j < |ss| :: Typed(def, ss[j]))
    requires Count(def) * |ss| <= a.count && a.offset + a.count <= |data|
    ensures var r := AssignEach(ProgramFor(def), ss, i, a, data, log);
            r.error == AssignArrayFault(def, ss[i..]) && Nested(log, r.log, a)
    decreases def, |def| + 2, |ss| - i
  {
    hide Nested, CodeFor, Count, AssignCode, Typed, AssignFault;
    NestedSame(log, a);
    if i < |ss| {
      var n := Count(def);
      assert n * (i + 1) == n * i + n && n * (i + 1) <= n * |ss| by { MulMonotone(n, i + 1, |ss|); }
      assert ss[i..][0] == ss[i] && ss[i..][1..] == ss[i + 1..];
      var a1 := Seg(a.offset + n * i, n);
      var log1 := log + [Nesting(a, a1)];
      AssignRuns(def, k, ss[i], a1, data, log1);
      var r := Assign(ProgramFor(def), ss[i], a1, data, log1);
      NestedInner(log, r.log, a, a1);
      var ss1 := ss[i := r.value];
      assert ss1[i + 1..] == ss[i + 1..];
      if r.error.Nothing? {
        AssignEachRuns(def, k, ss1, i + 1, a, data, r.log);
        NestedThen(log, r.log, AssignEach(ProgramFor(def), ss1, i + 1, a, data, r.log).log, a);
      }
    }
  }

  // ----- layout

  /** The struct that `xs` lays out: every array at its declared length. */
  function StructFrom(fs: seq<Field>, xs: seq<Num>): CsStruct
    requires |xs| == Count(fs)
    decreases fs, 1
  {
    CsStruct(FieldsFrom(fs, xs))
  }

  function FieldsFrom(fs: seq<Field>, xs: seq<Num>): (vs: seq<CsField>)
    requires |xs| == Count(fs)
    ensures |vs| == |fs|
    decreases fs, 0
  {
    if fs == [] then []
    else
      var n := FieldCount(fs[0]);
      [FieldFrom(fs[0], xs[..n])] + FieldsFrom(fs[1..], xs[n..])
  }

  function FieldFrom(f: Field, xs: seq<Num>): CsField
    requires |xs| == FieldCount(f)
    decreases f, 0
  {
    match f.typ.base
    case Named(NamedArray(_, def)) =>
      if f.typ.arr.NotArray? then StructValue(StructFrom(def, xs))
      else StructArray(Just(StructsFrom(def, Multiplicity(f.typ), xs)))
    case _ => if f.typ.arr.NotArray? then Value(xs[0]) else ValueArray(Just(xs))
  }

  function StructsFrom(def: seq<Field>, n: nat, xs: seq<Num>): (ss: seq<CsStruct>)
    requires |xs| == n * Count(def)
    ensures |ss| == n
    decreases def, 2, n
  {
    if n == 0 then []
    else
      OneMore(n, Count(def));
      MulMonotone(Count(def), 1, n);
      [StructFrom(def, xs[..Count(def)])] + StructsFrom(def, n - 1, xs[Count(def)..])
  }

  lemma StructsFromCons(def: seq<Field>, n: nat, xs: seq<Num>)
    requires n > 0 && |xs| == n * Count(def)
    ensures Count(def) <= |xs| && |xs| - Count(def) == (n - 1) * Count(def)
    ensures var c := Count(def);
            StructsFrom(def, n, xs) == [StructFrom(def, xs[..c])] + StructsFrom(def, n - 1, xs[c..])
  {
    OneMore(n, Count(def));
    MulMonotone(Count(def), 1, n);
  }

  /** Struct arrays are allocated at their declared length, all the way down; number arrays need not be. */
  predicate Allocated(fs: seq<Field>, s: CsStruct)
    decreases fs, 0
  {
    |s.fields| == |fs| && forall i | 0 <= i < |fs| :: AllocatedField(fs[i], s.fields[i])
  }

  predicate AllocatedField(f: Field, v: CsField)
    decreases f, 0
  {
    match f.typ.base
    case Named(NamedArray(_, def)) =>
      if f.typ.arr.NotArray? then v.StructValue? && Allocated(def, v.s)
      else v.StructArray? && v.ss.Just? && |v.ss.value| == Multiplicity(f.typ)
           && forall e | e in v.ss.value :: Allocated(def, e)
    case _ => if f.typ.arr.NotArray? then v.Value? else v.ValueArray?
  }

  function Part(data: seq<Num>, from: nat, n: nat): (r: seq<Num>)
    requires from + n <= |data|
    ensures |r| == n
  {
    data[from..from + n]
  }

  lemma PartSplits(data: seq<Num>, from: nat, n: nat, i: nat)
    requires from + n <= |data| && i <= n
    ensures Part(data, from, n)[..i] == Part(data, from, i)
    ensures Part(data, from, n)[i..] == Part(data, from + i, n - i)
  {
  }

  lemma NothingLeft(fs: seq<Field>, at: nat)
    ensures fs[|fs|..] == [] && Count(fs[|fs|..]) == 0
    ensures CodeFor(fs, |fs|, at) == [] && FieldsFrom([], []) == []
  {
  }

  lemma FieldsFromCons(fs: seq<Field>, m: nat, xs: seq<Num>)
    requires m < |fs| && |xs| == Count(fs[m..])
    ensures Count(fs[m..]) == FieldCount(fs[m]) + Count(fs[m + 1..])
    ensures var n := FieldCount(fs[m]);
            FieldsFrom(fs[m..], xs) == [FieldFrom(fs[m], xs[..n])] + FieldsFrom(fs[m + 1..], xs[n..])
  {
    assert fs[m..][0] == fs[m] && fs[m..][1..] == fs[m + 1..];
  }

  /** Given struct arrays of their declared lengths, assigning reads exactly the first `count` elements
      of the segment, whatever the struct held before. */
  lemma {:induction false} AssignReads(fs: seq<Field>, k: Kind, s: CsStruct, a: Seg, data: seq<Num>, log: seq<Nesting>)
    requires FieldsOk(fs, k) && Allocated(fs, s) && Count(fs) <= a.count && a.offset + a.count <= |data|
    ensures var r := Assign(ProgramFor(fs), s, a, data, log);
            r.error == Nothing && r.value == StructFrom(fs, Part(data, a.offset, Count(fs)))
    decreases fs, |fs| + 1
  {
    assert fs[0..] == fs && s.fields[..0] == [];
    AssignCodeReads(fs, k, s, 0, 0, a, data, log);
    var vs := FieldsFrom(fs, Part(data, a.offset, Count(fs)));
    assert [] + vs == vs;
  }

  lemma {:induction false} AssignCodeReads(fs: seq<Field>, k: Kind, s: CsStruct, m: nat, at: nat, a: Seg,
                                           data: seq<Num>, log: seq<Nesting>)
    requires FieldsOk(fs, k) && m <= |fs| == |s.fields|
    requires forall i | m <= i < |fs| :: AllocatedField(fs[i], s.fields[i])
    requires at + Count(fs[m..]) <= a.count && a.offset + a.count <= |data|
    ensures var r := AssignCode(CodeFor(fs, m, at), s, a, data, log);
            && r.error == Nothing
            && r.value.fields == s.fields[..m] + FieldsFrom(fs[m..], Part(data, a.offset + at, Count(fs[m..])))
    decreases fs, |fs| - m
  {
    hide AssignStep, AssignCode, CodeFor, InstrFor, FieldFrom, FieldsFrom, FieldCount, Count, AllocatedField;
    hide NamedArrayFieldOk, Part;
    if m == |fs| {
      NothingLeft(fs, at);
      AssignNothing(s, a, data, log);
      assert s.fields[..m] + [] == s.fields;
    } else {
      var n, from, total := FieldCount(fs[m]), a.offset + at, Count(fs[m..]);
      CodeForCons(fs, m, at);
      PartSplits(data, from, total, n);
      FieldsFromCons(fs, m, Part(data, from, total));
      AssignStepReads(fs[m], k, s.fields[m], m, at, a, data, log);
      var r := AssignStep(InstrFor(fs[m], m, at), s.fields[m], a, data, log);
      var s1 := CsStruct(s.fields[m := r.value]);
      AssignCodeCons(InstrFor(fs[m], m, at), CodeFor(fs, m + 1, at + n), s, a, data, log);
      AssignCodeReads(fs, k, s1, m + 1, at + n, a, data, r.log);
      PrefixGrows(s.fields, m, r.value, FieldsFrom(fs[m + 1..], Part(data, from + n, Count(fs[m + 1..]))));
    }
  }

  lemma AssignNothing(s: CsStruct, a: Seg, data: seq<Num>, log: seq<Nesting>)
    ensures AssignCode([], s, a, data, log) == Assigned(s, log, Nothing)
  {
  }

  lemma AssignCodeCons(i: Instr, code: seq<Instr>, s: CsStruct, a: Seg, data: seq<Num>, log: seq<Nesting>)
    requires i.m < |s.fields|
    ensures var r := AssignStep(i, s.fields[i.m], a, data, log);
            var s1 := CsStruct(s.fields[i.m := r.value]);
            AssignCode([i] + code, s, a, data, log)
            == if r.error.Just? then Assigned(s1, r.log, r.error) else AssignCode(code, s1, a, data, r.log)
  {
    assert ([i] + code)[1..] == code;
  }

  lemma {:induction false} AssignStepReads(f: Field, k: Kind, v: CsField, m: nat, at: nat, a: Seg, data: seq<Num>,
                                           log: seq<Nesting>)
    requires NamedArrayFieldOk(f, k) && AllocatedField(f, v)
    requires at + FieldCount(f) <= a.count && a.offset + a.count <= |data|
    ensures var r := AssignStep(InstrFor(f, m, at), v, a, data, log);
            r.error == Nothing && r.value == FieldFrom(f, Part(data, a.offset + at, FieldCount(f)))
    decreases f, 0
  {
    match f.typ.base
    case Numeric(_) => CopyStepReads(f, k, v, m, at, a, data, log);
    case Named(NamedArray(_, def)) =>
      if f.typ.arr.NotArray? {
        CallStepReads(f, def, k, v, m, at, a, data, log);
      } else {
        CallEachStepReads(f, def, k, v, m, at, a, data, log);
      }
  }

  lemma CopyStepReads(f: Field, k: Kind, v: CsField, m: nat, at: nat, a: Seg, data: seq<Num>, log: seq<Nesting>)
    requires NamedArrayFieldOk(f, k) && AllocatedField(f, v) && f.typ.base.Numeric?
    requires at + FieldCount(f) <= a.count && a.offset + a.count <= |data|
    ensures var r := AssignStep(InstrFor(f, m, at), v, a, data, log);
            r.error == Nothing && r.value == FieldFrom(f, Part(data, a.offset + at, FieldCount(f)))
  {
  }

  lemma CallStepReads(f: Field, def: seq<Field>, k: Kind, v: CsField, m: nat, at: nat, a: Seg, data: seq<Num>,
                      log: seq<Nesting>)
    requires NamedArrayFieldOk(f, k) && AllocatedField(f, v) && f.typ.arr.NotArray?
    requires f.typ.base.Named? && f.typ.base.def.NamedArray? && def == f.typ.base.def.fields
    requires at + FieldCount(f) <= a.count && a.offset + a.count <= |data|
    ensures var r := AssignStep(InstrFor(f, m, at), v, a, data, log);
            r.error == Nothing && r.value == FieldFrom(f, Part(data, a.offset + at, FieldCount(f)))
    decreases f, 0, 0
  {
    hide CodeFor, Count, Assign, Allocated, StructFrom, Part;
    var w := Seg(a.offset + at, FieldCount(f));
    AssignReads(def, k, v.s, w, data, log + [Nesting(a, w)]);
  }

  lemma CallEachStepReads(f: Field, def: seq<Field>, k: Kind, v: CsField, m: nat, at: nat, a: Seg, data: seq<Num>,
                          log: seq<Nesting>)
    requires NamedArrayFieldOk(f, k) && AllocatedField(f, v) && !f.typ.arr.NotArray?
    requires f.typ.base.Named? && f.typ.base.def.NamedArray? && def == f.typ.base.def.fields
    requires at + FieldCount(f) <= a.count && a.offset + a.count <= |data|
    ensures var r := AssignStep(InstrFor(f, m, at), v, a, data, log);
            r.error == Nothing && r.value == FieldFrom(f, Part(data, a.offset + at, FieldCount(f)))
    decreases f, 0, 0
  {
    hide CodeFor, Count, AssignEach, Allocated, StructsFrom, Part;
    var w := Seg(a.offset + at, FieldCount(f));
    assert v.ss.value[..0] == [] && Count(def) * 0 == 0;
    AssignEachReads(def, k, v.ss.value, 0, w.offset, Part(data, w.offset, w.count), w, data, log + [Nesting(a, w)]);
    var ss := StructsFrom(def, |v.ss.value|, Part(data, w.offset, w.count));
    assert [] + ss == ss;
  }

  lemma {:induction false} AssignEachReads(def: seq<Field>, k: Kind, ss: seq<CsStruct>, i: nat, at: nat, xs: seq<Num>,
                                           a: Seg, data: seq<Num>, log: seq<Nesting>)
    requires FieldsOk(def, k) && i <= |ss| && (forall j | i <= j < |ss| :: Allocated(def, ss[j]))
    requires at == a.offset + Count(def) * i && |xs| == (|ss| - i) * Count(def)
    requires at + |xs| <= |data| && xs == Part(data, at, |xs|)
    ensures var r := AssignEach(ProgramFor(def), ss, i, a, data, log);
            && r.error == Nothing
            && r.value == ss[..i] + StructsFrom(def, |ss| - i, xs)
    decreases def, |def| + 2, |ss| - i
  {
    hide CodeFor, Count, Assign, AssignCode, Allocated, StructFrom, FieldsFrom, FieldsOk, Part;
    var n, r := Count(def), |ss| - i;
    if i == |ss| {
      assert ss[..i] + [] == ss;
    } else {
      OneMore(r, n);
      OneStepOn(n, i);
      MulMonotone(n, 1, r);
      PartSplits(data, at, r * n, n);
      var a1 := Seg(at, n);
      var log1 := log + [Nesting(a, a1)];
      AssignReads(def, k, ss[i], a1, data, log1);
      var r1 := Assign(ProgramFor(def), ss[i], a1, data, log1);
      var ss1 := ss[i := r1.value];
      AssignEachReads(def, k, ss1, i + 1, at + n, xs[n..], a, data, r1.log);
      PrefixGrows(ss, i, r1.value, StructsFrom(def, r - 1, xs[n..]));
    }
  }

  lemma OneStepOn(n: nat, i: nat)
    ensures n * (i + 1) == n * i + n
  {
  }

  lemma PrefixGrows<T>(xs: seq<T>, i: nat, x: T, rest: seq<T>)
    requires i < |xs|
    ensures xs[i := x][..i + 1] + rest == xs[..i] + ([x] + rest)
  {
  }

  // ----- writing back what was read

  lemma SpliceTwice(data: seq<Num>, at: nat, xs: seq<Num>, i: nat)
    requires at + |xs| <= |data| && i <= |xs|
    ensures Splice(Splice(data, at, xs[..i]), at + i, xs[i..]) == Splice(data, at, xs)
  {
    var once := Splice(data, at, xs[..i]);
    assert once[..at + i] == data[..at] + xs[..i];
    assert once[at + |xs|..] == data[at + |xs|..];
    assert data[..at] + xs[..i] + xs[i..] == data[..at] + xs;
  }

  lemma SpliceNothing(data: seq<Num>, at: nat)
    requires at <= |data|
    ensures Splice(data, at, []) == data
  {
  }

  /** A struct laid out by `xs` writes exactly `xs`, at the start of its segment. */
  lemma {:induction false} GetWrites(fs: seq<Field>, k: Kind, xs: seq<Num>, a: Seg, st: State)
    requires FieldsOk(fs, k) && |xs| == Count(fs) <= a.count && a.offset + a.count <= |st.data| && st.error.Nothing?
    ensures var r := Get(ProgramFor(fs), StructFrom(fs, xs), a, st);
            r.error == Nothing && r.data == Splice(st.data, a.offset, xs)
    decreases fs, |fs| + 1
  {
    var s := StructFrom(fs, xs);
    assert fs[0..] == fs && s.fields[0..] == s.fields;
    GetCodeWrites(fs, k, s, xs, 0, 0, a, st);
  }

  lemma ConsParts<T>(xs: seq<T>, m: nat, x: T, rest: seq<T>)
    requires m < |xs| && xs[m..] == [x] + rest
    ensures xs[m] == x && xs[m + 1..] == rest
  {
    assert xs[m..][0] == x && xs[m..][1..] == rest;
  }

  lemma GetNothing(s: CsStruct, a: Seg, st: State)
    ensures GetCode([], s, a, st) == st
  {
  }

  lemma GetCodeCons(i: Instr, code: seq<Instr>, s: CsStruct, a: Seg, st: State)
    requires st.error.Nothing?
    ensures GetCode([i] + code, s, a, st) == GetCode(code, s, a, GetStep(i, s, a, st))
  {
    assert ([i] + code)[1..] == code;
  }

  lemma {:induction false} GetCodeWrites(fs: seq<Field>, k: Kind, s: CsStruct, xs: seq<Num>, m: nat, at: nat, a: Seg,
                                         st: State)
    requires FieldsOk(fs, k) && m <= |fs| == |s.fields| && st.error.Nothing?
    requires |xs| == Count(fs[m..]) && s.fields[m..] == FieldsFrom(fs[m..], xs)
    requires at + |xs| <= a.count && a.offset + a.count <= |st.data|
    ensures var r := GetCode(CodeFor(fs, m, at), s, a, st);
            r.error == Nothing && r.data == Splice(st.data, a.offset + at, xs)
    decreases fs, |fs| - m
  {
    hide GetStep, GetCode, CodeFor, InstrFor, FieldFrom, FieldsFrom, FieldCount, Count, NamedArrayFieldOk, Splice;
    if m == |fs| {
      NothingLeft(fs, at);
      SpliceNothing(st.data, a.offset + at);
      GetNothing(s, a, st);
    } else {
      var n := FieldCount(fs[m]);
      FieldsFromCons(fs, m, xs);
      var head, rest := xs[..n], xs[n..];
      ConsParts(s.fields, m, FieldFrom(fs[m], head), FieldsFrom(fs[m + 1..], rest));
      GetStepWrites(fs[m], k, s, head, m, at, a, st);
      var st1 := GetStep(InstrFor(fs[m], m, at), s, a, st);
      CodeForCons(fs, m, at);
      GetCodeCons(InstrFor(fs[m], m, at), CodeFor(fs, m + 1, at + n), s, a, st);
      GetCodeWrites(fs, k, s, rest, m + 1, at + n, a, st1);
      SpliceTwice(st.data, a.offset + at, xs, n);
    }
  }

  lemma {:induction false} GetStepWrites(f: Field, k: Kind, s: CsStruct, xs: seq<Num>, m: nat, at: nat, a: Seg,
                                         st: State)
    requires NamedArrayFieldOk(f, k) && m < |s.fields| && |xs| == FieldCount(f) && s.fields[m] == FieldFrom(f, xs)
    requires st.error.Nothing? && at + |xs| <= a.count && a.offset + a.count <= |st.data|
    ensures var r := GetStep(InstrFor(f, m, at), s, a, st);
            r.error == Nothing && r.data == Splice(st.data, a.offset + at, xs)
    decreases f, 0
  {
    hide Splice, CodeFor, Count, GetCode, GetEach, FieldsFrom, StructsFrom;
    var w := Seg(a.offset + at, FieldCount(f));
    var built := Built(st, a, w);
    match f.typ.base
    case Numeric(_) =>
      if f.typ.arr.NotArray? {
        assert xs == [xs[0]];
      } else {
        assert xs[..|xs|] == xs;
      }
    case Named(NamedArray(_, def)) =>
      if f.typ.arr.NotArray? {
        GetWrites(def, k, xs, w, built);
      } else {
        var n := Multiplicity(f.typ);
        var ss := StructsFrom(def, n, xs);
        assert ss[0..] == ss && Count(def) * 0 == 0;
        GetEachWrites(def, k, ss, xs, 0, w.offset, w, built);
      }
  }

  lemma {:induction false} GetEachWrites(def: seq<Field>, k: Kind, ss: seq<CsStruct>, xs: seq<Num>, i: nat, at: nat,
                                         a: Seg, st: State)
    requires FieldsOk(def, k) && i <= |ss| && st.error.Nothing?
    requires |xs| == (|ss| - i) * Count(def) && ss[i..] == StructsFrom(def, |ss| - i, xs)
    requires at == a.offset + Count(def) * i && at + |xs| <= |st.data|
    ensures var r := GetEach(ProgramFor(def), ss, i, a, st);
            r.error == Nothing && r.data == Splice(st.data, at, xs)
    decreases def, |def| + 2, |ss| - i
  {
    hide CodeFor, Count, Get, GetCode, StructFrom, StructsFrom, FieldsFrom, FieldsOk, Splice;
    var n, r := Count(def), |ss| - i;
    if i == |ss| {
      assert xs == [];
      SpliceNothing(st.data, at);
    } else {
      OneMore(r, n);
      OneStepOn(n, i);
      MulMonotone(n, 1, r);
      var head, rest := xs[..n], xs[n..];
      StructsFromCons(def, r, xs);
      ConsParts(ss, i, StructFrom(def, head), StructsFrom(def, r - 1, rest));
      var a1 := Seg(at, n);
      var built := Built(st, a, a1);
      GetWrites(def, k, head, a1, built);
      GetEachWrites(def, k, ss, rest, i + 1, at + n, a, Get(ProgramFor(def), ss[i], a1, built));
      SpliceTwice(st.data, at, xs, n);
    }
  }

  /** An array of `m` structs with their struct arrays allocated takes up `m * count` numbers and gives
      the same numbers back. */
  lemma {:induction false} NumbersThereAndBack(def: seq<Field>, k: Kind, ss: seq<CsStruct>, data: seq<Num>,
                                               zeros: seq<Num>)
    requires FieldsOk(def, k) && (forall e | e in ss :: Allocated(def, e))
    requires |data| == |zeros| == |ss| * Count(def)
    ensures var a := Seg(0, |data|);
            var r := AssignArray(ProgramFor(def), ss, a, data, []);
            && r.error == Nothing && |r.value| == |ss| && r.value == StructsFrom(def, |ss|, data)
            && GetEach(ProgramFor(def), r.value, 0, a, State(zeros, [], Nothing)).error == Nothing
            && GetEach(ProgramFor(def), r.value, 0, a, State(zeros, [], Nothing)).data == data
  {
    hide CodeFor, Count, AssignEach, GetEach, StructsFrom, Allocated, FieldsOk;
    var a, n := Seg(0, |data|), |ss|;
    assert ss[..0] == [] && Count(def) * 0 == 0 && Count(def) * n == n * Count(def) && Part(data, 0, |data|) == data;
    assert forall j | 0 <= j < |ss| :: ss[j] in ss;
    AssignEachReads(def, k, ss, 0, 0, data, a, data, []);
    var filled := StructsFrom(def, n, data);
    assert [] + filled == filled && filled[0..] == filled;
    GetEachWrites(def, k, filled, data, 0, 0, a, State(zeros, [], Nothing));
    assert Splice(zeros, 0, data) == data;
  }
}
