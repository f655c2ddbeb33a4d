/** The stub conversions the C# back end emits for a named array, and the definitions they work for. */
module CSharpStub {
  import opened Types
  import opened Layout
  import opened CSharpNamedArray

  /** `new T()`: numbers are zero and every array, of numbers or structs, is null. */
  function Default(fs: seq<Field>): CsStruct
    decreases fs, 1
  {
    CsStruct(DefaultFields(fs))
  }

  function DefaultFields(fs: seq<Field>): (vs: seq<CsField>)
    ensures |vs| == |fs|
    decreases fs, 0
  {
    if fs == [] then [] else [DefaultField(fs[0])] + DefaultFields(fs[1..])
  }

  function DefaultField(f: Field): CsField
    decreases f, 0
  {
    match f.typ.base
    case Named(NamedArray(_, def)) => if f.typ.arr.NotArray? then StructValue(Default(def)) else StructArray(Nothing)
    case Numeric(k) => if f.typ.arr.NotArray? then Value(Zero(k)) else ValueArray(Nothing)
    case _ => if f.typ.arr.NotArray? then Value(I(0)) else ValueArray(Nothing)
  }

  /** Some member, or a member of a nested struct, is an array of structs. */
  predicate HasStructArray(fs: seq<Field>) {
    fs != [] && (FieldHasStructArray(fs[0]) || HasStructArray(fs[1..]))
  }

  predicate FieldHasStructArray(f: Field) {
    match f.typ.base
    case Named(NamedArray(_, def)) => !f.typ.arr.NotArray? || HasStructArray(def)
    case _ => false
  }

  lemma {:induction false} DefaultAssigns(fs: seq<Field>)
    ensures Typed(fs, Default(fs))
    ensures AssignFault(fs, DefaultFields(fs)) == if HasStructArray(fs) then Just(NullReference) else Nothing
    ensures !HasStructArray(fs) ==> Allocated(fs, Default(fs))
    decreases fs, 0
  {
    if fs != [] {
      DefaultAssigns(fs[1..]);
      assert Typed(fs[1..], Default(fs[1..]));
      DefaultFieldAssigns(fs[0]);
      var vs := DefaultFields(fs);
      assert vs[0] == DefaultField(fs[0]) && vs[1..] == DefaultFields(fs[1..]);
      assert forall i | 1 <= i < |fs| :: vs[i] == vs[1..][i - 1] && fs[i] == fs[1..][i - 1];
    }
  }

  lemma {:induction false} DefaultFieldAssigns(f: Field)
    ensures TypedField(f, DefaultField(f))
    ensures AssignFieldFault(f, DefaultField(f)) == if FieldHasStructArray(f) then Just(NullReference) else Nothing
    ensures !FieldHasStructArray(f) ==> AllocatedField(f, DefaultField(f))
    decreases f, 0
  {
    match f.typ.base
    case Named(NamedArray(_, def)) => DefaultAssigns(def);
    case _ =>
  }

  // ----- the four conversions

  datatype Converted<+T> = Converted(value: T) | InvalidLength | DivideByZero | Raised(exception: Exception)

  function Zeros(k: Kind, n: nat): (xs: seq<Num>)
    ensures |xs| == n
  {
    seq(n, _ => Zero(k))
  }

  function GetNumericArrayFromNamedArrayStruct(fs: seq<Field>, k: Kind, s: CsStruct): Converted<seq<Num>> {
    var r := Get(ProgramFor(fs), s, Seg(0, Count(fs)), State(Zeros(k, Count(fs)), [], Nothing));
    if r.error.Just? then Raised(r.error.value) else Converted(r.data)
  }

  function GetNamedArrayStructFromNumericArray(fs: seq<Field>, m: seq<Num>): Converted<CsStruct> {
    if |m| != Count(fs) then InvalidLength
    else
      var r := Assign(ProgramFor(fs), Default(fs), Seg(0, |m|), m, []);
      if r.error.Just? then Raised(r.error.value) else Converted(r.value)
  }

  function GetNumericArrayFromNamedArray(fs: seq<Field>, k: Kind, ss: seq<CsStruct>): Converted<seq<Num>> {
    var n := Count(fs) * |ss|;
    var r := GetEach(ProgramFor(fs), ss, 0, Seg(0, n), State(Zeros(k, n), [], Nothing));
    if r.error.Just? then Raised(r.error.value) else Converted(r.data)
  }

  function Defaults(fs: seq<Field>, n: nat): (ss: seq<CsStruct>)
    ensures |ss| == n
  {
    seq(n, _ => Default(fs))
  }

  function GetNamedArrayFromNumericArray(fs: seq<Field>, m: seq<Num>): Converted<seq<CsStruct>> {
    if Count(fs) == 0 then DivideByZero
    else if |m| % Count(fs) != 0 then InvalidLength
    else
      var r := AssignArray(ProgramFor(fs), Defaults(fs, |m| / Count(fs)), Seg(0, |m|), m, []);
      if r.error.Just? then Raised(r.error.value) else Converted(r.value)
  }

  /** Reading one struct from numbers works exactly for arrays of the declared count, and exactly for
      definitions without an array of structs; then writing the struct gives the numbers back. */
  lemma {:induction false} StructFromNumbersExactly(fs: seq<Field>, k: Kind, m: seq<Num>)
    requires FieldsOk(fs, k)
    ensures var r := GetNamedArrayStructFromNumericArray(fs, m);
            && (r.Converted? <==> |m| == Count(fs) && !HasStructArray(fs))
            && (|m| == Count(fs) && HasStructArray(fs) ==> r == Raised(NullReference))
            && (r.Converted? ==> GetNumericArrayFromNamedArrayStruct(fs, k, r.value) == Converted(m))
  {
    hide Assign, Get, Allocated, Typed, AssignFault, Count, FieldsOk, HasStructArray, CodeFor, DefaultFields,
         FieldsFrom;
    if |m| == Count(fs) {
      var a := Seg(0, |m|);
      DefaultAssigns(fs);
      AssignRuns(fs, k, Default(fs), a, m, []);
      if !HasStructArray(fs) {
        AssignReads(fs, k, Default(fs), a, m, []);
        assert Part(m, 0, |m|) == m;
        var st := State(Zeros(k, |m|), [], Nothing);
        GetWrites(fs, k, m, a, st);
        assert Splice(st.data, 0, m) == m;
      }
    }
  }

  /** A member that is an array of two one-number structs is a definition this conversion never works for. */
  lemma NestedArrayNeverConverts(m: seq<Num>)
    ensures var number := Field("x", TypeDef("double", Numeric(Double), NotArray, false, [], NoContainer));
            var item := Named(NamedArray("a.item", [number]));
            var pair := Field("p", TypeDef("a.item", item, Array, false, [2], NoContainer));
            !GetNamedArrayStructFromNumericArray([pair], m).Converted?
  {
    var number := Field("x", TypeDef("double", Numeric(Double), NotArray, false, [], NoContainer));
    var pair := Field("p", TypeDef("a.item", Named(NamedArray("a.item", [number])), Array, false, [2], NoContainer));
    assert NamedArrayFieldOk(number, Double);
    assert NamedArrayOk([number], Double);
    assert NamedArrayFieldOk(pair, Double);
    assert FieldHasStructArray(pair);
    StructFromNumbersExactly([pair], Double, m);
  }

  lemma AllDefault(fs: seq<Field>, n: nat)
    ensures forall e | e in Defaults(fs, n) :: e == Default(fs)
    ensures n > 0 ==> Defaults(fs, n)[0] == Default(fs)
  {
  }

  lemma DefaultsFault(fs: seq<Field>, n: nat)
    ensures AssignArrayFault(fs, Defaults(fs, n))
         == if n > 0 && HasStructArray(fs) then Just(NullReference) else Nothing
    decreases n
  {
    if n > 0 {
      DefaultAssigns(fs);
      assert Defaults(fs, n)[1..] == Defaults(fs, n - 1);
      DefaultsFault(fs, n - 1);
    }
  }

  /** Reading an array of structs from numbers works exactly when the count divides their number and
      either there are none or no array of structs is declared; then writing gives them back. */
  lemma {:induction false} StructsFromNumbersExactly(fs: seq<Field>, k: Kind, m: seq<Num>)
    requires FieldsOk(fs, k)
    ensures var r := GetNamedArrayFromNumericArray(fs, m);
            && (r.Converted? <==> Count(fs) > 0 && |m| % Count(fs) == 0 && (m == [] || !HasStructArray(fs)))
            && (r.Converted? ==> |r.value| * Count(fs) == |m|
                                 && GetNumericArrayFromNamedArray(fs, k, r.value) == Converted(m))
  {
    hide Assign, AssignEach, GetEach, Allocated, Typed, AssignFault, AssignArrayFault, Count, FieldsOk, HasStructArray;
    hide CodeFor, Default, StructsFrom;
    var c := Count(fs);
    if c > 0 && |m| % c == 0 {
      var n := |m| / c;
      LemmaExactDivision(|m|, c);
      var ss, a := Defaults(fs, n), Seg(0, |m|);
      AllDefault(fs, n);
      DefaultAssigns(fs);
      DefaultsFault(fs, n);
      assert ss[0..] == ss;
      AssignEachRuns(fs, k, ss, 0, a, m, []);
      if n == 0 || !HasStructArray(fs) {
        NumbersThereAndBack(fs, k, ss, m, Zeros(k, |m|));
      }
    }
  }

  lemma LemmaExactDivision(m: nat, c: nat)
    requires c > 0 && m % c == 0
    ensures m / c * c == m == c * (m / c) && (m == 0 <==> m / c == 0)
  {
  }

  // ----- structs with every array at its declared length

  /** Number arrays have their declared lengths too. */
  predicate Exact(fs: seq<Field>, s: CsStruct)
    decreases fs, 0
  {
    |s.fields| == |fs| && forall i | 0 <= i < |fs| :: ExactField(fs[i], s.fields[i])
  }

  predicate ExactField(f: Field, v: CsField)
    decreases f, 0
  {
    match f.typ.base
    case Named(NamedArray(_, def)) =>
      if f.typ.arr.NotArray? then v.StructValue? && Exact(def, v.s)
      else v.StructArray? && v.ss.Just? && |v.ss.value| == Multiplicity(f.typ)
           && forall e | e in v.ss.value :: Exact(def, e)
    case _ =>
      if f.typ.arr.NotArray? then v.Value? else v.ValueArray? && v.xs.Just? && |v.xs.value| == Multiplicity(f.typ)
  }

  function NumbersOf(fs: seq<Field>, s: CsStruct): seq<Num>
    decreases fs, 1
  {
    FieldNumbers(fs, s.fields)
  }

  function FieldNumbers(fs: seq<Field>, vs: seq<CsField>): seq<Num>
    decreases fs, 0
  {
    if fs == [] || vs == [] then [] else ValueNumbers(fs[0], vs[0]) + FieldNumbers(fs[1..], vs[1..])
  }

  function ValueNumbers(f: Field, v: CsField): seq<Num>
    decreases f, 0
  {
    match f.typ.base
    case Named(NamedArray(_, def)) =>
      if v.StructValue? then NumbersOf(def, v.s)
      else if v.StructArray? && v.ss.Just? then ArrayNumbers(def, v.ss.value)
      else []
    case _ => if v.Value? then [v.x] else if v.ValueArray? && v.xs.Just? then v.xs.value else []
  }

  function ArrayNumbers(def: seq<Field>, ss: seq<CsStruct>): seq<Num>
    decreases def, 2, |ss|
  {
    if ss == [] then [] else NumbersOf(def, ss[0]) + ArrayNumbers(def, ss[1..])
  }

  /** A struct whose arrays have their declared lengths is laid out by its own numbers. */
  lemma {:induction false} ExactIsLaidOut(fs: seq<Field>, s: CsStruct)
    requires Exact(fs, s)
    ensures |NumbersOf(fs, s)| == Count(fs) && StructFrom(fs, NumbersOf(fs, s)) == s
    decreases fs, 1
  {
    ExactFieldsLaidOut(fs, s.fields);
  }

  lemma {:induction false} ExactFieldsLaidOut(fs: seq<Field>, vs: seq<CsField>)
    requires |vs| == |fs| && forall i | 0 <= i < |fs| :: ExactField(fs[i], vs[i])
    ensures |FieldNumbers(fs, vs)| == Count(fs) && FieldsFrom(fs, FieldNumbers(fs, vs)) == vs
    decreases fs, 0
  {
    hide FieldFrom, ExactField, FieldCount, ValueNumbers;
    if fs != [] {
      ExactFieldLaidOut(fs[0], vs[0]);
      ExactFieldsLaidOut(fs[1..], vs[1..]);
      var xs := ValueNumbers(fs[0], vs[0]);
      assert (xs + FieldNumbers(fs[1..], vs[1..]))[..|xs|] == xs;
      assert (xs + FieldNumbers(fs[1..], vs[1..]))[|xs|..] == FieldNumbers(fs[1..], vs[1..]);
    }
  }

  lemma {:induction false} ExactFieldLaidOut(f: Field, v: CsField)
    requires ExactField(f, v)
    ensures |ValueNumbers(f, v)| == FieldCount(f) && FieldFrom(f, ValueNumbers(f, v)) == v
    decreases f, 0
  {
    hide Count, StructFrom, StructsFrom, Exact;
    match f.typ.base
    case Named(NamedArray(_, def)) =>
      if f.typ.arr.NotArray? {
        ExactIsLaidOut(def, v.s);
      } else {
        ExactArrayLaidOut(def, v.ss.value);
      }
    case _ =>
  }

  lemma {:induction false} ExactArrayLaidOut(def: seq<Field>, ss: seq<CsStruct>)
    requires forall e | e in ss :: Exact(def, e)
    ensures |ArrayNumbers(def, ss)| == |ss| * Count(def) && StructsFrom(def, |ss|, ArrayNumbers(def, ss)) == ss
    decreases def, 2, |ss|
  {
    hide Count, StructFrom, Exact;
    if ss != [] {
      var c := Count(def);
      assert ss[0] in ss;
      ExactIsLaidOut(def, ss[0]);
      ExactArrayLaidOut(def, ss[1..]);
      OneMore(|ss|, c);
      var xs, rest := NumbersOf(def, ss[0]), ArrayNumbers(def, ss[1..]);
      assert (xs + rest)[..c] == xs && (xs + rest)[c..] == rest;
      StructsFromCons(def, |ss|, xs + rest);
    }
  }

  /** Such a struct, written to numbers and read into any struct with its struct arrays allocated, comes
      back as it was. */
  lemma {:induction false} StructThereAndBack(fs: seq<Field>, k: Kind, s: CsStruct, d: CsStruct)
    requires FieldsOk(fs, k) && Exact(fs, s) && Allocated(fs, d)
    ensures var r := GetNumericArrayFromNamedArrayStruct(fs, k, s);
            && r.Converted? && |r.value| == Count(fs)
            && Assign(ProgramFor(fs), d, Seg(0, Count(fs)), r.value, []).error == Nothing
            && Assign(ProgramFor(fs), d, Seg(0, Count(fs)), r.value, []).value == s
  {
    hide Assign, Get, Allocated, Exact, Count, FieldsOk, CodeFor, FieldsFrom, NumbersOf;
    var n := Count(fs);
    ExactIsLaidOut(fs, s);
    var xs, a, st := NumbersOf(fs, s), Seg(0, n), State(Zeros(k, n), [], Nothing);
    GetWrites(fs, k, xs, a, st);
    assert Splice(st.data, 0, xs) == xs && Part(xs, 0, n) == xs;
    AssignReads(fs, k, d, a, xs, []);
  }
}
