/** What `UnpackMessageElementImpl` computes: from message data and an optional declared type to a
    Python value, or an error with the field path to the element it concerns. */
module Unpacking {
  import opened ColumnMajor
  import opened Types
  import opened Packing

  // ----- element numbers written as text

  predicate IsDigit(c: char) { '0' <= c <= '9' }

  function ParseDigits(s: string): Option<nat> {
    if s == "" then Just(0)
    else if !IsDigit(s[|s| - 1]) then Nothing
    else match ParseDigits(s[..|s| - 1])
      case Just(n) => Just(10 * n + (s[|s| - 1] - '0') as nat)
      case Nothing => Nothing
  }

  /** `boost::lexical_cast<int32_t>`: an optional sign and at least one digit. */
  function ParseInt32(s: string): Option<int> {
    var negative := s != "" && s[0] == '-';
    var digits := if s != "" && (s[0] == '-' || s[0] == '+') then s[1..] else s;
    if digits == "" then Nothing
    else match ParseDigits(digits)
      case Nothing => Nothing
      case Just(n) =>
        var size: int := n;
        var i := if negative then -size else size;
        if INT32_MIN <= i <= INT32_MAX then Just(i) else Nothing
  }

  function DigitText(n: nat): (s: string)
    ensures s != "" && forall c | c in s :: IsDigit(c)
  {
    var last := ['0' + (n % 10) as char];
    if n < 10 then last else DigitText(n / 10) + last
  }

  function IntText(n: int): string {
    if n < 0 then "-" + DigitText(-n) else DigitText(n)
  }

  lemma {:induction false} ParseDigitText(n: nat)
    ensures ParseDigits(DigitText(n)) == Just(n)
  {
    var s := DigitText(n);
    if n < 10 {
      assert s[..0] == "";
    } else {
      ParseDigitText(n / 10);
      assert s[..|s| - 1] == DigitText(n / 10);
    }
  }

  /** Version 2 messages carry element numbers as decimal names; they are read as the same number. */
  lemma NumbersAsNames(n: int)
    requires INT32_MIN <= n <= INT32_MAX
    ensures ItemNumber(Name(IntText(n))) == ItemNumber(Number(n))
  {
    var m: nat := if n < 0 then -n else n;
    ParseDigitText(m);
    var s := IntText(n);
    if n < 0 {
      assert s[1..] == DigitText(m);
    } else {
      assert s[0] in s && IsDigit(s[0]);
    }
  }

  function ItemNumber(id: Id): Result<int> {
    match id
    case Number(i) => Ok(i)
    case Name(s) => match ParseInt32(s) case Just(i) => Ok(i) case Nothing => Fail(CastError)
  }

  /** The name of an element; numbered elements have none. */
  function NameOf(id: Id): string {
    match id case Name(s) => s case Number(_) => ""
  }

  /** List elements carry their own position. */
  function CheckPosition(id: Id, i: nat): Result<()> {
    var n :- ItemNumber(id);
    if n == i then Ok(()) else Fail(DataTypeError)
  }

  // ----- numbers

  function Native(x: Num): Py {
    match x case I(n) => PyInt(n) case F(r) => PyFloat(r) case C(re, im) => PyComplex(re, im) case B(b) => PyBool(b)
  }

  /** `UnpackFromRRArray`. */
  function UnpackNumbers(k: Kind, xs: seq<Num>, t: Option<TypeDef>): Result<Py> {
    if t.Just? && (t.value.base != Numeric(k) || t.value.arr.MultiDim?) then Fail(DataTypeError)
    else
      var _ :- if t.Just? then CheckLength(t.value, |xs|) else Ok(());
      if t.Just? && t.value.arr.NotArray? then Ok(Native(xs[0]))
      else Ok(NdArray(DNum(k), [|xs|], NumCells(xs)))
  }

  // ----- multi-dimensional arrays

  predicate IsDims(d: Data) {
    d.Nums? && d.kind.UInt32? && forall x | x in d.xs :: x.I? && x.n >= 0
  }

  function DimsOf(d: Data): seq<nat>
    requires IsDims(d)
  {
    seq(|d.xs|, i requires 0 <= i < |d.xs| => assert d.xs[i] in d.xs; d.xs[i].n)
  }

  function FindDims(es: seq<Elem>): Result<seq<nat>> {
    match FindElement(es, "dims")
    case Nothing => Fail(NotFoundError)
    case Just(e) => if IsDims(e.data) then Ok(DimsOf(e.data)) else Fail(DataTypeError)
  }

  /** `VerifyMultiDimArrayLength`. */
  function VerifyMultiDim(es: seq<Elem>, t: TypeDef): Result<()> {
    var dims :- FindDims(es);
    if t.lengths != dims then Fail(DataTypeError)
    else match FindElement(es, "array")
      case Nothing => Fail(NotFoundError)
      case Just(e) => if e.data.Nums? && |e.data.xs| == Product(dims) then Ok(()) else Fail(DataTypeError)
  }

  /** An array whose element count differs from its dimensions has no meaning in the source, which
      does not check it; the model reports an internal error. */
  function UnpackMultiDimNumbers(es: seq<Elem>, t: Option<TypeDef>): Result<Py> {
    if t.Just? && !t.value.arr.MultiDim? then Fail(DataTypeError)
    else
      var _ :- if t.Just? && !t.value.varLength then VerifyMultiDim(es, t.value) else Ok(());
      var dims :- FindDims(es);
      match FindElement(es, "array")
      case Nothing => Fail(NotFoundError)
      case Just(e) =>
        if !e.data.Nums? then Fail(DataTypeError)
        else if |e.data.xs| != Product(dims) then Fail(InternalError)
        else Ok(NdArray(DNum(e.data.kind), dims, FromColumnMajor(dims, NumCells(e.data.xs))))
  }

  // ----- named arrays

  /** The record of a named array type read from consecutive numbers. */
  function Unflatten(fs: seq<Field>, xs: seq<Num>): Cell
    requires |xs| == Count(fs)
    decreases fs, 1, 0
  {
    Record(UnflattenSlots(fs, xs))
  }

  function UnflattenSlots(fs: seq<Field>, xs: seq<Num>): seq<Slot>
    requires |xs| == Count(fs)
    decreases fs, 0, 0
  {
    if fs == [] then []
    else
      var n := FieldCount(fs[0]);
      [UnflattenField(fs[0], xs[..n])] + UnflattenSlots(fs[1..], xs[n..])
  }

  function UnflattenField(f: Field, xs: seq<Num>): Slot
    requires |xs| == FieldCount(f)
    decreases f, 0, 0
  {
    match f.typ.base
    case Named(NamedArray(_, fields)) => Fixed(SlotShape(f.typ), UnflattenAll(fields, Multiplicity(f.typ), xs))
    case _ => Fixed(SlotShape(f.typ), NumCells(xs))
  }

  function UnflattenAll(fs: seq<Field>, n: nat, xs: seq<Num>): (cs: seq<Cell>)
    requires |xs| == n * Count(fs)
    ensures |cs| == n
    decreases fs, 2, n
  {
    if n == 0 then []
    else
      var c := Count(fs);
      assert (n - 1) * c == n * c - c && n * c >= c by { MulMonotone(c, 1, n); }
      [Unflatten(fs, xs[..c])] + UnflattenAll(fs, n - 1, xs[c..])
  }

  function CheckUnpackedRecords(t: Option<TypeDef>, n: nat): Result<()> {
    if t.Just? && !RecordLimit(t.value, n) then Fail(DataTypeError) else Ok(())
  }

  /** `UnpackMessageElement_namedarray`. Numbers of another kind than the definition's are refused
      only against a declared type in the source; the model always refuses them. */
  function UnpackNamedArray(env: Env, d: Data, t: Option<TypeDef>): Result<Py>
  {
    if !d.Nested? || !d.typ.NamedArrayT? then Fail(DataTypeError)
    else if d.typeName !in env.named then Fail(ServiceError)
    else
      var fs := env.named[d.typeName];
      match FindElement(d.elems, "array")
      case Nothing => Fail(NotFoundError)
      case Just(e) =>
        if !e.data.Nums? then Fail(DataTypeError)
        else if Count(fs) == 0 then Fail(InternalError)
        else if |e.data.xs| % Count(fs) != 0 then Fail(DataTypeError)
        else if e.data.kind != ElementKind(fs) then Fail(DataTypeError)
        else
          var n := |e.data.xs| / Count(fs);
          var _ :- CheckUnpackedRecords(t, n);
          LemmaDivMod(|e.data.xs|, Count(fs));
          Ok(NdArray(DNamed(d.typeName), [n], UnflattenAll(fs, n, e.data.xs)))
  }

  // ----- pods

  function ZeroCell(b: Base): Cell {
    match b
    case Numeric(k) => NumCell(Zero(k))
    case Named(Pod(_, fields)) => Record(ZeroSlots(fields))
    case Named(NamedArray(_, fields)) => Record(ZeroSlots(fields))
    case _ => NumCell(I(0))
  }

  function ZeroSlots(fs: seq<Field>): seq<Slot> {
    if fs == [] then [] else [ZeroSlot(fs[0])] + ZeroSlots(fs[1..])
  }

  function ZeroSlot(f: Field): Slot {
    var z := ZeroCell(f.typ.base);
    if f.typ.arr.Array? && f.typ.varLength && f.typ.lengths != [] then Padded(0, Repeat(z, f.typ.lengths[0]))
    else Fixed(SlotShape(f.typ), Repeat(z, Product(SlotShape(f.typ))))
  }

  function Repeat<T>(x: T, n: nat): (s: seq<T>)
    ensures |s| == n && forall y | y in s :: y == x
  {
    seq(n, _ => x)
  }

  /** `PyArray_Resize`: cut to `n`, or padded with zeros. */
  function Resize(cells: seq<Cell>, n: nat, zero: Cell): (r: seq<Cell>)
    ensures |r| == n
  {
    if n <= |cells| then cells[..n] else cells + Repeat(zero, n - |cells|)
  }

  /** Setting a pod field to an unpacked array. Reshaping and numpy's own assignment fail when the
      sizes do not fit. */
  function StoreField(t: TypeDef, cells: seq<Cell>): Result<Slot> {
    if t.arr.Array? && t.varLength then
      if t.lengths == [] then Fail(RangeError)
      else Ok(Padded(|cells|, Resize(cells, t.lengths[0], ZeroCell(t.base))))
    else if |cells| != Product(SlotShape(t)) then Fail(DataTypeError)
    else if t.arr.MultiDim? then Ok(Fixed(t.lengths, FromColumnMajor(t.lengths, cells)))
    else Ok(Fixed(SlotShape(t), cells))
  }

  /** A record array of the given type, as assignable to a pod field. */
  function RecordCells(v: Py, q: string): Result<seq<Cell>> {
    if v.NdArray? && v.dtype == DNamed(q) then Ok(v.cells) else Fail(DataTypeError)
  }

  /** The numbers of an unpacked numeric pod field. */
  function NumberCells(d: Data, t: TypeDef): Result<seq<Cell>> {
    if !d.Nums? then Fail(DataTypeError)
    else
      var _ :- UnpackNumbers(d.kind, d.xs, Just(t));
      Ok(NumCells(d.xs))
  }

  function UnpackPods(env: Env, d: Data, t: Option<TypeDef>): Result<Py>
    decreases d, 0
  {
    if !d.Nested? || !d.typ.PodArrayT? then Fail(DataTypeError)
    else if d.typeName !in env.pods then Fail(NotFoundError)
    else
      var _ :- CheckUnpackedRecords(t, |d.elems|);
      var cells :- UnpackRecords(env, env.pods[d.typeName], d.elems, 0);
      if t.Just? && t.value.arr.NotArray? && |d.elems| != 1 then Fail(DataTypeError)
      else Ok(NdArray(DNamed(d.typeName), [|d.elems|], cells))
  }

  function UnpackRecords(env: Env, fs: seq<Field>, es: seq<Elem>, i: nat): (r: Result<seq<Cell>>)
    ensures r.Ok? ==> |r.value| == |es|
    decreases es, 0
  {
    if es == [] then Ok([])
    else
      var _ :- CheckPosition(es[0].id, i);
      if !es[0].data.Nested? || !es[0].data.typ.PodT? then Fail(DataTypeError)
      else
        assert es[0].data < es[0];
        var slots :- UnpackSlots(env, fs, es[0].data.elems);
        var rest :- UnpackRecords(env, fs, es[1..], i + 1);
        Ok([Record(slots)] + rest)
  }

  function UnpackSlots(env: Env, fs: seq<Field>, es: seq<Elem>): (r: Result<seq<Slot>>)
    decreases es, |fs|
  {
    if fs == [] then Ok([])
    else match FindElement(es, fs[0].name)
      case Nothing => Fail(NotFoundError)
      case Just(e) =>
        FindElementIn(es, fs[0].name);
        assert e.data < e;
        var cells :- UnpackSlotCells(env, fs[0].typ, e.data);
        var s :- StoreField(fs[0].typ, cells);
        var rest :- UnpackSlots(env, fs[1..], es);
        Ok([s] + rest)
  }

  function UnpackSlotCells(env: Env, t: TypeDef, d: Data): Result<seq<Cell>>
    decreases d, 1
  {
    match t.base
    case Named(Pod(q, _)) =>
      var v :- UnpackPods(env, d, Just(FlattenType(t)));
      RecordCells(v, q)
    case Named(NamedArray(q, _)) =>
      var v :- UnpackNamedArray(env, d, Just(FlattenType(t)));
      RecordCells(v, q)
    case Numeric(_) => NumberCells(d, FlattenType(t))
    case _ => Fail(DataTypeError)
  }

  lemma FindElementIn(es: seq<Elem>, name: string)
    requires FindElement(es, name).Just?
    ensures FindElement(es, name).value in es
  {
  }

  /** Records in column-major order, reshaped to the dimensions sent with them. */
  function UnpackMultiDimRecords(env: Env, d: Data, t: Option<TypeDef>): Result<Py>
    requires d.Nested? && (d.typ.PodMultiDimT? || d.typ.NamedMultiDimT?)
    decreases d, 0
  {
    var dims :- FindDims(d.elems);
    match FindElement(d.elems, "array")
    case Nothing => Fail(NotFoundError)
    case Just(e) =>
      var t2 := if t.Just? then Just(t.value.(arr := Array, lengths := [], varLength := true)) else Nothing;
      var v :- if d.typ.PodMultiDimT? then UnpackPods(env, e.data, t2) else UnpackNamedArray(env, e.data, t2);
      if !v.NdArray? || |v.cells| != Product(dims) then Fail(InternalError)
      else Ok(NdArray(v.dtype, dims, FromColumnMajor(dims, v.cells)))
  }

  // ----- the recursive unpacker

  const VARVALUE_TYPE := TypeDef("value", VarValue, NotArray, false, [], NoContainer)

  function InnerType(d: Data): Option<TypeDef> {
    if !d.Nested? then Nothing
    else match d.typ
      case VectorT => Just(VARVALUE_TYPE.(container := MapInt32))
      case DictionaryT => Just(VARVALUE_TYPE.(container := MapString))
      case ListT => Just(VARVALUE_TYPE.(container := ListOf))
      case _ => Nothing
  }

  function Inferred(b: Base, arr: ArrayKind, lengths: seq<nat>, c: Container): TypeDef {
    TypeDef("", b, arr, !arr.NotArray?, lengths, c)
  }

  /** The type a varvalue is given for the data it was received with. The lengths of a numeric
      multi-dimensional array are those its type string parses to. */
  function InferType(env: Env, d: Data): Result<TypeDef> {
    match d
    case Null => Fail(DataTypeError)
    case Nums(k, _) => Ok(Inferred(Numeric(k), Array, [0], NoContainer))
    case Chars(_) => Ok(Inferred(Text, NotArray, [], NoContainer))
    case Nested(typ, q, es) =>
      match typ
      case StructureT => Ok(Inferred(Named(Structure(q)), NotArray, [], NoContainer))
      case ListT => Ok(Inferred(VarValue, NotArray, [], ListOf))
      case VectorT => Ok(Inferred(VarValue, NotArray, [], MapInt32))
      case DictionaryT => Ok(Inferred(VarValue, NotArray, [], MapString))
      case MultiDimT =>
        (match FindElement(es, "array")
         case Just(Elem(_, Nums(k, _))) => Ok(Inferred(Numeric(k), MultiDim, [], NoContainer))
         case _ => Fail(DataTypeError))
      case PodT => Fail(DataTypeError)
      case PodArrayT => InferRecords(env.pods, q, true, Array, [0])
      case PodMultiDimT => InferRecords(env.pods, q, true, MultiDim, [])
      case NamedArrayT => InferRecords(env.named, q, false, Array, [0])
      case NamedMultiDimT => InferRecords(env.named, q, false, MultiDim, [])
  }

  function InferRecords(defs: map<string, seq<Field>>, q: string, pod: bool, arr: ArrayKind, lengths: seq<nat>)
    : Result<TypeDef>
  {
    if q !in defs then Fail(ServiceError)
    else
      var def := if pod then Pod(q, defs[q]) else NamedArray(q, defs[q]);
      Ok(Inferred(Named(def), arr, lengths, NoContainer))
  }

  /** `PyDict_SetItem` on a dictionary kept in insertion order. */
  function DictSet(entries: seq<Entry>, key: Py, value: Py): seq<Entry> {
    if entries == [] then [Entry(key, value)]
    else if entries[0].key == key then [Entry(key, value)] + entries[1..]
    else [entries[0]] + DictSet(entries[1..], key, value)
  }

  function NotNone(t: TypeDef): Result<Py> {
    if t.container.NoContainer? && (t.base.Numeric? || t.base.Text? || (t.base.Named? && t.base.def.Pod?))
    then Fail(DataTypeError) else Ok(None)
  }

  predicate IsVarValue(t: Option<TypeDef>) {
    t.Just? && t.value.base.VarValue?
  }

  function ElementType(t: Option<TypeDef>): Option<TypeDef> {
    if t.Just? then Just(RemoveContainers(t.value)) else Nothing
  }

  /** `UnpackMessageElement`. */
  function Unpack(env: Env, d: Data, t: Option<TypeDef>): Result<Py>
    decreases d, if IsVarValue(t) && t.value.container.NoContainer? then 2 else 1, 0
  {
    if t.Just? && t.value.base.Void? then Ok(None)
    else if d.Null? then
      if IsVarValue(t) || t.Nothing? then Ok(None) else NotNone(t.value)
    else if IsVarValue(t) then
      if t.value.container.NoContainer? then
        var v :- Unpack(env, d, InnerType(d));
        var typ :- InferType(env, d);
        Ok(VarVal(v, typ))
      else UnpackVarContainer(env, d)
    else
      match d
      case Nums(k, xs) =>
        if t.Just? && t.value.base.Named? && t.value.base.def.Enum? then UnpackNumbers(k, xs, Just(ENUM_TYPE))
        else UnpackNumbers(k, xs, t)
      case Chars(s) => Ok(Str(s))
      case Nested(_, _, _) => UnpackNested(env, d, t)
  }

  function UnpackNested(env: Env, d: Data, t: Option<TypeDef>): Result<Py>
    requires d.Nested?
    decreases d, 0, 0
  {
    match d.typ
    case StructureT =>
      if d.typeName !in env.structs then Fail(ServiceError)
      else
        var attrs :- UnpackFields(env, d.elems, env.structs[d.typeName]);
        Ok(Struct(Mangle(d.typeName), attrs))
    case ListT =>
      var items :- UnpackItems(env, d.elems, ElementType(t), 0);
      Ok(List(items))
    case VectorT =>
      var entries :- UnpackIntEntries(env, d.elems, ElementType(t), []);
      Ok(Dict(entries))
    case DictionaryT =>
      var entries :- UnpackStringEntries(env, d.elems, ElementType(t), false, []);
      Ok(Dict(entries))
    case MultiDimT => UnpackMultiDimNumbers(d.elems, t)
    case PodT => Fail(DataTypeError)
    case PodArrayT => UnpackPods(env, d, t)
    case NamedArrayT => UnpackNamedArray(env, d, t)
    case PodMultiDimT => UnpackMultiDimRecords(env, d, t)
    case NamedMultiDimT => UnpackMultiDimRecords(env, d, t)
  }

  /** A container of varvalues: the kind of container is the one received. */
  function UnpackVarContainer(env: Env, d: Data): Result<Py>
    decreases d, 0, 0
  {
    if d.Nested? && d.typ.ListT? then
      var items :- UnpackVarItems(env, d.elems, 0);
      Ok(List(items))
    else if d.Nested? && d.typ.VectorT? then
      var entries :- UnpackIntEntries(env, d.elems, Just(VARVALUE_TYPE), []);
      Ok(Dict(entries))
    else if d.Nested? && d.typ.DictionaryT? then
      var entries :- UnpackStringEntries(env, d.elems, Just(VARVALUE_TYPE), true, []);
      Ok(Dict(entries))
    else Fail(DataTypeError)
  }

  /** Items of a list with a declared type: the level is entered before the position is checked. */
  function UnpackItems(env: Env, es: seq<Elem>, t: Option<TypeDef>, i: nat): Result<seq<Py>>
    decreases es, 0, 0
  {
    if es == [] then Ok([])
    else
      assert es[0].data < es[0];
      var pos := CheckPosition(es[0].id, i);
      var v :- Within(Frame(Index(i), t), if pos.Err? then Fail(pos.error) else Unpack(env, es[0].data, t));
      var rest :- UnpackItems(env, es[1..], t, i + 1);
      Ok([v] + rest)
  }

  /** Items of a varvalue list: the position is checked before the level is entered. */
  function UnpackVarItems(env: Env, es: seq<Elem>, i: nat): Result<seq<Py>>
    decreases es, 0, 0
  {
    if es == [] then Ok([])
    else
      assert es[0].data < es[0];
      var _ :- CheckPosition(es[0].id, i);
      var v :- Within(Frame(Index(i), Just(VARVALUE_TYPE)), Unpack(env, es[0].data, Just(VARVALUE_TYPE)));
      var rest :- UnpackVarItems(env, es[1..], i + 1);
      Ok([v] + rest)
  }

  function UnpackIntEntries(env: Env, es: seq<Elem>, t: Option<TypeDef>, done: seq<Entry>): Result<seq<Entry>>
    decreases es, 0, 0
  {
    if es == [] then Ok(done)
    else
      assert es[0].data < es[0];
      var n :- ItemNumber(es[0].id);
      var v :- Within(Frame(Index(n), t), Unpack(env, es[0].data, t));
      UnpackIntEntries(env, es[1..], t, DictSet(done, PyInt(n), v))
  }

  function UnpackStringEntries(env: Env, es: seq<Elem>, t: Option<TypeDef>, quoted: bool, done: seq<Entry>)
    : Result<seq<Entry>>
    decreases es, 0, 0
  {
    if es == [] then Ok(done)
    else
      assert es[0].data < es[0];
      var key := NameOf(es[0].id);
      var level := if quoted then QuotedKey(key) else BareKey(key);
      var v :- Within(Frame(level, t), Unpack(env, es[0].data, t));
      UnpackStringEntries(env, es[1..], t, quoted, DictSet(done, Str(key), v))
  }

  function UnpackFields(env: Env, es: seq<Elem>, fs: seq<Field>): Result<seq<Attr>>
    decreases es, 0, |fs|
  {
    if fs == [] then Ok([])
    else
      var found := FindElement(es, fs[0].name);
      assert found.Just? ==> found.value in es && found.value.data < found.value by {
        if found.Just? { FindElementIn(es, fs[0].name); }
      }
      var v :- Within(Frame(Member(fs[0].name), Just(fs[0].typ)),
                      if found.Nothing? then Fail(NotFoundError)
                      else Unpack(env, found.value.data, Just(fs[0].typ)));
      var rest :- UnpackFields(env, es, fs[1..]);
      Ok([Attr(fs[0].name, v)] + rest)
  }
}
