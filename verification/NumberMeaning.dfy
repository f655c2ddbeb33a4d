/** The numbers on the wire are the numbers that were given: what a Python number stands for, said apart from
    the way the packer converts it. */
module NumberMeaning {
  import opened ColumnMajor
  import opened Types
  import opened Packing
  import opened Unpacking
  import opened PodRoundTrip
  import opened Containers
  import opened RoundTrip
  import opened RoundTripProof

  // ----- values

  /** A number, as a point of the complex plane. */
  datatype Value = Value(re: real, im: real)

  function TruthValue(b: bool): Value {
    Value(if b then 1.0 else 0.0, 0.0)
  }

  function ValueOfNum(x: Num): Value {
    match x
    case I(n) => Value(n as real, 0.0)
    case F(r) => Value(r, 0.0)
    case C(re, im) => Value(re, im)
    case B(b) => TruthValue(b)
  }

  /** What a Python or numpy number stands for. */
  function ValueOf(v: Py): Value
    requires IsNumber(v)
  {
    match v
    case PyInt(n) => Value(n as real, 0.0)
    case PyFloat(r) => Value(r, 0.0)
    case PyComplex(re, im) => Value(re, im)
    case PyBool(b) => TruthValue(b)
    case NpScalar(_, x) => ValueOfNum(x)
  }

  /** The ranges of the integer kinds, in decimal. */
  lemma IntegerRanges()
    ensures MinOf(Int8) == -128 && MaxOf(Int8) == 127 && MinOf(UInt8) == 0 && MaxOf(UInt8) == 255
    ensures MinOf(Int16) == -32768 && MaxOf(Int16) == 32767 && MinOf(UInt16) == 0 && MaxOf(UInt16) == 65535
    ensures MinOf(Int32) == -2147483648 && MaxOf(Int32) == 2147483647
    ensures MinOf(UInt32) == 0 && MaxOf(UInt32) == 4294967295
    ensures MinOf(Int64) == -9223372036854775808 && MaxOf(Int64) == 9223372036854775807
    ensures MinOf(UInt64) == 0 && MaxOf(UInt64) == 18446744073709551615
    ensures INT32_MIN == MinOf(Int32) && INT32_MAX == MaxOf(Int32)
  {
  }

  function PowerOfTwo(n: nat): int {
    if n == 0 then 1 else 2 * PowerOfTwo(n - 1)
  }

  lemma {:induction false} PowersAdd(a: nat, b: nat)
    ensures PowerOfTwo(a + b) == PowerOfTwo(a) * PowerOfTwo(b)
  {
    if a > 0 {
      PowersAdd(a - 1, b);
    }
  }

  /** The largest finite values of section 3.6 of IEEE 754-2019: 24 and 53 bits of precision, with exponents up to
      127 and 1023. */
  lemma FloatRanges()
    ensures SINGLE_MAX == ((PowerOfTwo(24) - 1) * PowerOfTwo(104)) as real
    ensures DOUBLE_MAX == ((PowerOfTwo(53) - 1) * PowerOfTwo(971)) as real
  {
    hide PowerOfTwo;
    SingleRange();
    DoubleRange();
  }

  lemma SingleRange()
    ensures SINGLE_MAX == ((PowerOfTwo(24) - 1) * PowerOfTwo(104)) as real
  {
    Powers();
    hide PowerOfTwo;
    PowersAdd(8, 16);
    PowersAdd(64, 40);
    PowersAdd(32, 8);
  }

  lemma PowerOf971()
    ensures PowerOfTwo(971)
         == PowerOfTwo(512) * (PowerOfTwo(256) * (PowerOfTwo(128) * (PowerOfTwo(64) * (PowerOfTwo(8) * PowerOfTwo(3)))))
  {
    hide PowerOfTwo;
    PowersAdd(512, 459);
    PowersAdd(256, 203);
    PowersAdd(128, 75);
    PowersAdd(64, 11);
    PowersAdd(8, 3);
  }

  lemma DoubleRange()
    ensures DOUBLE_MAX == ((PowerOfTwo(53) - 1) * PowerOfTwo(971)) as real
  {
    hide PowerOfTwo;
    Powers();
    PowerOf971();
    PowersAdd(32, 21);
    PowersAdd(16, 5);
  }

  lemma Powers()
    ensures PowerOfTwo(3) == 8 && PowerOfTwo(5) == 32 && PowerOfTwo(8) == 256 && PowerOfTwo(16) == 65536
    ensures PowerOfTwo(32) == PowerOfTwo(16) * PowerOfTwo(16) && PowerOfTwo(64) == PowerOfTwo(32) * PowerOfTwo(32)
    ensures PowerOfTwo(128) == PowerOfTwo(64) * PowerOfTwo(64) && PowerOfTwo(256) == PowerOfTwo(128) * PowerOfTwo(128)
    ensures PowerOfTwo(512) == PowerOfTwo(256) * PowerOfTwo(256)
  {
    PowersOfEight();
    PowersAdd(16, 16);
    PowersAdd(32, 32);
    PowersAdd(64, 64);
    PowersAdd(128, 128);
    PowersAdd(256, 256);
  }

  lemma PowersOfEight()
    ensures PowerOfTwo(8) == 256 && PowerOfTwo(16) == 65536
  {
    assert PowerOfTwo(4) == 16;
    PowersAdd(4, 4);
    PowersAdd(8, 8);
  }

  /** The element kind of a named array is that of all its numbers. */
  lemma {:induction false} ElementKindMeans(fs: seq<Field>, k: Kind)
    requires NamedArrayOk(fs, k)
    ensures ElementKind(fs) == k
    decreases fs
  {
    assert fs[0] in fs;
    match fs[0].typ.base
    case Named(NamedArray(_, fields)) => ElementKindMeans(fields, k);
    case _ =>
  }

  /** `x` is a number of kind `k` with value `y`. */
  predicate Represents(k: Kind, x: Num, y: Value) {
    match k
    case Double => x.F? && Value(x.r, 0.0) == y && -DOUBLE_MAX <= x.r <= DOUBLE_MAX
    case Single => x.F? && Value(x.r, 0.0) == y && -SINGLE_MAX <= x.r <= SINGLE_MAX
    case CDouble => x.C? && Value(x.re, x.im) == y
    case CSingle => x.C? && Value(x.re, x.im) == y
    case Bool => x.B? && TruthValue(x.b) == y
    case _ => x.I? && MinOf(k) <= x.n <= MaxOf(k) && Value(x.n as real, 0.0) == y
  }

  /** The integer `m` is `r` without its fraction. */
  predicate IsTruncation(r: real, m: int) {
    if r >= 0.0 then m as real <= r < m as real + 1.0 else m as real - 1.0 < r <= m as real
  }

  function Width(k: Kind): int
    requires Integral(k)
  {
    MaxOf(k) - MinOf(k) + 1
  }

  /** `x` is what a C cast to kind `k` makes of `y`: the real part for real kinds, without its fraction and
      modulo the width for integers. */
  ghost predicate Casts(k: Kind, y: Value, x: Num) {
    if Integral(k) then
      && x.I? && MinOf(k) <= x.n <= MaxOf(k)
      && exists m: int :: IsTruncation(y.re, m) && (m - x.n) % Width(k) == 0
    else if k.CDouble? || k.CSingle? then x == C(y.re, y.im)
    else (k.Double? || k.Single?) && Represents(k, x, Value(y.re, 0.0))
  }

  /** `x` is the number of kind `k` a Python number is sent as. */
  ghost predicate SentAs(k: Kind, v: Py, x: Num)
    requires IsNumber(v)
  {
    if v.NpScalar? then Casts(k, ValueOf(v), x) else Represents(k, x, ValueOf(v))
  }

  /** The Python numbers that can be sent as a `k`. */
  predicate Sendable(k: Kind, v: Py) {
    match k
    case Double => (v.PyInt? || v.PyFloat? || v.PyBool? || v.NpScalar?) && -DOUBLE_MAX <= ValueOf(v).re <= DOUBLE_MAX
    case Single => (v.PyInt? || v.PyFloat? || v.PyBool? || v.NpScalar?) && -SINGLE_MAX <= ValueOf(v).re <= SINGLE_MAX
    case CDouble => v.PyComplex? || v.NpScalar?
    case CSingle => v.PyComplex? || v.NpScalar?
    case Bool => v.PyBool?
    case _ => (v.PyInt? && MinOf(k) <= v.n <= MaxOf(k)) || v.PyBool? || v.NpScalar?
  }

  /** Conversion sends the sendable numbers, and sends them as what they are. */
  lemma ConvertMeans(k: Kind, v: Py)
    ensures Convert(k, v).Just? <==> Sendable(k, v)
    ensures Convert(k, v).Just? ==> IsNumber(v) && SentAs(k, v, Convert(k, v).value)
  {
    if Integral(k) {
      IntegerMeans(k, v);
    } else if k.CDouble? || k.CSingle? {
      ComplexMeans(k, v);
    } else {
      RealMeans(k, v);
    }
  }

  lemma IntegerMeans(k: Kind, v: Py)
    requires Integral(k)
    ensures Convert(k, v).Just? <==> Sendable(k, v)
    ensures Convert(k, v).Just? ==> IsNumber(v) && SentAs(k, v, Convert(k, v).value)
  {
    hide Wrap, ToInt, Casts;
    if v.NpScalar? {
      CastMeans(k, v.x);
    }
  }

  lemma ComplexMeans(k: Kind, v: Py)
    requires k.CDouble? || k.CSingle?
    ensures Convert(k, v).Just? <==> Sendable(k, v)
    ensures Convert(k, v).Just? ==> IsNumber(v) && SentAs(k, v, Convert(k, v).value)
  {
  }

  lemma RealMeans(k: Kind, v: Py)
    requires k.Double? || k.Single? || k.Bool?
    ensures Convert(k, v).Just? <==> Sendable(k, v)
    ensures Convert(k, v).Just? ==> IsNumber(v) && SentAs(k, v, Convert(k, v).value)
  {
  }

  lemma CastMeans(k: Kind, x: Num)
    requires Integral(k)
    ensures Casts(k, ValueOfNum(x), I(Wrap(k, ToInt(x))))
  {
    var m := ToInt(x);
    TruncateMeans(ValueOfNum(x).re);
    IntegersAreWhole(m);
    assert IsTruncation(ValueOfNum(x).re, m);
    WrapMeans(k, m);
  }

  lemma TruncateMeans(r: real)
    ensures IsTruncation(r, Truncate(r))
  {
  }

  lemma IntegersAreWhole(n: int)
    ensures IsTruncation(n as real, n)
  {
  }

  lemma Multiples(m: int, q: int)
    requires m == 0x100 || m == 0x1_0000 || m == 0x1_0000_0000 || m == 0x1_0000_0000_0000_0000
    ensures (m * q) % m == 0
  {
  }

  lemma WrapMeans(k: Kind, n: int)
    requires Integral(k)
    ensures (n - Wrap(k, n)) % Width(k) == 0
  {
    var m := TwoTo(Bits(k));
    assert Width(k) == m;
    var q, u := n / m, n % m;
    assert n == m * q + u;
    if Signed(k) && u >= m / 2 {
      assert n - Wrap(k, n) == m * (q + 1);
      Multiples(m, q + 1);
    } else {
      assert n - Wrap(k, n) == m * q;
      Multiples(m, q);
    }
  }

  // ----- packing numbers

  /** The declared length admits `n` numbers: one for a scalar, the declared number for an array of fixed
      length, at most that many for one of bounded length, any number without a bound. */
  predicate LengthOk(t: TypeDef, n: nat) {
    match t.arr
    case NotArray => n == 1
    case MultiDim => true
    case Array => t.lengths != [] && (n == t.lengths[0] || (t.varLength && (n < t.lengths[0] || t.lengths[0] == 0)))
  }

  /** The numbers a value lists: itself, or its items. */
  function Given(v: Py): seq<Py> {
    match v
    case List(items) => items
    case ByteArray(bs) => seq(|bs|, i requires 0 <= i < |bs| => PyInt(bs[i]))
    case Str(s) => seq(|s|, i requires 0 <= i < |s| => Str([s[i]]))
    case _ => [v]
  }

  lemma GivenAreItems(v: Py)
    requires !v.NdArray? && (IsNumber(v) || IsSequence(v))
    ensures NumberItems(v) == Given(v)
  {
  }

  /** A number, or a list, byte array or string of them, given where numbers are declared: it is packed exactly
      if the length is admitted and every item is a number the kind can take, and then the message holds, item
      by item, the number of that kind with the value of the item. */
  lemma NumbersOnTheWire(env: Env, v: Py, t: TypeDef, k: Kind)
    requires t.base == Numeric(k) && t.container.NoContainer? && !(t.arr.MultiDim? && IsSequence(v))
    requires v != None && !v.NdArray? && PyOk(env, v)
    ensures var d := Pack(env, v, t);
            && (d.Ok? <==>
                  && (IsNumber(v) || IsSequence(v)) && LengthOk(t, |Given(v)|)
                  && forall i | 0 <= i < |Given(v)| :: Sendable(k, Given(v)[i]))
            && (d.Ok? ==> NumbersSent(k, Given(v), d.value))
  {
    hide PackNumbers, PackMultiDimNumbers, NumberItems, Given, Sendable, SentAs, LengthOk, NumbersSent;
    BytesOk(env, v);
    NumbersPacked(v, t, k);
    assert Pack(env, v, t) == PackPlain(env, v, t);
  }

  ghost predicate NumbersSent(k: Kind, items: seq<Py>, d: Data) {
    && d.Nums? && d.kind == k && |d.xs| == |items|
    && forall i | 0 <= i < |items| :: IsNumber(items[i]) && SentAs(k, items[i], d.xs[i])
  }

  lemma BytesOk(env: Env, v: Py)
    requires PyOk(env, v)
    ensures v.ByteArray? ==> forall b | b in v.bytes :: 0 <= b < 256
  {
  }

  lemma NumbersPacked(v: Py, t: TypeDef, k: Kind)
    requires !v.NdArray? && (v.ByteArray? ==> forall b | b in v.bytes :: 0 <= b < 256)
    ensures var xs := PackNumbers(v, t, k);
            && (xs.Ok? <==>
                  && (IsNumber(v) || IsSequence(v)) && LengthOk(t, |Given(v)|)
                  && forall i | 0 <= i < |Given(v)| :: Sendable(k, Given(v)[i]))
            && (xs.Ok? ==> NumbersSent(k, Given(v), Nums(k, xs.value)))
  {
    hide PackNumbers, NumberItems, Given, Sendable, SentAs, CheckLength, LengthOk, PackSequence, Convert, NumbersFrom;
    PacksItems(v, t, k);
    if IsNumber(v) || IsSequence(v) {
      GivenAreItems(v);
      PackedItems(Given(v), t, k);
      LengthsAgree(t, |Given(v)|);
      AllSendable(k, Given(v));
    }
  }

  lemma LengthsAgree(t: TypeDef, n: nat)
    ensures CheckLength(t, n).Ok? <==> LengthOk(t, n)
  {
  }

  lemma AllSendable(k: Kind, items: seq<Py>)
    ensures AllConvert(k, items) <==> forall i | 0 <= i < |items| :: Sendable(k, items[i])
    ensures AllConvert(k, items) ==> NumbersSent(k, items, Nums(k, NumbersFrom(items, k)))
  {
    hide Convert, Sendable, SentAs;
    forall i | 0 <= i < |items|
      ensures Converts(k, items[i]) <==> Sendable(k, items[i])
      ensures Converts(k, items[i]) ==> IsNumber(items[i]) && SentAs(k, items[i], Convert(k, items[i]).value)
    {
      ConvertMeans(k, items[i]);
    }
  }

  // ----- packing numeric arrays

  /** An array that is one row in some direction, or empty. */
  predicate OneRow(shape: seq<nat>) {
    || |shape| <= 1
    || (exists d | 0 <= d < |shape| :: shape[d] == 0)
    || exists d | 0 <= d < |shape| :: OnlyLong(shape, d)
  }

  /** Every dimension but `d` has length one. */
  predicate OnlyLong(shape: seq<nat>, d: nat)
    requires d < |shape|
  {
    shape[d] != 1 && forall e | 0 <= e < |shape| && e != d :: shape[e] == 1
  }

  predicate Units(shape: seq<nat>) {
    forall d | 0 <= d < |shape| :: shape[d] == 1
  }

  lemma {:induction false} NoNonUnit(shape: seq<nat>)
    ensures NonUnit(shape) == 0 <==> Units(shape)
  {
    if shape != [] {
      NoNonUnit(shape[1..]);
      UnitsTail(shape);
    }
  }

  lemma UnitsTail(shape: seq<nat>)
    requires shape != []
    ensures Units(shape) <==> shape[0] == 1 && Units(shape[1..])
  {
    assert forall d | 1 <= d < |shape| :: shape[d] == shape[1..][d - 1];
  }

  lemma OnlyLongTail(shape: seq<nat>, d: nat)
    requires d < |shape|
    ensures OnlyLong(shape, d) <==>
            if d == 0 then shape[0] != 1 && Units(shape[1..]) else shape[0] == 1 && OnlyLong(shape[1..], d - 1)
  {
    assert forall e | 1 <= e < |shape| :: shape[e] == shape[1..][e - 1];
    assert forall e | 0 <= e < |shape[1..]| :: shape[1..][e] == shape[e + 1];
  }

  lemma {:induction false} OneNonUnit(shape: seq<nat>)
    ensures NonUnit(shape) == 1 <==> exists d | 0 <= d < |shape| :: OnlyLong(shape, d)
  {
    hide OnlyLong, Units;
    if shape != [] {
      NoNonUnit(shape[1..]);
      OneNonUnit(shape[1..]);
      OnlyLongTail(shape, 0);
      if d :| 0 <= d < |shape[1..]| && OnlyLong(shape[1..], d) {
        OnlyLongTail(shape, d + 1);
      }
      if d :| 0 <= d < |shape| && OnlyLong(shape, d) {
        OnlyLongTail(shape, d);
      }
    }
  }

  /** A numpy array of numbers, given where numbers are declared: it has to be one row of the declared kind,
      and the message holds its elements in order. */
  lemma ArrayOnTheWire(env: Env, v: Py, t: TypeDef, k: Kind)
    requires t.base == Numeric(k) && t.container.NoContainer? && !t.arr.MultiDim? && v.NdArray?
    ensures var d := Pack(env, v, t);
            && (d.Ok? <==> v.dtype == DNum(k) && OneRow(v.shape))
            && (d.Ok? ==>
                  && d.value.Nums? && d.value.kind == k && |d.value.xs| == |v.cells|
                  && forall i | 0 <= i < |v.cells| && v.cells[i].NumCell? :: d.value.xs[i] == v.cells[i].x)
  {
    OneNonUnit(v.shape);
    var xs := PackNumbers(v, t, k);
    assert xs == PackNumpy(v, k);
    assert (0 in v.shape) <==> exists d | 0 <= d < |v.shape| :: v.shape[d] == 0;
    hide NonUnit;
    assert Pack(env, v, t) == PackPlain(env, v, t);
  }

  /** The same for a multi-dimensional array: its dimensions have to be the declared ones, if there are any, and
      the message lists them and the elements, the first index varying fastest. */
  lemma MultiDimOnTheWire(env: Env, v: Py, t: TypeDef, k: Kind, idx: seq<nat>)
    requires t.base == Numeric(k) && t.container.NoContainer? && t.arr.MultiDim? && v.NdArray?
    requires |v.cells| == Product(v.shape) && (forall c | c in v.cells :: c.NumCell?) && InBounds(v.shape, idx)
    ensures RowIndex(v.shape, idx) < |v.cells|
    ensures var d := Pack(env, v, t);
            && (d.Ok? <==> v.dtype == DNum(k) && (t.varLength || t.lengths == v.shape))
            && (d.Ok? ==>
                  && d.value.Nested? && d.value.typ.MultiDimT? && |d.value.elems| == 2
                  && var dims, numbers := d.value.elems[0], d.value.elems[1];
                     && dims.id == Name("dims") && numbers.id == Name("array")
                     && dims.data.Nums? && dims.data.kind.UInt32? && |dims.data.xs| == |v.shape|
                     && (forall i | 0 <= i < |v.shape| :: dims.data.xs[i] == I(v.shape[i]))
                     && numbers.data.Nums? && numbers.data.kind == k && |numbers.data.xs| == |v.cells|
                     && ColumnIndex(v.shape, idx) < |v.cells|
                     && numbers.data.xs[ColumnIndex(v.shape, idx)] == v.cells[RowIndex(v.shape, idx)].x)
  {
    hide Flattened, Product, RowIndex, ColumnIndex, MultiDimElems;
    MultiDimPacked(env, v, t, k);
    DimsAreSent(v.shape, Nums(k, Flattened(v.shape, CellNums(v.cells))));
    ListedAt(v.shape, v.cells, idx);
  }

  lemma MultiDimPacked(env: Env, v: Py, t: TypeDef, k: Kind)
    requires t.base == Numeric(k) && t.container.NoContainer? && t.arr.MultiDim? && v.NdArray?
    ensures Pack(env, v, t)
         == if v.dtype == DNum(k) && (t.varLength || t.lengths == v.shape) then
              Ok(Nested(MultiDimT, "", MultiDimElems(v.shape, Nums(k, Flattened(v.shape, CellNums(v.cells))))))
            else Fail(DataTypeError)
  {
    hide Flattened, MultiDimElems;
    assert Pack(env, v, t) == PackPlain(env, v, t);
  }

  lemma DimsAreSent(shape: seq<nat>, numbers: Data)
    ensures var es := MultiDimElems(shape, numbers);
            && |es| == 2 && es[0].id == Name("dims") && es[1] == Elem(Name("array"), numbers)
            && es[0].data.Nums? && es[0].data.kind.UInt32? && |es[0].data.xs| == |shape|
            && forall i | 0 <= i < |shape| :: es[0].data.xs[i] == I(shape[i])
  {
  }

  lemma ListedAt(shape: seq<nat>, cells: seq<Cell>, idx: seq<nat>)
    requires |cells| == Product(shape) && (forall c | c in cells :: c.NumCell?) && InBounds(shape, idx)
    ensures var xs := Flattened(shape, CellNums(cells));
            && |xs| == |cells| && ColumnIndex(shape, idx) < |cells| && RowIndex(shape, idx) < |cells|
            && cells[RowIndex(shape, idx)].NumCell?
            && xs[ColumnIndex(shape, idx)] == cells[RowIndex(shape, idx)].x
  {
    RowIndexInverse(shape, idx);
    ColumnIndexInverse(shape, idx);
    assert cells[RowIndex(shape, idx)] in cells;
    var xs := CellNums(cells);
    assert Flattened(shape, xs)[ColumnIndex(shape, idx)] == xs[RowPosition(shape, ColumnIndex(shape, idx))];
  }

  // ----- what comes back

  /** A number comes back as the Python number of the kind's class with the value it was sent as. */
  lemma NumberComesBack(env: Env, v: Py, t: TypeDef, k: Kind)
    requires t.base == Numeric(k) && t.container.NoContainer? && t.arr.NotArray?
    requires IsNumber(v) && PyOk(env, v) && Fits(env, v, t, false)
    ensures var w := Back(env, v, t, false);
            && IsNumber(w) && Pack(env, v, t).Ok?
            && (if Integral(k) then w.PyInt? else match k
                case Bool => w.PyBool?
                case CDouble => w.PyComplex?
                case CSingle => w.PyComplex?
                case _ => w.PyFloat?)
            && (!v.NpScalar? ==> ValueOf(w) == ValueOf(v))
            && (v.NpScalar? && (k.Double? || k.Single?) ==> ValueOf(w) == Value(ValueOf(v).re, 0.0))
            && (v.NpScalar? && (k.CDouble? || k.CSingle?) ==> ValueOf(w) == ValueOf(v))
  {
    hide Convert, SentAs, Sendable;
    NumberFits(env, v, t, k);
    ConvertMeans(k, v);
    var x := Convert(k, v).value;
    NumberBack(env, v, t, k);
    NativeMeans(k, v, x);
  }

  lemma NumberFits(env: Env, v: Py, t: TypeDef, k: Kind)
    requires t.base == Numeric(k) && t.container.NoContainer? && t.arr.NotArray? && IsNumber(v)
    ensures Fits(env, v, t, false) <==> Convert(k, v).Just?
    ensures Pack(env, v, t).Ok? <==> Convert(k, v).Just?
  {
    hide Convert;
    assert [v][0] == v;
  }

  lemma NumberBack(env: Env, v: Py, t: TypeDef, k: Kind)
    requires t.base == Numeric(k) && t.container.NoContainer? && t.arr.NotArray? && IsNumber(v)
    requires Convert(k, v).Just?
    ensures Back(env, v, t, false) == Native(Convert(k, v).value)
  {
    hide Convert, Native;
    assert NumberItems(v) == [v];
    assert NumbersOf(v, k) == [Convert(k, v).value];
  }

  lemma NativeMeans(k: Kind, v: Py, x: Num)
    requires IsNumber(v) && SentAs(k, v, x)
    ensures var w := Native(x);
            && IsNumber(w) && ValueOf(w) == ValueOfNum(x)
            && (if Integral(k) then w.PyInt? else match k
                case Bool => w.PyBool?
                case CDouble => w.PyComplex?
                case CSingle => w.PyComplex?
                case _ => w.PyFloat?)
            && (!v.NpScalar? ==> ValueOfNum(x) == ValueOf(v))
            && (v.NpScalar? && (k.Double? || k.Single?) ==> ValueOfNum(x) == Value(ValueOf(v).re, 0.0))
            && (v.NpScalar? && (k.CDouble? || k.CSingle?) ==> ValueOfNum(x) == ValueOf(v))
  {
  }

  /** An integer given for a double arrives as the float of the same value. */
  lemma IntegerForDouble(env: Env, n: int, t: TypeDef)
    requires t.base == Numeric(Double) && t.container.NoContainer? && t.arr.NotArray?
    ensures Fits(env, PyInt(n), t, false) <==> -DOUBLE_MAX <= n as real <= DOUBLE_MAX
    ensures Fits(env, PyInt(n), t, false) ==>
              && Pack(env, PyInt(n), t) == Ok(Nums(Double, [F(n as real)]))
              && Back(env, PyInt(n), t, false) == PyFloat(n as real)
  {
    var v := PyInt(n);
    NumberFits(env, v, t, Double);
    ConvertMeans(Double, v);
    if Fits(env, v, t, false) {
      NumberComesBack(env, v, t, Double);
      NumbersOnTheWire(env, v, t, Double);
      assert Given(v) == [v];
      var d := Pack(env, v, t).value;
      assert SentAs(Double, [v][0], d.xs[0]);
      assert d.xs == [F(n as real)];
    }
  }
}
