/** Service type definitions, Python values and message elements. */
module Types {
  import opened ColumnMajor

  // ----- numbers

  datatype Kind =
    | Double | Single
    | Int8 | UInt8 | Int16 | UInt16 | Int32 | UInt32 | Int64 | UInt64
    | CDouble | CSingle | Bool

  datatype Num = I(n: int) | F(r: real) | C(re: real, im: real) | B(b: bool)

  predicate Integral(k: Kind) {
    k.Int8? || k.UInt8? || k.Int16? || k.UInt16? || k.Int32? || k.UInt32? || k.Int64? || k.UInt64?
  }

  function Bits(k: Kind): nat
    requires Integral(k)
  {
    match k
    case Int8 => 8 case UInt8 => 8
    case Int16 => 16 case UInt16 => 16
    case Int32 => 32 case UInt32 => 32
    case Int64 => 64 case UInt64 => 64
  }

  function TwoTo(b: nat): int {
    if b == 8 then 0x100 else if b == 16 then 0x1_0000
    else if b == 32 then 0x1_0000_0000 else 0x1_0000_0000_0000_0000
  }

  predicate Signed(k: Kind) {
    k.Int8? || k.Int16? || k.Int32? || k.Int64?
  }

  function MinOf(k: Kind): int
    requires Integral(k)
  {
    if Signed(k) then -(TwoTo(Bits(k)) / 2) else 0
  }

  function MaxOf(k: Kind): int
    requires Integral(k)
  {
    if Signed(k) then TwoTo(Bits(k)) / 2 - 1 else TwoTo(Bits(k)) - 1
  }

  predicate InRange(k: Kind, n: int)
    requires Integral(k)
  {
    MinOf(k) <= n <= MaxOf(k)
  }

  const SINGLE_MAX: real := 340282346638528859811704183484516925440.0
  const DOUBLE_MAX: real := 179769313486231570814527423731704356798070567525844996598917476803157260780028538760589558632766878171540458953514382464234321326889464182768467546703537516986049910576551282076245490090389328944075868508455133942304583236903222948165808559332123348274797826204144723168738177180919299881250404026184124858368.0

  /** The largest finite value of a floating kind. */
  function FloatMax(k: Kind): real {
    if k.Single? then SINGLE_MAX else DOUBLE_MAX
  }

  /** `x` is a value a numpy or wire array of kind `k` can hold. */
  predicate NumOk(k: Kind, x: Num) {
    if Integral(k) then x.I? && InRange(k, x.n)
    else match k
      case Double => x.F? && -DOUBLE_MAX <= x.r <= DOUBLE_MAX
      case Single => x.F? && -SINGLE_MAX <= x.r <= SINGLE_MAX
      case Bool => x.B?
      case _ => x.C?
  }

  predicate NumsOk(k: Kind, xs: seq<Num>) {
    forall x | x in xs :: NumOk(k, x)
  }

  function Zero(k: Kind): (x: Num)
    ensures NumOk(k, x)
  {
    if Integral(k) then I(0)
    else if k.Double? || k.Single? then F(0.0)
    else if k.Bool? then B(false)
    else C(0.0, 0.0)
  }

  // ----- type definitions

  datatype Container = NoContainer | ListOf | MapInt32 | MapString
  datatype ArrayKind = NotArray | Array | MultiDim

  /** A resolved named type. Pods and named arrays carry their fields, so their nesting is acyclic;
      structures and enums are known by qualified name. */
  datatype NamedDef =
    | Structure(qname: string)
    | Enum(qname: string)
    | Pod(qname: string, fields: seq<Field>)
    | NamedArray(qname: string, fields: seq<Field>)

  datatype Base = Void | Numeric(kind: Kind) | Text | VarValue | Named(def: NamedDef)

  datatype TypeDef = TypeDef(name: string, base: Base, arr: ArrayKind, varLength: bool,
                             lengths: seq<nat>, container: Container)

  datatype Field = Field(name: string, typ: TypeDef)

  /** The service definitions reachable from a node. */
  datatype Env = Env(structs: map<string, seq<Field>>, pods: map<string, seq<Field>>,
                     named: map<string, seq<Field>>)

  function RemoveContainers(t: TypeDef): TypeDef {
    t.(container := NoContainer)
  }

  /** Pod fields of multi-dimensional type travel as one fixed-length array. */
  function FlattenType(t: TypeDef): TypeDef {
    if t.arr.MultiDim? then t.(arr := Array, lengths := [Product(t.lengths)], varLength := false) else t
  }

  predicate DistinctNames(fs: seq<Field>) {
    forall i, j | 0 <= i < j < |fs| :: fs[i].name != fs[j].name
  }

  // ----- layout of named arrays

  /** The number of elements one field holds: one for a scalar, the product of the dimensions else. */
  function Multiplicity(t: TypeDef): nat {
    if t.arr.NotArray? then 1 else Product(t.lengths)
  }

  /** The number of numbers one structure of a named array type holds. */
  function Count(fs: seq<Field>): nat {
    if fs == [] then 0 else FieldCount(fs[0]) + Count(fs[1..])
  }

  function FieldCount(f: Field): nat {
    match f.typ.base
    case Named(NamedArray(_, fields)) => Multiplicity(f.typ) * Count(fields)
    case _ => Multiplicity(f.typ)
  }

  /** The element type of a named array: the kind of its first numeric field. */
  function ElementKind(fs: seq<Field>): Kind {
    if fs == [] then Double
    else match fs[0].typ.base
      case Numeric(k) => k
      case Named(NamedArray(_, fields)) => ElementKind(fields)
      case _ => Double
  }

  /** `fs` is a named array definition over elements of kind `k`: no containers, no variable
      lengths, every number of the same kind. */
  predicate NamedArrayOk(fs: seq<Field>, k: Kind) {
    && fs != []
    && forall f | f in fs :: NamedArrayFieldOk(f, k)
  }

  predicate NamedArrayFieldOk(f: Field, k: Kind) {
    && f.typ.container.NoContainer?
    && (f.typ.arr.NotArray? || !f.typ.varLength)
    && (f.typ.arr.Array? ==> |f.typ.lengths| == 1)
    && match f.typ.base
       case Numeric(k') => k' == k
       case Named(NamedArray(_, fields)) => NamedArrayOk(fields, k)
       case _ => false
  }

  // ----- Python values

  /** The element type of a numpy array: numbers, or the records of a pod or named array. */
  datatype DType = DNum(kind: Kind) | DNamed(qname: string)

  /** One element of a numpy array. A record lists its fields in the order of its definition. */
  datatype Cell = NumCell(x: Num) | Record(fields: seq<Slot>)

  /** A field of a record: a scalar or sub-array in row-major order, or, for a variable-length
      field, its length and its padded array. */
  datatype Slot = Fixed(shape: seq<nat>, cells: seq<Cell>) | Padded(len: int, cells: seq<Cell>)

  datatype Py =
    | None
    | PyInt(n: int)
    | PyFloat(r: real)
    | PyComplex(re: real, im: real)
    | PyBool(b: bool)
    | NpScalar(kind: Kind, x: Num)
    | Str(s: string)
    | ByteArray(bytes: seq<int>)
    | NdArray(dtype: DType, shape: seq<nat>, cells: seq<Cell>)
    | List(items: seq<Py>)
    | Dict(entries: seq<Entry>)
    | Struct(pyType: string, attrs: seq<Attr>)
    | VarVal(data: Py, typ: TypeDef)

  datatype Entry = Entry(key: Py, value: Py)
  datatype Attr = Attr(name: string, value: Py)

  function NumCells(xs: seq<Num>): (cs: seq<Cell>)
    ensures |cs| == |xs|
  {
    seq(|xs|, i requires 0 <= i < |xs| => NumCell(xs[i]))
  }

  /** The number in an element of a numeric array. */
  function CellNum(c: Cell): Num {
    if c.NumCell? then c.x else I(0)
  }

  function CellNums(cs: seq<Cell>): (xs: seq<Num>)
    ensures |xs| == |cs|
  {
    seq(|cs|, i requires 0 <= i < |cs| => CellNum(cs[i]))
  }

  // ----- message elements

  datatype NestedKind =
    | StructureT | VectorT | DictionaryT | ListT | MultiDimT
    | PodT | PodArrayT | PodMultiDimT | NamedArrayT | NamedMultiDimT

  /** Elements are identified by a name or by a number. */
  datatype Id = Name(s: string) | Number(i: int)

  datatype Data =
    | Null
    | Nums(kind: Kind, xs: seq<Num>)
    | Chars(s: string)
    | Nested(typ: NestedKind, typeName: string, elems: seq<Elem>)

  datatype Elem = Elem(id: Id, data: Data)

  // ----- results

  datatype ErrorKind =
    | DataTypeError | RangeError | CastError | ServiceError
    | InternalError | NotFoundError | ThrownPointer | PendingError

  /** One level of the path to the value being packed. */
  datatype Level =
    | Member(name: string)
    | Index(i: int)
    | QuotedKey(key: string)
    | BareKey(key: string)

  datatype Frame = Frame(level: Level, typ: Option<TypeDef>)

  datatype Option<+T> = Nothing | Just(value: T)

  /** A value, or an error with the path from the current value down to the one it concerns. */
  datatype Result<+T> = Ok(value: T) | Err(error: ErrorKind, path: seq<Frame>) {
    predicate IsFailure() { Err? }

    function PropagateFailure<U>(): Result<U>
      requires Err?
    {
      Err(error, path)
    }

    function Extract(): T
      requires Ok?
    {
      value
    }
  }

  function Fail<T>(e: ErrorKind): Result<T> {
    Err(e, [])
  }

  /** An error found one level further down. */
  function Within<T>(f: Frame, r: Result<T>): Result<T> {
    if r.Err? then Err(r.error, [f] + r.path) else r
  }

  /** The first element of that name. */
  function FindElement(es: seq<Elem>, name: string): Option<Elem> {
    if es == [] then Nothing
    else if es[0].id == Name(name) then Just(es[0])
    else FindElement(es[1..], name)
  }
}
