/** What `PackMessageElementImpl` computes: from a Python value and a declared type to message data,
    or an error with the field path to the value it concerns. */
module Packing {
  import opened ColumnMajor
  import opened Types

  // ----- well-formed definitions and values

  /** Pod definitions as the service definition verifier admits them. */
  ghost predicate PodOk(env: Env, fs: seq<Field>) {
    && DistinctNames(fs)
    && forall f | f in fs :: PodFieldOk(env, f)
  }

  ghost predicate PodFieldOk(env: Env, f: Field) {
    && f.typ.container.NoContainer?
    && (f.typ.arr.NotArray? ==> f.typ.lengths == [])
    && (f.typ.arr.Array? ==> |f.typ.lengths| == 1)
    && (f.typ.arr.MultiDim? ==> !f.typ.varLength)
    && match f.typ.base
       case Numeric(_) => true
       case Named(Pod(q, fields)) => q in env.pods && env.pods[q] == fields && PodOk(env, fields)
       case Named(NamedArray(q, fields)) => NamedDefOk(env, q, fields)
       case _ => false
  }

  ghost predicate NamedDefOk(env: Env, q: string, fs: seq<Field>) {
    && q in env.named && env.named[q] == fs
    && NamedArrayOk(fs, ElementKind(fs)) && Count(fs) > 0
  }

  ghost predicate TypeOk(env: Env, t: TypeDef) {
    && (t.arr.Array? && t.base.Numeric? ==> |t.lengths| == 1)
    && (t.arr.NotArray? ==> t.lengths == [])
    && (t.base.Void? ==> t.container.NoContainer?)
    && match t.base
       case Named(Structure(q)) => q in env.structs
       case Named(Pod(q, fields)) => q in env.pods && env.pods[q] == fields && PodOk(env, fields)
       case Named(NamedArray(q, fields)) => NamedDefOk(env, q, fields)
       case _ => true
  }

  ghost predicate EnvOk(env: Env) {
    && (forall q | q in env.structs ::
          DistinctNames(env.structs[q]) && forall f | f in env.structs[q] :: TypeOk(env, f.typ))
    && (forall q | q in env.pods :: PodOk(env, env.pods[q]))
    && (forall q | q in env.named :: NamedDefOk(env, q, env.named[q]))
  }

  /** A record laid out by the numpy descriptor of a pod or named array. */
  predicate CellOk(fs: seq<Field>, c: Cell) {
    && c.Record? && |c.fields| == |fs|
    && forall i | 0 <= i < |fs| :: SlotOk(fs[i].typ, c.fields[i])
  }

  predicate SlotOk(t: TypeDef, s: Slot) {
    if t.arr.Array? && t.varLength then
      && s.Padded? && t.lengths != [] && |s.cells| == t.lengths[0]
      && forall c | c in s.cells :: ElementOk(t.base, c)
    else
      && s.Fixed? && s.shape == SlotShape(t) && |s.cells| == Product(s.shape)
      && forall c | c in s.cells :: ElementOk(t.base, c)
  }

  function SlotShape(t: TypeDef): seq<nat> {
    if t.arr.NotArray? then [] else t.lengths
  }

  predicate ElementOk(b: Base, c: Cell) {
    match b
    case Numeric(k) => c.NumCell? && NumOk(k, c.x)
    case Named(Pod(_, fields)) => CellOk(fields, c)
    case Named(NamedArray(_, fields)) => CellOk(fields, c)
    case _ => false
  }

  /** numpy arrays hold as many elements as their shape says, each laid out by their dtype. */
  predicate ArrayOk(env: Env, d: DType, shape: seq<nat>, cells: seq<Cell>) {
    && |cells| == Product(shape)
    && match d
       case DNum(k) => forall c | c in cells :: c.NumCell? && NumOk(k, c.x)
       case DNamed(q) =>
         && (q in env.pods ==> forall c | c in cells :: CellOk(env.pods[q], c))
         && (q in env.named ==> forall c | c in cells :: CellOk(env.named[q], c))
  }

  /** Python takes equal numbers for the same dictionary key, whatever their type. */
  predicate SameKey(a: Py, b: Py) {
    a == b || (IntKeyOk(a) && IntKeyOk(b) && KeyNumber(a) == KeyNumber(b))
  }

  /** Python values whose arrays are proper numpy arrays and whose varvalue types resolve. */
  ghost predicate PyOk(env: Env, v: Py) {
    match v
    case NpScalar(k, x) => NumOk(k, x)
    case PyFloat(r) => -DOUBLE_MAX <= r <= DOUBLE_MAX
    case ByteArray(bs) => forall b | b in bs :: 0 <= b < 256
    case NdArray(d, shape, cells) => ArrayOk(env, d, shape, cells)
    case List(items) => forall x | x in items :: PyOk(env, x)
    case Dict(entries) =>
      && (forall e | e in entries :: PyOk(env, e.value))
      && forall i, j | 0 <= i < j < |entries| :: !SameKey(entries[i].key, entries[j].key)
    case Struct(_, attrs) => forall a | a in attrs :: PyOk(env, a.value)
    case VarVal(data, typ) => TypeOk(env, typ) && PyOk(env, data)
    case _ => true
  }

  // ----- numbers

  /** Conversion of an integer to a kind of limited width, as a C cast makes it. */
  function Wrap(k: Kind, n: int): (r: int)
    requires Integral(k)
    ensures InRange(k, r) && (InRange(k, n) ==> r == n)
  {
    var m := TwoTo(Bits(k));
    var u := n % m;
    if Signed(k) && u >= m / 2 then u - m else u
  }

  function Truncate(r: real): int {
    if r >= 0.0 then r.Floor else -((-r).Floor)
  }

  function ToInt(x: Num): int {
    match x case I(n) => n case F(r) => Truncate(r) case C(re, _) => Truncate(re) case B(b) => if b then 1 else 0
  }

  function ToReal(x: Num): real {
    match x case I(n) => n as real case F(r) => r case C(re, _) => re case B(b) => if b then 1.0 else 0.0
  }

  function BoundedReal(k: Kind, r: real): Option<Num> {
    if -FloatMax(k) <= r <= FloatMax(k) then Just(F(r)) else Nothing
  }

  function BoundedInt(k: Kind, n: int): Option<Num>
    requires Integral(k)
  {
    if InRange(k, n) then Just(I(n)) else Nothing
  }

  /** One item of a sequence, converted to kind `k`; nothing when the packer refuses it. */
  function Convert(k: Kind, v: Py): Option<Num> {
    if Integral(k) then
      match v
      case PyInt(n) => BoundedInt(k, n)
      case PyBool(b) => Just(I(if b then 1 else 0))
      case NpScalar(_, x) => Just(I(Wrap(k, ToInt(x))))
      case _ => Nothing
    else match k
      case Bool => if v.PyBool? then Just(B(v.b)) else Nothing
      case CDouble => ConvertComplex(v)
      case CSingle => ConvertComplex(v)
      case _ =>
        match v
        case PyFloat(r) => BoundedReal(k, r)
        case PyInt(n) => BoundedReal(k, n as real)
        case PyBool(b) => Just(F(if b then 1.0 else 0.0))
        case NpScalar(_, x) => BoundedReal(k, ToReal(x))
        case _ => Nothing
  }

  function ConvertComplex(v: Py): Option<Num> {
    match v
    case PyComplex(re, im) => Just(C(re, im))
    case NpScalar(_, x) => Just(if x.C? then x else C(ToReal(x), 0.0))
    case _ => Nothing
  }

  predicate Converts(k: Kind, v: Py) {
    Convert(k, v).Just?
  }

  /** A whole sequence, converted item by item. */
  function ConvertAll(k: Kind, items: seq<Py>): (xs: seq<Num>)
    requires forall i | 0 <= i < |items| :: Converts(k, items[i])
    ensures |xs| == |items|
  {
    seq(|items|, i requires 0 <= i < |items| => assert Converts(k, items[i]); Convert(k, items[i]).value)
  }

  predicate IsNumber(v: Py) {
    v.PyInt? || v.PyFloat? || v.PyComplex? || v.PyBool? || v.NpScalar?
  }

  predicate IsSequence(v: Py) {
    v.List? || v.Str? || v.ByteArray? || v.NdArray?
  }

  /** Values that hold other Python values. */
  predicate Deep(v: Py) {
    v.List? || v.Dict? || v.VarVal? || (v.Struct? && v.attrs != [])
  }

  /** Descending into a value ends: its items are parts of it, or hold no values themselves and are
      packed as a type without containers. */
  function Rank(v: Py, plain: bool): nat {
    if Deep(v) then 4 else if plain then 0 else 2
  }

  ghost function RankOf(items: seq<Py>, plain: bool): nat {
    if exists x | x in items :: Deep(x) then 4 else if plain then 1 else 3
  }

  /** Element `i` of a numpy array: a scalar, a sub-array, or the scalar of a record, an object of a
      class no type accepts. */
  function ArrayItem(dtype: DType, shape: seq<nat>, cells: seq<Cell>, i: nat): (r: Py)
    requires shape != []
    ensures !Deep(r) && r != None
  {
    if |shape| > 1 then
      var n := Product(shape[1..]);
      NdArray(dtype, shape[1..], if i * n + n <= |cells| then cells[i * n..i * n + n] else [])
    else match dtype
      case DNum(k) => NpScalar(k, if i < |cells| then CellNum(cells[i]) else I(0))
      case DNamed(_) => Struct("numpy.void", [])
  }

  /** The items of a list, text, byte array or numpy array. */
  function Items(v: Py): (items: seq<Py>)
    requires IsSequence(v)
    ensures v.List? ==> items == v.items
    ensures !v.List? ==> forall i | 0 <= i < |items| :: !Deep(items[i]) && items[i] != None
  {
    match v
    case List(items) => items
    case Str(s) => seq(|s|, i requires 0 <= i < |s| => Str([s[i]]))
    case ByteArray(bs) => seq(|bs|, i requires 0 <= i < |bs| => PyInt(bs[i]))
    case NdArray(d, shape, cells) =>
      if shape == [] then []
      else seq(shape[0], i requires 0 <= i < shape[0] => ArrayItem(d, shape, cells, i))
  }

  /** What the loops over a sequence go through. Sequences have to be short enough to be counted by an
      int32, and arrays without dimensions have no size. */
  predicate Iterable(v: Py) {
    IsSequence(v) && !(v.NdArray? && v.shape == []) && |Items(v)| <= INT32_MAX
  }

  function Iterate(v: Py): (r: Result<seq<Py>>)
    requires IsSequence(v)
    ensures r.Ok? ==> r.value == Items(v)
    ensures r.Ok? <==> Iterable(v)
    ensures r.Err? ==> r.path == []
  {
    if v.NdArray? && v.shape == [] then Fail(PendingError)
    else if |Items(v)| > INT32_MAX then Fail(CastError)
    else Ok(Items(v))
  }

  /** The declared length admits an array of `n` elements. */
  function CheckLength(t: TypeDef, n: nat): Result<()> {
    match t.arr
    case NotArray => if n == 1 then Ok(()) else Fail(DataTypeError)
    case MultiDim => Ok(())
    case Array =>
      if t.lengths == [] then Fail(RangeError)
      else if !t.varLength then if t.lengths[0] == n then Ok(()) else Fail(DataTypeError)
      else if t.lengths[0] == 0 || n <= t.lengths[0] then Ok(()) else Fail(DataTypeError)
  }

  /** The number of dimensions whose length is not one. */
  function NonUnit(shape: seq<nat>): nat {
    if shape == [] then 0 else (if shape[0] == 1 then 0 else 1) + NonUnit(shape[1..])
  }

  /** The numpy branch: any length is accepted, but the array must be flat and of the right dtype. */
  function PackNumpy(v: Py, k: Kind): Result<seq<Num>>
    requires v.NdArray?
  {
    if v.dtype != DNum(k) then Fail(DataTypeError)
    else if |v.shape| > 1 && 0 !in v.shape && NonUnit(v.shape) != 1 then Fail(DataTypeError)
    else Ok(CellNums(v.cells))
  }

  /** `PackToRRArray1_int` and its siblings for the other kinds. */
  function PackSequence(items: seq<Py>, t: TypeDef, k: Kind): Result<seq<Num>> {
    var _ :- CheckLength(t, |items|);
    if forall i | 0 <= i < |items| :: Converts(k, items[i]) then Ok(ConvertAll(k, items)) else Fail(DataTypeError)
  }

  /** `PackToRRArray`. */
  function PackNumbers(v: Py, t: TypeDef, k: Kind): Result<seq<Num>> {
    if v.NdArray? then PackNumpy(v, k)
    else if IsNumber(v) then PackSequence([v], t, k)
    else if k.UInt8? && v.ByteArray? then
      var _ :- CheckLength(t, |v.bytes|);
      Ok(seq(|v.bytes|, i requires 0 <= i < |v.bytes| => I(v.bytes[i])))
    else if !IsSequence(v) then Fail(DataTypeError)
    else PackSequence(Items(v), t, k)
  }

  // ----- multi-dimensional arrays

  function DimsData(shape: seq<nat>): Data {
    Nums(UInt32, seq(|shape|, i requires 0 <= i < |shape| => I(shape[i])))
  }

  function MultiDimElems(shape: seq<nat>, numbers: Data): seq<Elem> {
    [Elem(Name("dims"), DimsData(shape)), Elem(Name("array"), numbers)]
  }

  /** `PackToRRMultiDimArray_numpy` followed by the check of fixed dimensions. */
  function PackMultiDimNumbers(v: Py, t: TypeDef, k: Kind): Result<Data>
  {
    if !v.NdArray? then Fail(DataTypeError)
    else if v.dtype != DNum(k) then Fail(DataTypeError)
    else if !t.varLength && t.lengths != v.shape then Fail(DataTypeError)
    else
      Ok(Nested(MultiDimT, "", MultiDimElems(v.shape, Nums(k, Flattened(v.shape, CellNums(v.cells))))))
  }

  // ----- named arrays and pods

  /** The declared dimensions of an array of records admit `n` of them. */
  function CheckRecords(t: TypeDef, n: nat): Result<()> {
    if t.arr.NotArray? && n != 1 then Fail(DataTypeError)
    else if RecordLimit(t, n) then Ok(()) else Fail(DataTypeError)
  }

  predicate RecordLimit(t: TypeDef, n: nat) {
    var c := Product(t.lengths);
    t.lengths == [] || c == 0 || (if t.varLength then n <= c else n == c)
  }

  /** The numbers of a record in memory order. */
  function FlattenCell(c: Cell): seq<Num> {
    match c
    case NumCell(x) => [x]
    case Record(slots) => FlattenSlots(slots)
  }

  function FlattenSlots(slots: seq<Slot>): seq<Num> {
    if slots == [] then [] else FlattenCells(slots[0].cells) + FlattenSlots(slots[1..])
  }

  function FlattenCells(cs: seq<Cell>): seq<Num> {
    if cs == [] then [] else FlattenCell(cs[0]) + FlattenCells(cs[1..])
  }

  function PackNamedArray(t: TypeDef, q: string, fs: seq<Field>, shape: seq<nat>, cells: seq<Cell>): Result<Data> {
    var _ :- CheckRecords(t, |cells|);
    var xs := FlattenCells(Flattened(shape, cells));
    Ok(Nested(NamedArrayT, q, [Elem(Name("array"), Nums(ElementKind(fs), xs))]))
  }

  /** An array of pods: the records in column-major order, each a nested element list. The first
      `Product(shape)` of `cells` are packed. */
  function PackPods(t: TypeDef, q: string, fs: seq<Field>, shape: seq<nat>, cells: seq<Cell>): Result<Data>
    decreases cells, Product(shape) + 1
  {
    var order := FortranOrder(shape);
    var _ :- CheckRecords(t, |order|);
    if |order| > |cells| then Fail(InternalError)
    else
      var es :- PackRecords(fs, order, cells, 0);
      Ok(Nested(PodArrayT, q, es))
  }

  function PackRecords(fs: seq<Field>, order: seq<nat>, cells: seq<Cell>, k: nat): Result<seq<Elem>>
    requires k <= |order| && forall p | p in order :: p < |cells|
    decreases cells, |order| - k
  {
    if k == |order| then Ok([])
    else
      assert order[k] in order;
      var es :- PackCell(fs, cells[order[k]]);
      var rest :- PackRecords(fs, order, cells, k + 1);
      Ok([Elem(Number(k), Nested(PodT, "", es))] + rest)
  }

  function PackCell(fs: seq<Field>, c: Cell): Result<seq<Elem>>
    decreases c
  {
    if c.Record? then PackSlots(fs, c.fields) else Fail(InternalError)
  }

  function PackSlots(fs: seq<Field>, slots: seq<Slot>): Result<seq<Elem>>
    decreases slots
  {
    if fs == [] then Ok([])
    else if slots == [] then Fail(InternalError)
    else
      var d :- PackSlot(fs[0].typ, slots[0]);
      var rest :- PackSlots(fs[1..], slots[1..]);
      Ok([Elem(Name(fs[0].name), d)] + rest)
  }

  /** The dimensions of the array a field is packed as: those of a numpy scalar wrapped in an array,
      the length of a variable-length field, or the declared ones. */
  function SlotDims(t: TypeDef, s: Slot): seq<nat> {
    if s.Padded? then [if s.len < 0 then 0 else s.len]
    else if t.arr.NotArray? then [1]
    else s.shape
  }

  /** One pod field. Multi-dimensional fields are flattened column-major, variable-length fields
      cut to their length. */
  function PackSlot(t: TypeDef, s: Slot): Result<Data>
    decreases s
  {
    if s.Padded? && s.len > |s.cells| then Fail(DataTypeError)
    else if s.Padded? && s.len < 0 then Fail(InternalError)
    else
      var dims := SlotDims(t, s);
      var cells := if Product(dims) <= |s.cells| then s.cells[..Product(dims)] else s.cells;
      match t.base
      case Numeric(k) =>
        var xs :- PackNumericSlot(t, dims, cells, k);
        Ok(Nums(k, xs))
      case Named(Pod(q, fields)) => PackPods(FlattenType(t), q, fields, dims, s.cells)
      case Named(NamedArray(q, fields)) => PackNamedArray(FlattenType(t), q, fields, dims, cells)
      case _ => Fail(DataTypeError)
  }

  function PackNumericSlot(t: TypeDef, dims: seq<nat>, cells: seq<Cell>, k: Kind): Result<seq<Num>> {
    var t2 := FlattenType(t);
    if t.arr.NotArray? then
      if cells == [] then Fail(InternalError) else PackNumbers(NpScalar(k, CellNum(cells[0])), t2, k)
    else if t.arr.MultiDim? then PackNumbers(NdArray(DNum(k), t2.lengths, Flattened(dims, cells)), t2, k)
    else PackNumbers(NdArray(DNum(k), dims, cells), t2, k)
  }

  /** An array of records given for a pod or named array type. */
  function PackRecordArray(v: Py, t: TypeDef, def: NamedDef): Result<Data> {
    if !v.NdArray? then Fail(DataTypeError)
    else
      var _ :- CheckRecords(t, |v.cells|);
      if v.dtype != DNamed(def.qname) then Fail(DataTypeError)
      else match def
        case Pod(q, fs) => PackPods(t, q, fs, v.shape, v.cells)
        case NamedArray(q, fs) => PackNamedArray(t, q, fs, v.shape, v.cells)
        case _ => Fail(DataTypeError)
  }

  /** The type the records of a multi-dimensional array are packed with. */
  function RecordsType(t: TypeDef): TypeDef {
    t.(name := "array", arr := Array, lengths := [], varLength := true)
  }

  function PackRecordValue(v: Py, t: TypeDef, def: NamedDef): Result<Data> {
    if t.arr.MultiDim? then
      if !v.NdArray? then Fail(ThrownPointer)
      else
        var d :- PackRecordArray(v, RecordsType(t), def);
        var kind := if def.Pod? then PodMultiDimT else NamedMultiDimT;
        Ok(Nested(kind, def.qname, MultiDimElems(v.shape, d)))
    else PackRecordArray(v, t, def)
  }

  // ----- the recursive packer

  const ENUM_TYPE := TypeDef("value", Numeric(Int32), NotArray, false, [], NoContainer)

  /** The type a varvalue is packed with: a scalar pod becomes an array of pods. */
  function VarValueType(t: TypeDef): TypeDef {
    if t.base.Named? && t.base.def.Pod? && t.arr.NotArray? then t.(arr := Array) else t
  }

  /** Python class names replace the dot of a qualified name. */
  function Mangle(s: string): string {
    if s == "" then "" else (if s[0] == '.' then "__" else [s[0]]) + Mangle(s[1..])
  }

  function AttrIndex(attrs: seq<Attr>, name: string): (i: Option<nat>)
    ensures i.Just? ==> i.value < |attrs| && attrs[i.value].name == name
  {
    if attrs == [] then Nothing
    else if attrs[0].name == name then Just(0)
    else match AttrIndex(attrs[1..], name)
      case Just(i) => Just(i + 1)
      case Nothing => Nothing
  }

  function PackNone(t: TypeDef): Result<Data> {
    if t.container.NoContainer? &&
       (t.base.Numeric? || t.base.Text? || (t.base.Named? && (t.base.def.Pod? || t.base.def.NamedArray?)))
    then Fail(DataTypeError) else Ok(Null)
  }

  const INT32_MIN := -0x8000_0000
  const INT32_MAX := 0x7FFF_FFFF

  /** The key of an int map entry as `PyLong_AsLong` reads it; minus one when it cannot. */
  function KeyNumber(key: Py): int {
    match key
    case PyInt(n) => if InRange(Int64, n) then n else -1
    case PyBool(b) => if b then 1 else 0
    case NpScalar(k, x) => if Integral(k) && x.I? && InRange(Int64, x.n) then x.n else -1
    case _ => -1
  }

  predicate IntKeyOk(key: Py) {
    match key
    case PyInt(n) => INT32_MIN <= n <= INT32_MAX
    case PyBool(_) => true
    case NpScalar(k, x) => Integral(k) && x.I? && INT32_MIN <= x.n <= INT32_MAX
    case _ => false
  }

  /** `PackMessageElement`: the data of the message element for `v` as a `t`. */
  function Pack(env: Env, v: Py, t: TypeDef): Result<Data>
    decreases Rank(v, t.container.NoContainer?), v, 2, 0
  {
    if t.base.VarValue? && t.container.NoContainer? && v != None then
      if v.VarVal? then Pack(env, v.data, VarValueType(v.typ)) else Fail(DataTypeError)
    else if v == None then PackNone(t)
    else if t.container.NoContainer? then PackPlain(env, v, t)
    else PackContainer(env, v, t)
  }

  function PackContainer(env: Env, v: Py, t: TypeDef): Result<Data>
    decreases Rank(v, t.container.NoContainer?), v, 1, 0
  {
    var t2 := RemoveContainers(t);
    match t.container
    case ListOf =>
      if !IsSequence(v) then Fail(DataTypeError)
      else
        var items :- Iterate(v);
        var es :- PackItems(env, items, t2, 0);
        Ok(Nested(ListT, "", es))
    case MapInt32 =>
      if IsSequence(v) then
        var items :- Iterate(v);
        var es :- PackItems(env, items, t2, 0);
        Ok(Nested(VectorT, "", es))
      else if v.Dict? then
        var es :- PackIntEntries(env, v.entries, t2);
        Ok(Nested(VectorT, "", es))
      else Fail(DataTypeError)
    case MapString =>
      if !v.Dict? then Fail(DataTypeError)
      else
        var es :- PackStringEntries(env, v.entries, t2);
        Ok(Nested(DictionaryT, "", es))
    case NoContainer => Fail(DataTypeError)
  }

  function PackItems(env: Env, items: seq<Py>, t: TypeDef, i: nat): Result<seq<Elem>>
    decreases RankOf(items, t.container.NoContainer?), items, 0, 0
  {
    if items == [] then Ok([])
    else
      var d :- Within(Frame(Index(i), Just(t)), Pack(env, items[0], t));
      var rest :- PackItems(env, items[1..], t, i + 1);
      Ok([Elem(Number(i), d)] + rest)
  }

  function PackIntEntries(env: Env, entries: seq<Entry>, t: TypeDef): Result<seq<Elem>>
    decreases 4, entries, 0, 0
  {
    if entries == [] then Ok([])
    else
      var Entry(key, value) := entries[0];
      assert value < entries[0];
      var f := Frame(Index(KeyNumber(key)), Just(t));
      var d :- Within(f, if IntKeyOk(key) then Pack(env, value, t) else Fail(DataTypeError));
      var rest :- PackIntEntries(env, entries[1..], t);
      Ok([Elem(Number(KeyNumber(key)), d)] + rest)
  }

  function PackStringEntries(env: Env, entries: seq<Entry>, t: TypeDef): Result<seq<Elem>>
    decreases 4, entries, 0, 0
  {
    if entries == [] then Ok([])
    else if !entries[0].key.Str? then Fail(DataTypeError)
    else
      var Entry(Str(key), value) := entries[0];
      assert value < entries[0];
      var d :- Within(Frame(QuotedKey(key), Just(t)), Pack(env, value, t));
      var rest :- PackStringEntries(env, entries[1..], t);
      Ok([Elem(Name(key), d)] + rest)
  }

  function PackFields(env: Env, attrs: seq<Attr>, fs: seq<Field>): Result<seq<Elem>>
    decreases if attrs == [] then 0 else 4, attrs, 0, |fs|
  {
    if fs == [] then Ok([])
    else match AttrIndex(attrs, fs[0].name)
      case Nothing => Fail(DataTypeError)
      case Just(i) =>
        assert attrs[i].value < attrs[i];
        var d :- Within(Frame(Member(fs[0].name), Just(fs[0].typ)), Pack(env, attrs[i].value, fs[0].typ));
        var rest :- PackFields(env, attrs, fs[1..]);
        Ok([Elem(Name(fs[0].name), d)] + rest)
  }

  /** A value that is not a container. */
  function PackPlain(env: Env, v: Py, t: TypeDef): Result<Data>
    decreases Rank(v, true), v, 1, 0
  {
    match t.base
    case Numeric(k) =>
      if t.arr.MultiDim? && IsSequence(v) then PackMultiDimNumbers(v, t, k)
      else
        var xs :- PackNumbers(v, t, k);
        Ok(Nums(k, xs))
    case Named(Structure(q)) => PackStruct(env, v, q)
    case Named(Enum(_)) =>
      var xs :- PackNumbers(v, ENUM_TYPE, Int32);
      Ok(Nums(Int32, xs))
    case Named(def) => PackRecordValue(v, t, def)
    case Text => if v.Str? then Ok(Chars(v.s)) else Fail(DataTypeError)
    case _ => Fail(DataTypeError)
  }

  function PackStruct(env: Env, v: Py, q: string): Result<Data>
    decreases Rank(v, true), v, 0, 0
  {
    if q !in env.structs then Fail(ServiceError)
    else if !v.Struct? || Mangle(q) != v.pyType then Fail(DataTypeError)
    else
      var es :- PackFields(env, v.attrs, env.structs[q]);
      Ok(Nested(StructureT, q, es))
  }
}
