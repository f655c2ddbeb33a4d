/** Packing a value and unpacking the message: when it succeeds, and what comes back. */
module RoundTrip {
  import opened ColumnMajor
  import opened Types
  import opened Packing
  import opened Unpacking
  import opened PodRoundTrip

  // ----- values that obey their type

  predicate NoneFits(t: TypeDef) {
    !t.container.NoContainer? || t.base.Void? || t.base.VarValue? ||
    (t.base.Named? && (t.base.def.Structure? || t.base.def.Enum?))
  }

  /** `v` stands for numbers of kind `k`. A numpy array is held to the declared length only where
      its receiver checks it, that is outside of varvalues. */
  predicate NumbersFit(v: Py, t: TypeDef, k: Kind, asVar: bool) {
    if v.NdArray? then
      && v.dtype == DNum(k)
      && (|v.shape| <= 1 || 0 in v.shape || NonUnit(v.shape) == 1)
      && (asVar || (!t.arr.MultiDim? && CheckLength(t, |v.cells|).Ok?))
    else
      && (IsNumber(v) || IsSequence(v))
      && CheckLength(t, |NumberItems(v)|).Ok?
      && (asVar || !t.arr.MultiDim?)
      && AllConvert(k, NumberItems(v))
  }

  /** What is converted to numbers: a number itself, and the items of a sequence. */
  function NumberItems(v: Py): seq<Py> {
    if IsNumber(v) then [v] else if IsSequence(v) then Items(v) else []
  }

  predicate AllConvert(k: Kind, items: seq<Py>) {
    forall i | 0 <= i < |items| :: Converts(k, items[i])
  }

  predicate RecordsFit(v: Py, t: TypeDef, def: NamedDef) {
    && v.NdArray? && v.dtype == DNamed(def.qname)
    && (t.arr.MultiDim? || CheckRecords(t, |v.cells|).Ok?)
    && (def.Pod? ==> forall c | c in v.cells :: CellFits(def.fields, c))
  }

  /** `v` obeys the type `t`. With `asVar`, `v` travels inside a varvalue whose type is `t`. */
  predicate Fits(env: Env, v: Py, t: TypeDef, asVar: bool)
    decreases Rank(v, t.container.NoContainer?), v, 2
  {
    if t.base.VarValue? && t.container.NoContainer? && v != None then
      v.VarVal? && Fits(env, v.data, VarValueType(v.typ), true)
    else if v == None then NoneFits(t)
    else if t.container.NoContainer? then PlainFits(env, v, t, asVar)
    else ContainerFits(env, v, t, asVar)
  }

  predicate ContainerFits(env: Env, v: Py, t: TypeDef, asVar: bool)
    requires !t.container.NoContainer?
    decreases Rank(v, false), v, 1
  {
    var t2 := RemoveContainers(t);
    if t.container.ListOf? || (t.container.MapInt32? && IsSequence(v)) then
      Iterable(v) && forall i | 0 <= i < |Items(v)| :: Fits(env, Items(v)[i], t2, asVar)
    else
      v.Dict? && forall i | 0 <= i < |v.entries| ::
        && (if t.container.MapInt32? then IntKeyOk(v.entries[i].key) else v.entries[i].key.Str?)
        && assert v.entries[i].value < v.entries[i]; Fits(env, v.entries[i].value, t2, asVar)
  }

  predicate PlainFits(env: Env, v: Py, t: TypeDef, asVar: bool)
    decreases Rank(v, true), v, 1
  {
    match t.base
    case Numeric(k) =>
      if t.arr.MultiDim? && IsSequence(v) then
        v.NdArray? && v.dtype == DNum(k) && (t.varLength || t.lengths == v.shape)
      else NumbersFit(v, t, k, asVar)
    case Text => v.Str?
    case Named(Structure(q)) => StructFits(env, v, q)
    case Named(Enum(_)) => NumbersFit(v, ENUM_TYPE, Int32, asVar)
    case Named(def) => RecordsFit(v, t, def)
    case _ => false
  }

  predicate StructFits(env: Env, v: Py, q: string)
    decreases Rank(v, true), v, 0
  {
    v.Struct? && q in env.structs && v.pyType == Mangle(q) &&
    forall i | 0 <= i < |env.structs[q]| :: FieldFits(env, v.attrs, env.structs[q][i])
  }

  predicate FieldFits(env: Env, attrs: seq<Attr>, f: Field)
    decreases if attrs == [] then 0 else 4, attrs, 0
  {
    match AttrIndex(attrs, f.name)
    case Nothing => false
    case Just(i) => assert attrs[i].value < attrs[i]; Fits(env, attrs[i].value, f.typ, false)
  }

  // ----- what comes back

  /** The numbers a value stands for. */
  function NumbersOf(v: Py, k: Kind): seq<Num> {
    if v.NdArray? then CellNums(v.cells) else NumbersFrom(NumberItems(v), k)
  }

  function NumbersFrom(items: seq<Py>, k: Kind): seq<Num> {
    seq(|items|, i requires 0 <= i < |items| => match Convert(k, items[i]) case Just(x) => x case Nothing => I(0))
  }

  function NumbersBack(xs: seq<Num>, t: TypeDef, k: Kind, asVar: bool): Py {
    if t.arr.NotArray? && !asVar && xs != [] then Native(xs[0]) else NdArray(DNum(k), [|xs|], NumCells(xs))
  }

  function RecordsBack(v: Py, t: TypeDef, def: NamedDef): Py {
    if !v.NdArray? then None
    else
      var norm := if def.Pod? then NormCells(def.fields, v.cells) else v.cells;
      if t.arr.MultiDim? then NdArray(v.dtype, v.shape, norm)
      else NdArray(v.dtype, [|v.cells|], Flattened(v.shape, norm))
  }

  /** The type a varvalue of declared type `t` arrives with. */
  function TypeBack(v: Py, t: TypeDef): TypeDef {
    if !t.container.NoContainer? then Inferred(VarValue, NotArray, [], t.container)
    else match t.base
      case Numeric(k) =>
        if t.arr.MultiDim? && v.NdArray? then Inferred(t.base, MultiDim, [], NoContainer)
        else Inferred(t.base, Array, [0], NoContainer)
      case Named(Enum(_)) => Inferred(Numeric(Int32), Array, [0], NoContainer)
      case Named(Structure(_)) => Inferred(t.base, NotArray, [], NoContainer)
      case Named(_) => if t.arr.MultiDim? then Inferred(t.base, MultiDim, [], NoContainer)
                       else Inferred(t.base, Array, [0], NoContainer)
      case _ => Inferred(t.base, NotArray, [], NoContainer)
  }

  function FieldBack(env: Env, attrs: seq<Attr>, f: Field): Attr
    decreases if attrs == [] then 0 else 4, attrs, 0
  {
    Attr(f.name, match AttrIndex(attrs, f.name)
      case Nothing => None
      case Just(i) => assert attrs[i].value < attrs[i]; Back(env, attrs[i].value, f.typ, false))
  }

  /** What a receiver gets for `v` sent as a `t`: sequences given for a list become lists, sequences
      given for an int map become maps keyed from 0, enums become their number, scalars inside varvalues
      become arrays of one element, typed containers inside varvalues become containers of varvalues,
      pods lose their padding. */
  function Back(env: Env, v: Py, t: TypeDef, asVar: bool): Py
    decreases Rank(v, t.container.NoContainer?), v, 2
  {
    if t.base.VarValue? && t.container.NoContainer? && v != None then
      if v.VarVal? then Back(env, v.data, VarValueType(v.typ), true) else None
    else if v == None then None
    else if asVar then VarVal(PlainBack(env, v, t, asVar), TypeBack(v, t))
    else PlainBack(env, v, t, asVar)
  }

  function PlainBack(env: Env, v: Py, t: TypeDef, asVar: bool): Py
    decreases Rank(v, t.container.NoContainer?), v, 1
  {
    if !t.container.NoContainer? then ContainerBack(env, v, t, asVar)
    else
      match t.base
      case Numeric(k) => if t.arr.MultiDim? && IsSequence(v) then v else NumbersBack(NumbersOf(v, k), t, k, asVar)
      case Named(Structure(q)) => StructBack(env, v, q)
      case Named(Enum(_)) => NumbersBack(NumbersOf(v, Int32), ENUM_TYPE, Int32, asVar)
      case Named(def) => RecordsBack(v, t, def)
      case _ => v
  }

  function StructBack(env: Env, v: Py, q: string): Py
    decreases Rank(v, true), v, 0
  {
    if !v.Struct? || q !in env.structs then None
    else
      Struct(v.pyType, seq(|env.structs[q]|, i requires 0 <= i < |env.structs[q]| =>
        FieldBack(env, v.attrs, env.structs[q][i])))
  }

  function ContainerBack(env: Env, v: Py, t: TypeDef, asVar: bool): Py
    requires !t.container.NoContainer?
    decreases Rank(v, false), v, 0
  {
    var t2 := RemoveContainers(t);
    if IsSequence(v) then
      var items := Items(v);
      if t.container.MapInt32? then
        Dict(seq(|items|, i requires 0 <= i < |items| => Entry(PyInt(i), Back(env, items[i], t2, asVar))))
      else
        List(seq(|items|, i requires 0 <= i < |items| => Back(env, items[i], t2, asVar)))
    else if v.Dict? then
      Dict(seq(|v.entries|, i requires 0 <= i < |v.entries| => assert v.entries[i].value < v.entries[i];
        Entry(if t.container.MapInt32? then PyInt(KeyNumber(v.entries[i].key)) else v.entries[i].key,
              Back(env, v.entries[i].value, t2, asVar))))
    else None
  }

  // ----- the statement

  function UnpackAs(env: Env, d: Data, t: TypeDef, asVar: bool): Result<Py> {
    Unpack(env, d, Just(if asVar then VARVALUE_TYPE else t))
  }

  ghost predicate Returns(env: Env, v: Py, t: TypeDef, asVar: bool) {
    var d := Pack(env, v, t);
    && (Fits(env, v, t, asVar) <==> d.Ok? && UnpackAs(env, d.value, t, asVar).Ok?)
    && (Fits(env, v, t, asVar) ==> UnpackAs(env, d.value, t, asVar) == Ok(Back(env, v, t, asVar)))
  }
}
