/** The round-trip theorem of the marshaller. */
module RoundTripProof {
  import opened ColumnMajor
  import opened Types
  import opened Packing
  import opened Unpacking
  import opened PodRoundTrip
  import opened Containers
  import opened RoundTrip

  /** The type the content of a message is unpacked with: the declared one, or for a varvalue the one
      chosen by the kind of container received. */
  function InnerOf(t: TypeDef, asVar: bool): Option<TypeDef> {
    if !asVar then Just(t)
    else if t.container.NoContainer? then Nothing
    else Just(VARVALUE_TYPE.(container := t.container))
  }

  /** `Returns` below the level of the varvalue itself. */
  ghost predicate ContentReturns(env: Env, v: Py, t: TypeDef, asVar: bool) {
    var d := Pack(env, v, t);
    && (d.Ok? ==> !d.value.Null? && InnerType(d.value) == InnerOf(t.(base := VarValue), true))
    && (Fits(env, v, t, asVar) <==> d.Ok? && Unpack(env, d.value, InnerOf(t, asVar)).Ok?)
    && (Fits(env, v, t, asVar) ==>
          && Unpack(env, d.value, InnerOf(t, asVar)) == Ok(PlainBack(env, v, t, asVar))
          && InferType(env, d.value) == Ok(TypeBack(v, t)))
  }

  predicate IsVarValueType(t: TypeDef) {
    t.base.VarValue? && t.container.NoContainer?
  }

  lemma WrapReturns(env: Env, v: Py, t: TypeDef, asVar: bool)
    requires v != None && !IsVarValueType(t) && ContentReturns(env, v, t, asVar)
    ensures Returns(env, v, t, asVar)
  {
    hide Pack, Fits, PlainBack, TypeBack, InferType, UnpackVarContainer;
    var d := Pack(env, v, t);
    if d.Ok? && asVar {
      var inner := Unpack(env, d.value, InnerType(d.value));
      var typ := InferType(env, d.value);
      assert UnpackAs(env, d.value, t, true) ==
        if inner.Err? then inner else Ok(VarVal(inner.value, typ.value));
    }
  }

  // ----- values that are not containers

  ghost predicate PlainReturns(env: Env, v: Py, t: TypeDef, asVar: bool, d: Result<Data>, fits: bool, back: Py) {
    var tt := if asVar then Nothing else Just(t);
    && (d.Ok? ==> !d.value.Null? && InnerType(d.value) == Nothing)
    && (fits <==> d.Ok? && Unpack(env, d.value, tt).Ok?)
    && (fits ==> Unpack(env, d.value, tt) == Ok(back) && InferType(env, d.value) == Ok(TypeBack(v, t)))
  }

  predicate IsPlain(v: Py, t: TypeDef) {
    v != None && t.container.NoContainer? && !t.base.VarValue?
  }

  lemma PlainContent(env: Env, v: Py, t: TypeDef, asVar: bool)
    requires IsPlain(v, t)
    requires PlainReturns(env, v, t, asVar, PackPlain(env, v, t), PlainFits(env, v, t, asVar),
             PlainBack(env, v, t, asVar))
    ensures ContentReturns(env, v, t, asVar)
  {
    hide PackPlain, PlainFits, PlainBack, Unpack, InferType, TypeBack;
  }

  // ----- numbers

  lemma NumbersReturn(v: Py, t: TypeDef, k: Kind, asVar: bool)
    requires v.ByteArray? ==> forall b | b in v.bytes :: 0 <= b < 256
    requires t.base == Numeric(k) && !(t.arr.MultiDim? && IsSequence(v))
    ensures var xs := PackNumbers(v, t, k); var tt := if asVar then Nothing else Just(t);
      && (NumbersFit(v, t, k, asVar) <==> xs.Ok? && UnpackNumbers(k, xs.value, tt).Ok?)
      && (NumbersFit(v, t, k, asVar) ==>
            UnpackNumbers(k, xs.value, tt) == Ok(NumbersBack(NumbersOf(v, k), t, k, asVar)))
  {
    hide AllConvert, NumbersFrom, NumberItems, PackSequence, CheckLength, Convert, Items;
    if v.NdArray? {
      NumpyUnpacks(CellNums(v.cells), t, k, asVar);
    } else {
      PacksItems(v, t, k);
      ItemsUnpack(NumberItems(v), t, k, asVar);
    }
  }

  lemma NumpyUnpacks(xs: seq<Num>, t: TypeDef, k: Kind, asVar: bool)
    requires t.base == Numeric(k)
    ensures var r := UnpackNumbers(k, xs, if asVar then Nothing else Just(t));
      && (r.Ok? <==> asVar || (!t.arr.MultiDim? && CheckLength(t, |xs|).Ok?))
      && (r.Ok? ==> r == Ok(NumbersBack(xs, t, k, asVar)))
  {
  }

  lemma ItemsUnpack(items: seq<Py>, t: TypeDef, k: Kind, asVar: bool)
    requires t.base == Numeric(k)
    ensures var xs := PackSequence(items, t, k); var tt := if asVar then Nothing else Just(t);
      && (CheckLength(t, |items|).Ok? && (asVar || !t.arr.MultiDim?) && AllConvert(k, items)
          <==> xs.Ok? && UnpackNumbers(k, xs.value, tt).Ok?)
      && (xs.Ok? && UnpackNumbers(k, xs.value, tt).Ok? ==>
            UnpackNumbers(k, xs.value, tt) == Ok(NumbersBack(NumbersFrom(items, k), t, k, asVar)))
  {
    hide AllConvert, NumbersFrom, PackSequence, Convert;
    PackedItems(items, t, k);
    NumpyUnpacks(NumbersFrom(items, k), t, k, asVar);
  }

  lemma PackedItems(items: seq<Py>, t: TypeDef, k: Kind)
    ensures |NumbersFrom(items, k)| == |items|
    ensures var xs := PackSequence(items, t, k);
      && (xs.Ok? <==> CheckLength(t, |items|).Ok? && AllConvert(k, items))
      && (xs.Ok? ==> xs.value == NumbersFrom(items, k))
  {
    hide Convert, CheckLength;
    if AllConvert(k, items) {
      assert ConvertAll(k, items) == NumbersFrom(items, k);
    }
  }

  /** Bytes go the way of any other sequence, though the packer copies them as they are. */
  lemma PacksItems(v: Py, t: TypeDef, k: Kind)
    requires !v.NdArray? && (v.ByteArray? ==> forall b | b in v.bytes :: 0 <= b < 256)
    ensures PackNumbers(v, t, k)
         == if IsNumber(v) || IsSequence(v) then PackSequence(NumberItems(v), t, k) else Fail(DataTypeError)
  {
    hide Convert, CheckLength, Items, PackSequence, NumbersFrom;
    if v.ByteArray? && k.UInt8? {
      ByteItems(v, t, k);
    }
  }

  lemma ByteItems(v: Py, t: TypeDef, k: Kind)
    requires v.ByteArray? && k.UInt8? && forall b | b in v.bytes :: 0 <= b < 256
    ensures PackNumbers(v, t, k) == PackSequence(Items(v), t, k)
  {
    forall i | 0 <= i < |v.bytes| ensures Convert(k, Items(v)[i]) == Just(I(v.bytes[i])) {
      assert v.bytes[i] in v.bytes;
    }
    hide Convert, CheckLength;
    assert ConvertAll(k, Items(v)) == seq(|v.bytes|, i requires 0 <= i < |v.bytes| => I(v.bytes[i]));
  }

  /** What the packer puts on the wire are the numbers the value stands for. */
  lemma PackedNumbers(v: Py, t: TypeDef, k: Kind)
    requires v.ByteArray? ==> forall b | b in v.bytes :: 0 <= b < 256
    ensures PackNumbers(v, t, k).Ok? ==> PackNumbers(v, t, k).value == NumbersOf(v, k)
  {
    hide NumbersFrom, NumberItems, PackSequence, CheckLength, Convert, Items, AllConvert;
    if !v.NdArray? {
      PacksItems(v, t, k);
      PackedItems(NumberItems(v), t, k);
    }
  }

  lemma NumericReturns(env: Env, v: Py, t: TypeDef, k: Kind, asVar: bool)
    requires IsPlain(v, t) && t.base == Numeric(k) && PyOk(env, v)
    ensures ContentReturns(env, v, t, asVar)
  {
    hide PackNumbers, PackMultiDimNumbers, NumbersFit, NumbersOf, NumbersBack;
    if t.arr.MultiDim? && IsSequence(v) {
      MultiDimReturns(env, v, t, k, asVar);
    } else {
      NumbersReturn(v, t, k, asVar);
    }
    PlainContent(env, v, t, asVar);
  }

  lemma DimsBack(shape: seq<nat>, d: Data)
    ensures FindDims(MultiDimElems(shape, d)) == Ok(shape)
    ensures FindElement(MultiDimElems(shape, d), "array") == Just(Elem(Name("array"), d))
  {
    var es := MultiDimElems(shape, d);
    assert es[0] == Elem(Name("dims"), DimsData(shape)) && es[1] == Elem(Name("array"), d);
    assert "dims"[0] != "array"[0];
    assert FindElement(es, "array") == FindElement(es[1..], "array");
    assert es[1..][0] == es[1];
    assert DimsOf(DimsData(shape)) == shape;
  }

  lemma MultiDimReturns(env: Env, v: Py, t: TypeDef, k: Kind, asVar: bool)
    requires IsPlain(v, t) && t.base == Numeric(k) && PyOk(env, v) && t.arr.MultiDim? && IsSequence(v)
    ensures PlainReturns(env, v, t, asVar, PackMultiDimNumbers(v, t, k),
              v.NdArray? && v.dtype == DNum(k) && (t.varLength || t.lengths == v.shape), v)
  {
    hide PyOk, PackPlain, UnpackFields, UnpackItems, UnpackIntEntries, UnpackStringEntries, UnpackPods,
         UnpackNamedArray, UnpackMultiDimRecords, UnpackVarContainer;
    if v.NdArray? && v.dtype == DNum(k) {
      var xs := CellNums(v.cells);
      var numbers := Nums(k, Flattened(v.shape, xs));
      var d := Nested(MultiDimT, "", MultiDimElems(v.shape, numbers));
      DimsBack(v.shape, numbers);
      MultiDimCells(env, v, k);
      var tt := if asVar then Nothing else Just(t);
      if t.varLength || t.lengths == v.shape {
        assert PackMultiDimNumbers(v, t, k) == Ok(d);
        assert UnpackMultiDimNumbers(d.elems, tt) == Ok(v);
        assert Unpack(env, d, tt) == Ok(v);
      }
    }
  }

  lemma MultiDimCells(env: Env, v: Py, k: Kind)
    requires v.NdArray? && v.dtype == DNum(k) && PyOk(env, v)
    ensures |v.cells| == Product(v.shape)
    ensures FromColumnMajor(v.shape, NumCells(Flattened(v.shape, CellNums(v.cells)))) == v.cells
  {
    CellNumsInverse(v.cells);
    NumCellsFlattened(v.shape, CellNums(v.cells));
    ReorderInverse(v.shape, v.cells);
  }

  lemma NumCellsFlattened(shape: seq<nat>, xs: seq<Num>)
    ensures NumCells(Flattened(shape, xs)) == Flattened(shape, NumCells(xs))
  {
  }

  lemma EnumReturns(env: Env, v: Py, t: TypeDef, asVar: bool)
    requires IsPlain(v, t) && t.base.Named? && t.base.def.Enum? && PyOk(env, v)
    ensures ContentReturns(env, v, t, asVar)
  {
    hide PackNumbers, NumbersFit, NumbersOf, NumbersBack;
    NumbersReturn(v, ENUM_TYPE, Int32, asVar);
    PlainContent(env, v, t, asVar);
  }

  lemma TextReturns(env: Env, v: Py, t: TypeDef, asVar: bool)
    requires IsPlain(v, t) && (t.base.Text? || t.base.Void?)
    ensures ContentReturns(env, v, t, asVar)
  {
    PlainContent(env, v, t, asVar);
  }

  // ----- pods and named arrays

  predicate IsRecords(t: TypeDef) {
    t.base.Named? && (t.base.def.Pod? || t.base.def.NamedArray?)
  }

  /** What a receiver that expects `t2` makes of an array of `n` records. */
  function ReceiveRecords(t2: Option<TypeDef>, q: string, cells: seq<Cell>, scalarChecked: bool): Result<Py> {
    if CheckUnpackedRecords(t2, |cells|).Err? then Fail(DataTypeError)
    else if scalarChecked && t2.Just? && t2.value.arr.NotArray? && |cells| != 1 then Fail(DataTypeError)
    else Ok(NdArray(DNamed(q), [|cells|], cells))
  }

  lemma PodArrayReturns(env: Env, t: TypeDef, q: string, fs: seq<Field>, shape: seq<nat>, cells: seq<Cell>,
                        t2: Option<TypeDef>)
    requires q in env.pods && env.pods[q] == fs && PodOk(env, fs) && |cells| == Product(shape)
    requires forall c | c in cells :: CellOk(fs, c)
    ensures var d := PackPods(t, q, fs, shape, cells);
      && (d.Ok? <==> CheckRecords(t, |cells|).Ok? && forall c | c in cells :: CellFits(fs, c))
      && (d.Ok? ==>
            && d.value.Nested? && d.value.typ.PodArrayT? && d.value.typeName == q
            && UnpackPods(env, d.value, t2) == ReceiveRecords(t2, q, Flattened(shape, NormCells(fs, cells)), true))
  {
    hide PackRecords, UnpackRecords, CellFits, CellOk, NormCell, NormCells, PodOk, FortranOrder, Flattened, Pick;
    RecordsRoundTrip(env, fs, FortranOrder(shape), cells);
    PickFirst(shape, cells);
    assert cells[..Product(shape)] == cells;
    NormFlattened(fs, shape, cells);
  }

  lemma NamedArrayReturns(env: Env, t: TypeDef, q: string, fs: seq<Field>, shape: seq<nat>, cells: seq<Cell>,
                          t2: Option<TypeDef>)
    requires NamedDefOk(env, q, fs) && |cells| == Product(shape)
    requires forall c | c in cells :: CellOk(fs, c)
    ensures var d := PackNamedArray(t, q, fs, shape, cells);
      && (d.Ok? <==> CheckRecords(t, |cells|).Ok?)
      && (d.Ok? ==>
            && d.value.Nested? && d.value.typ.NamedArrayT? && d.value.typeName == q
            && UnpackNamedArray(env, d.value, t2) == ReceiveRecords(t2, q, Flattened(shape, cells), false))
  {
    NamedArrayRoundTrip(env, t, q, fs, shape, cells, t2);
  }

  /** The records `RecordsBack` lists, in the order they travel in. */
  function CellsBack(v: Py, def: NamedDef): seq<Cell>
    requires v.NdArray? && (def.Pod? || def.NamedArray?)
  {
    if def.Pod? then NormCells(def.fields, v.cells) else v.cells
  }

  ghost predicate RecordArrayReturns(env: Env, v: Py, t: TypeDef, t2: Option<TypeDef>, def: NamedDef)
    requires v.NdArray? && (def.Pod? || def.NamedArray?)
  {
    var d := PackRecordArray(v, t, def);
    && (d.Ok? <==>
          && v.dtype == DNamed(def.qname) && CheckRecords(t, |v.cells|).Ok?
          && (def.Pod? ==> forall c | c in v.cells :: CellFits(def.fields, c)))
    && (d.Ok? ==>
          && d.value.Nested? && d.value.typ == (if def.Pod? then PodArrayT else NamedArrayT)
          && d.value.typeName == def.qname
          && var cells := Flattened(v.shape, CellsBack(v, def));
             (if def.Pod? then UnpackPods(env, d.value, t2) else UnpackNamedArray(env, d.value, t2)) ==
             ReceiveRecords(t2, def.qname, cells, def.Pod?))
  }

  lemma RecordArrayReturn(env: Env, v: Py, t: TypeDef, t2: Option<TypeDef>, def: NamedDef)
    requires TypeOk(env, t) && t.base == Named(def) && IsRecords(t) && PyOk(env, v) && v.NdArray?
    ensures RecordArrayReturns(env, v, t, t2, def)
    ensures RecordArrayReturns(env, v, RecordsType(t), t2, def)
    ensures |v.cells| == Product(v.shape)
  {
    hide PackPods, PackNamedArray, UnpackPods, UnpackNamedArray, CellFits, CellOk, NormCells;
    if v.dtype == DNamed(def.qname) {
      if def.Pod? {
        PodArrayReturns(env, t, def.qname, def.fields, v.shape, v.cells, t2);
        PodArrayReturns(env, RecordsType(t), def.qname, def.fields, v.shape, v.cells, t2);
      } else {
        NamedArrayReturns(env, t, def.qname, def.fields, v.shape, v.cells, t2);
        NamedArrayReturns(env, RecordsType(t), def.qname, def.fields, v.shape, v.cells, t2);
      }
    }
  }

  lemma RecordValueReturns(env: Env, v: Py, t: TypeDef, asVar: bool)
    requires IsPlain(v, t) && TypeOk(env, t) && IsRecords(t) && PyOk(env, v)
    ensures ContentReturns(env, v, t, asVar)
  {
    hide PackPlain, PlainFits, PlainBack, PackRecordValue, RecordsFit, RecordsBack, PlainReturns, ContentReturns,
         TypeOk, PyOk;
    var def := t.base.def;
    RecordsArePlain(env, v, t, asVar, def);
    if !v.NdArray? {
      NotRecords(env, v, t, asVar, def);
    } else if t.arr.MultiDim? {
      MultiDimRecordsReturn(env, v, t, asVar, def);
    } else {
      FlatRecordsReturn(env, v, t, asVar, def);
    }
    PlainContent(env, v, t, asVar);
  }

  lemma RecordsArePlain(env: Env, v: Py, t: TypeDef, asVar: bool, def: NamedDef)
    requires IsPlain(v, t) && IsRecords(t) && t.base == Named(def)
    ensures PackPlain(env, v, t) == PackRecordValue(v, t, def)
    ensures PlainFits(env, v, t, asVar) == RecordsFit(v, t, def)
    ensures PlainBack(env, v, t, asVar) == RecordsBack(v, t, def)
  {
    hide PackRecordValue, RecordsFit, RecordsBack;
  }

  lemma NotRecords(env: Env, v: Py, t: TypeDef, asVar: bool, def: NamedDef)
    requires !v.NdArray?
    ensures PlainReturns(env, v, t, asVar, PackRecordValue(v, t, def), RecordsFit(v, t, def), RecordsBack(v, t, def))
  {
    hide Unpack, InferType, TypeBack;
  }

  lemma FlatRecordsReturn(env: Env, v: Py, t: TypeDef, asVar: bool, def: NamedDef)
    requires IsPlain(v, t) && TypeOk(env, t) && IsRecords(t) && PyOk(env, v) && t.base == Named(def)
    requires v.NdArray? && !t.arr.MultiDim?
    ensures PlainReturns(env, v, t, asVar, PackRecordValue(v, t, def), RecordsFit(v, t, def), RecordsBack(v, t, def))
  {
    hide UnpackStringEntries, UnpackFields, UnpackItems, UnpackIntEntries, UnpackPods, UnpackNamedArray, PyOk, PodOk,
         CellFits, PackRecordArray;
    var tt := if asVar then Nothing else Just(t);
    RecordArrayReturn(env, v, t, tt, def);
    var r := PackRecordArray(v, t, def);
    if r.Ok? {
      assert Unpack(env, r.value, tt) ==
        if def.Pod? then UnpackPods(env, r.value, tt) else UnpackNamedArray(env, r.value, tt);
    }
  }

  lemma MultiDimRecordsReturn(env: Env, v: Py, t: TypeDef, asVar: bool, def: NamedDef)
    requires IsPlain(v, t) && TypeOk(env, t) && IsRecords(t) && PyOk(env, v) && t.base == Named(def)
    requires v.NdArray? && t.arr.MultiDim?
    ensures PlainReturns(env, v, t, asVar, PackRecordValue(v, t, def), RecordsFit(v, t, def), RecordsBack(v, t, def))
  {
    hide Unpack, UnpackMultiDimRecords, PackRecordValue, PackRecordArray, RecordsFit, RecordsBack, PyOk, InnerType,
         InferType, TypeBack, RecordArrayReturns, MultiDimMessage;
    var tt := if asVar then Nothing else Just(t);
    RecordArrayReturn(env, v, t, ReceivedFlat(tt), def);
    MultiDimPacked(env, v, t, def, ReceivedFlat(tt));
    var r := PackRecordArray(v, RecordsType(t), def);
    if r.Ok? {
      var d := MultiDimMessage(def, v.shape, r.value);
      MultiDimUnpacks(env, def, v.shape, r.value, tt);
      MultiDimComesBack(env, v, t, def, tt);
      if RecordsFit(v, t, def) {
        MultiDimInferred(env, v, t, def, r.value);
      }
    }
  }

  /** The message of a multi-dimensional array of records. */
  function MultiDimMessage(def: NamedDef, shape: seq<nat>, flat: Data): (d: Data)
    requires def.Pod? || def.NamedArray?
    ensures d.Nested? && (d.typ.PodMultiDimT? || d.typ.NamedMultiDimT?)
  {
    Nested(if def.Pod? then PodMultiDimT else NamedMultiDimT, def.qname, MultiDimElems(shape, flat))
  }

  lemma MultiDimPacked(env: Env, v: Py, t: TypeDef, def: NamedDef, t2: Option<TypeDef>)
    requires v.NdArray? && t.arr.MultiDim? && (def.Pod? || def.NamedArray?)
    requires RecordArrayReturns(env, v, RecordsType(t), t2, def)
    ensures var r := PackRecordArray(v, RecordsType(t), def);
            && (RecordsFit(v, t, def) <==> r.Ok?)
            && PackRecordValue(v, t, def)
               == if r.Ok? then Ok(MultiDimMessage(def, v.shape, r.value)) else r.PropagateFailure()
  {
    hide PackRecordArray, CellFits, UnpackPods, UnpackNamedArray, MultiDimElems, ReceiveRecords;
  }

  lemma MultiDimComesBack(env: Env, v: Py, t: TypeDef, def: NamedDef, tt: Option<TypeDef>)
    requires v.NdArray? && t.arr.MultiDim? && (def.Pod? || def.NamedArray?) && |v.cells| == Product(v.shape)
    requires RecordArrayReturns(env, v, RecordsType(t), ReceivedFlat(tt), def)
    requires PackRecordArray(v, RecordsType(t), def).Ok? && RecordsFit(v, t, def)
    ensures UnpackMultiDimRecords(env, MultiDimMessage(def, v.shape, PackRecordArray(v, RecordsType(t), def).value), tt)
            == Ok(RecordsBack(v, t, def))
  {
    hide PackRecordArray, CellFits, UnpackPods, UnpackNamedArray, UnpackMultiDimRecords, MultiDimElems;
    var flat := PackRecordArray(v, RecordsType(t), def).value;
    MultiDimArrives(env, if def.Pod? then PodMultiDimT else NamedMultiDimT, def.qname, v.shape, flat, tt);
    ReorderInverse(v.shape, CellsBack(v, def));
  }

  lemma MultiDimInferred(env: Env, v: Py, t: TypeDef, def: NamedDef, flat: Data)
    requires v.NdArray? && t.arr.MultiDim? && t.container.NoContainer? && t.base == Named(def) && TypeOk(env, t)
    requires def.Pod? || def.NamedArray?
    ensures InferType(env, MultiDimMessage(def, v.shape, flat)) == Ok(TypeBack(v, t))
  {
    hide MultiDimElems, PodOk, NamedArrayOk;
  }

  /** The type the flat records of a multi-dimensional array are unpacked with. */
  function ReceivedFlat(tt: Option<TypeDef>): Option<TypeDef> {
    if tt.Just? then Just(tt.value.(arr := Array, lengths := [], varLength := true)) else Nothing
  }

  lemma MultiDimArrives(env: Env, kind: NestedKind, q: string, shape: seq<nat>, flat: Data, tt: Option<TypeDef>)
    requires kind.PodMultiDimT? || kind.NamedMultiDimT?
    ensures var t2 := ReceivedFlat(tt);
            var u := if kind.PodMultiDimT? then UnpackPods(env, flat, t2) else UnpackNamedArray(env, flat, t2);
            UnpackMultiDimRecords(env, Nested(kind, q, MultiDimElems(shape, flat)), tt)
            == if u.Err? then u
               else if !u.value.NdArray? || |u.value.cells| != Product(shape) then Fail(InternalError)
               else Ok(NdArray(u.value.dtype, shape, FromColumnMajor(shape, u.value.cells)))
  {
    hide UnpackPods, UnpackNamedArray, FindDims, FindElement, MultiDimElems, FromColumnMajor;
    DimsBack(shape, flat);
  }

  lemma MultiDimUnpacks(env: Env, def: NamedDef, shape: seq<nat>, flat: Data, tt: Option<TypeDef>)
    requires (def.Pod? || def.NamedArray?) && (tt.Just? ==> !tt.value.base.Void? && !tt.value.base.VarValue?)
    ensures var d := MultiDimMessage(def, shape, flat);
            Unpack(env, d, tt) == UnpackMultiDimRecords(env, d, tt) && InnerType(d) == Nothing
  {
    hide UnpackStringEntries, UnpackFields, UnpackItems, UnpackIntEntries, UnpackPods, UnpackNamedArray,
         UnpackMultiDimRecords, UnpackMultiDimNumbers, MultiDimElems;
  }

  // ----- structures

  ghost predicate FieldReturns(env: Env, attrs: seq<Attr>, f: Field) {
    match AttrIndex(attrs, f.name)
    case Nothing => true
    case Just(i) => Returns(env, attrs[i].value, f.typ, false)
  }

  lemma FieldArrives(env: Env, attrs: seq<Attr>, f: Field)
    requires FieldReturns(env, attrs, f)
    ensures FieldComesBack(env, attrs, f)
  {
    hide Pack, Unpack, Fits, Back;
  }

  lemma StructUnpacks(env: Env, q: string, es: seq<Elem>, tt: Option<TypeDef>)
    requires q in env.structs && (tt.Just? ==> !tt.value.base.Void? && !tt.value.base.VarValue?)
    ensures var d, r := Nested(StructureT, q, es), UnpackFields(env, es, env.structs[q]);
            && Unpack(env, d, tt) == (if r.Ok? then Ok(Struct(Mangle(q), r.value)) else r.PropagateFailure())
            && InnerType(d) == Nothing
            && InferType(env, d) == Ok(Inferred(Named(Structure(q)), NotArray, [], NoContainer))
  {
    hide UnpackFields, UnpackStringEntries, UnpackItems, UnpackIntEntries, UnpackPods, UnpackNamedArray,
         UnpackMultiDimRecords, UnpackMultiDimNumbers, Mangle;
  }

  lemma StructPacked(env: Env, v: Py, t: TypeDef, q: string)
    requires t.base == Named(Structure(q)) && q in env.structs
    ensures PackPlain(env, v, t)
         == if !v.Struct? || Mangle(q) != v.pyType then Fail(DataTypeError)
            else var r := PackFields(env, v.attrs, env.structs[q]);
                 if r.Ok? then Ok(Nested(StructureT, q, r.value)) else r.PropagateFailure()
  {
    hide PackFields, Mangle;
  }

  lemma StructReturns(env: Env, v: Py, t: TypeDef, asVar: bool, q: string)
    requires IsPlain(v, t) && t.base == Named(Structure(q)) && q in env.structs && DistinctNames(env.structs[q])
    requires v.Struct? ==> forall i | 0 <= i < |env.structs[q]| :: FieldReturns(env, v.attrs, env.structs[q][i])
    ensures ContentReturns(env, v, t, asVar)
  {
    hide PackPlain, PackFields, UnpackFields, Unpack, InnerType, InferType, StructFits, StructBack, Mangle,
         FieldReturns, DistinctNames, ContentReturns;
    StructPacked(env, v, t, q);
    StructFitsOnly(env, v, q);
    if v.Struct? && v.pyType == Mangle(q) {
      FieldsReturn(env, v, q);
      var r := PackFields(env, v.attrs, env.structs[q]);
      if r.Ok? {
        StructUnpacks(env, q, r.value, if asVar then Nothing else Just(t));
      }
    }
    PlainContent(env, v, t, asVar);
  }

  lemma StructFitsOnly(env: Env, v: Py, q: string)
    ensures StructFits(env, v, q) ==> v.Struct? && v.pyType == Mangle(q)
  {
  }

  ghost predicate FieldComesBack(env: Env, attrs: seq<Attr>, f: Field) {
    var d := PackField(env, attrs, f);
    && (FieldFits(env, attrs, f) <==> d.Ok? && Unpack(env, d.value, Just(f.typ)).Ok?)
    && (FieldFits(env, attrs, f) ==> Attr(f.name, Unpack(env, d.value, Just(f.typ)).value) == FieldBack(env, attrs, f))
  }

  lemma FieldsReturn(env: Env, v: Py, q: string)
    requires v.Struct? && q in env.structs && DistinctNames(env.structs[q]) && v.pyType == Mangle(q)
    requires forall i | 0 <= i < |env.structs[q]| :: FieldReturns(env, v.attrs, env.structs[q][i])
    ensures var r := PackFields(env, v.attrs, env.structs[q]);
      && (StructFits(env, v, q) <==> r.Ok? && UnpackFields(env, r.value, env.structs[q]).Ok?)
      && (StructFits(env, v, q) ==>
            StructBack(env, v, q) == Struct(v.pyType, UnpackFields(env, r.value, env.structs[q]).value))
  {
    hide PackFields, UnpackFields, FieldFits, FieldBack, Unpack, PackField, AttrIndex, FieldReturns, Mangle,
         DistinctNames, FieldComesBack;
    var fs := env.structs[q];
    PackFieldsEach(env, v.attrs, fs);
    forall i | 0 <= i < |fs| ensures FieldComesBack(env, v.attrs, fs[i]) {
      FieldArrives(env, v.attrs, fs[i]);
    }
    var r := PackFields(env, v.attrs, fs);
    if r.Ok? {
      UnpackFieldsEach(env, r.value, fs, 0);
      assert fs[0..] == fs;
      FieldsComeBack(env, v.attrs, fs, r.value, UnpackFields(env, r.value, fs));
    } else {
      FieldsUnfit(env, v.attrs, fs);
    }
  }

  lemma FieldsUnfit(env: Env, attrs: seq<Attr>, fs: seq<Field>)
    requires forall i | 0 <= i < |fs| :: FieldComesBack(env, attrs, fs[i])
    requires exists i | 0 <= i < |fs| :: PackField(env, attrs, fs[i]).Err?
    ensures exists i | 0 <= i < |fs| :: !FieldFits(env, attrs, fs[i])
  {
    hide FieldFits, FieldBack, Unpack, PackField;
  }

  lemma FieldsComeBack(env: Env, attrs: seq<Attr>, fs: seq<Field>, es: seq<Elem>, u: Result<seq<Attr>>)
    requires forall i | 0 <= i < |fs| :: FieldComesBack(env, attrs, fs[i])
    requires |es| == |fs| && forall i | 0 <= i < |fs| :: Ok(es[i].data) == PackField(env, attrs, fs[i])
    requires u.Ok? <==> forall j | 0 <= j < |fs| :: Unpack(env, es[j].data, Just(fs[j].typ)).Ok?
    requires u.Ok? ==> |u.value| == |fs| && forall j | 0 <= j < |fs| ::
      u.value[j - 0] == Attr(fs[j].name, Unpack(env, es[j].data, Just(fs[j].typ)).value)
    ensures u.Ok? <==> forall i | 0 <= i < |fs| :: FieldFits(env, attrs, fs[i])
    ensures u.Ok? ==> u.value == seq(|fs|, i requires 0 <= i < |fs| => FieldBack(env, attrs, fs[i]))
  {
    hide FieldFits, FieldBack, Unpack, PackField;
    assert forall i | 0 <= i < |fs| :: FieldComesBack(env, attrs, fs[i]);
    if u.Ok? {
      assert forall i | 0 <= i < |fs| :: u.value[i] == u.value[i - 0];
    }
  }

  // ----- containers

  /** The type the elements of a container are unpacked with. */
  function ElementTarget(t: TypeDef, asVar: bool): TypeDef {
    if asVar || t.base.VarValue? then VARVALUE_TYPE else RemoveContainers(t)
  }

  /** Varvalues are unpacked alike whatever their name. */
  lemma VarValueAlike(env: Env, d: Data, t: TypeDef)
    requires IsVarValueType(t)
    ensures Unpack(env, d, Just(t)) == Unpack(env, d, Just(VARVALUE_TYPE))
  {
    hide UnpackNested, UnpackVarContainer;
  }

  ghost predicate ElementReturns(env: Env, v: Py, t: TypeDef, asVar: bool) {
    var d := Pack(env, v, RemoveContainers(t));
    && (Fits(env, v, RemoveContainers(t), asVar) <==> d.Ok? && Unpack(env, d.value, Just(ElementTarget(t, asVar))).Ok?)
    && (Fits(env, v, RemoveContainers(t), asVar) ==>
          Unpack(env, d.value, Just(ElementTarget(t, asVar))) == Ok(Back(env, v, RemoveContainers(t), asVar)))
  }

  lemma ElementFromReturns(env: Env, v: Py, t: TypeDef, asVar: bool)
    requires Returns(env, v, RemoveContainers(t), asVar)
    ensures ElementReturns(env, v, t, asVar)
  {
    hide Fits, Back, Unpack;
    var d := Pack(env, v, RemoveContainers(t));
    if t.base.VarValue? && d.Ok? {
      VarValueAlike(env, d.value, RemoveContainers(t));
    }
    hide Pack;
  }

  ghost predicate ContainerReturns(env: Env, v: Py, t: TypeDef, asVar: bool)
    requires !t.container.NoContainer?
  {
    var d := PackContainer(env, v, t);
    && (d.Ok? ==> !d.value.Null? && InnerType(d.value) == Just(VARVALUE_TYPE.(container := t.container)))
    && (ContainerFits(env, v, t, asVar) <==> d.Ok? && Unpack(env, d.value, InnerOf(t, asVar)).Ok?)
    && (ContainerFits(env, v, t, asVar) ==>
          && Unpack(env, d.value, InnerOf(t, asVar)) == Ok(ContainerBack(env, v, t, asVar))
          && InferType(env, d.value) == Ok(TypeBack(v, t)))
  }

  lemma ContainerContent(env: Env, v: Py, t: TypeDef, asVar: bool)
    requires v != None && !t.container.NoContainer? && ContainerReturns(env, v, t, asVar)
    ensures ContentReturns(env, v, t, asVar)
  {
    hide PackContainer, ContainerFits, ContainerBack, Unpack, InferType, TypeBack;
  }

  /** The items of a received list, each unpacked as the declared type or the varvalue asks. */
  function UnpackListOf(env: Env, es: seq<Elem>, t: TypeDef, asVar: bool): Result<seq<Py>> {
    if asVar || t.base.VarValue? then UnpackVarItems(env, es, 0) else UnpackItems(env, es, Just(RemoveContainers(t)), 0)
  }

  function UnpackMapOf(env: Env, es: seq<Elem>, t: TypeDef, asVar: bool): Result<seq<Entry>> {
    if t.container.MapInt32? then UnpackIntEntries(env, es, Just(ElementTarget(t, asVar)), [])
    else UnpackStringEntries(env, es, Just(ElementTarget(t, asVar)), asVar || t.base.VarValue?, [])
  }

  lemma UnpackContainer(env: Env, es: seq<Elem>, t: TypeDef, asVar: bool)
    requires !t.container.NoContainer? && !t.base.Void?
    ensures t.container.ListOf? ==>
      var u := UnpackListOf(env, es, t, asVar);
      Unpack(env, Nested(ListT, "", es), InnerOf(t, asVar)) == if u.Ok? then Ok(List(u.value)) else u.PropagateFailure()
    ensures t.container.MapInt32? ==>
      var u := UnpackMapOf(env, es, t, asVar);
      Unpack(env, Nested(VectorT, "", es), InnerOf(t, asVar))
      == if u.Ok? then Ok(Dict(u.value)) else u.PropagateFailure()
    ensures t.container.MapString? ==>
      var u := UnpackMapOf(env, es, t, asVar);
      Unpack(env, Nested(DictionaryT, "", es), InnerOf(t, asVar)) ==
        if u.Ok? then Ok(Dict(u.value)) else u.PropagateFailure()
  {
    hide UnpackStringEntries, UnpackFields, UnpackIntEntries, UnpackPods, UnpackNamedArray, InferType,
         UnpackMultiDimRecords, UnpackMultiDimNumbers, UnpackItems, UnpackVarItems;
  }

  lemma ItemsReturn(env: Env, items: seq<Py>, t: TypeDef, asVar: bool)
    requires forall i | 0 <= i < |items| :: ElementReturns(env, items[i], t, asVar)
    ensures var t2 := RemoveContainers(t); var r := PackItems(env, items, t2, 0);
      && ((forall i | 0 <= i < |items| :: Fits(env, items[i], t2, asVar)) <==>
            r.Ok? && UnpackListOf(env, r.value, t, asVar).Ok?)
      && (r.Ok? && UnpackListOf(env, r.value, t, asVar).Ok? ==>
            UnpackListOf(env, r.value, t, asVar).value ==
            seq(|items|, i requires 0 <= i < |items| => Back(env, items[i], t2, asVar)))
  {
    hide Pack, Fits, Back, Unpack, PackItems, UnpackItems, UnpackVarItems;
    var t2 := RemoveContainers(t);
    var r := PackItems(env, items, t2, 0);
    PackItemsEach(env, items, t2, 0);
    if r.Ok? {
      UnpackItemsEach(env, r.value, Just(t2), 0);
      UnpackVarItemsEach(env, r.value, 0);
    }
  }

  /** The message of a container, by its kind. */
  function ContainerMessage(t: TypeDef, es: seq<Elem>): Data
    requires !t.container.NoContainer?
  {
    match t.container
    case ListOf => Nested(ListT, "", es)
    case MapInt32 => Nested(VectorT, "", es)
    case _ => Nested(DictionaryT, "", es)
  }

  function MessageOf(t: TypeDef, r: Result<seq<Elem>>): Result<Data>
    requires !t.container.NoContainer?
  {
    if r.Ok? then Ok(ContainerMessage(t, r.value)) else r.PropagateFailure()
  }

  lemma ContainerInferred(env: Env, v: Py, t: TypeDef, es: seq<Elem>)
    requires !t.container.NoContainer?
    ensures var d := ContainerMessage(t, es);
            && !d.Null? && InnerType(d) == Just(VARVALUE_TYPE.(container := t.container))
            && InferType(env, d) == Ok(TypeBack(v, t))
  {
  }

  lemma SequencePacked(env: Env, v: Py, t: TypeDef)
    requires t.container.ListOf? || (t.container.MapInt32? && IsSequence(v))
    ensures if Iterable(v) then
              PackContainer(env, v, t) == MessageOf(t, PackItems(env, Items(v), RemoveContainers(t), 0))
            else PackContainer(env, v, t).Err?
  {
    hide PackItems, PackIntEntries, PackStringEntries, Items;
  }

  lemma DictPacked(env: Env, v: Py, t: TypeDef)
    requires t.container.MapString? || (t.container.MapInt32? && !IsSequence(v))
    ensures if v.Dict? then PackContainer(env, v, t) == MessageOf(t, PackMap(env, v.entries, t))
            else PackContainer(env, v, t).Err?
  {
    hide PackItems, PackIntEntries, PackStringEntries;
  }

  /** What is left to show for a container, once it is known what its elements are packed as. */
  lemma FromElements(env: Env, v: Py, t: TypeDef, asVar: bool, r: Result<seq<Elem>>)
    requires !t.container.NoContainer? && PackContainer(env, v, t) == MessageOf(t, r)
    requires r.Ok? ==>
      var u := Unpack(env, ContainerMessage(t, r.value), InnerOf(t, asVar));
      && (ContainerFits(env, v, t, asVar) <==> u.Ok?)
      && (u.Ok? ==> u.value == ContainerBack(env, v, t, asVar))
    requires r.Err? ==> !ContainerFits(env, v, t, asVar)
    ensures ContainerReturns(env, v, t, asVar)
  {
    hide PackContainer, ContainerMessage, ContainerFits, ContainerBack, Unpack, InferType, TypeBack, InnerType, InnerOf;
    if r.Ok? {
      ContainerInferred(env, v, t, r.value);
    }
  }

  lemma NotPacked(env: Env, v: Py, t: TypeDef, asVar: bool)
    requires !t.container.NoContainer? && PackContainer(env, v, t).Err? && !ContainerFits(env, v, t, asVar)
    ensures ContainerReturns(env, v, t, asVar)
  {
    hide PackContainer, ContainerFits, ContainerBack, Unpack, InferType, TypeBack, InnerType, InnerOf;
  }

  lemma ListReturns(env: Env, v: Py, t: TypeDef, asVar: bool)
    requires t.container.ListOf? && !t.base.Void?
    requires Iterable(v) ==> forall i | 0 <= i < |Items(v)| :: ElementReturns(env, Items(v)[i], t, asVar)
    ensures ContainerReturns(env, v, t, asVar)
  {
    hide Fits, Back, Unpack, PackContainer, PackItems, UnpackListOf, ElementReturns, Items, ContainerReturns;
    SequencePacked(env, v, t);
    if Iterable(v) {
      ItemsReturn(env, Items(v), t, asVar);
      var r := PackItems(env, Items(v), RemoveContainers(t), 0);
      if r.Ok? {
        UnpackContainer(env, r.value, t, asVar);
      }
      FromElements(env, v, t, asVar, r);
    } else {
      NotPacked(env, v, t, asVar);
    }
  }

  /** The entries of a received map, in order. */
  lemma MapArrives(env: Env, es: seq<Elem>, t: TypeDef, asVar: bool)
    requires t.container.MapInt32? || t.container.MapString?
    requires forall e | e in es :: if t.container.MapInt32? then e.id.Number? else e.id.Name?
    requires forall i, j | 0 <= i < j < |es| :: KeyOf(es[i]) != KeyOf(es[j])
    ensures EntriesArrive(env, es, Just(ElementTarget(t, asVar)), [], UnpackMapOf(env, es, t, asVar))
  {
    if t.container.MapInt32? {
      UnpackIntEntriesEach(env, es, Just(ElementTarget(t, asVar)), []);
    } else {
      UnpackStringEntriesEach(env, es, Just(ElementTarget(t, asVar)), asVar || t.base.VarValue?, []);
    }
  }

  /** A list sent for an int map arrives keyed by position. */
  lemma ListAsMapReturn(env: Env, items: seq<Py>, t: TypeDef, asVar: bool)
    requires t.container.MapInt32? && forall i | 0 <= i < |items| :: ElementReturns(env, items[i], t, asVar)
    ensures var t2 := RemoveContainers(t); var r := PackItems(env, items, t2, 0);
      && ((forall i | 0 <= i < |items| :: Fits(env, items[i], t2, asVar)) <==>
            r.Ok? && UnpackMapOf(env, r.value, t, asVar).Ok?)
      && (r.Ok? && UnpackMapOf(env, r.value, t, asVar).Ok? ==>
            UnpackMapOf(env, r.value, t, asVar).value ==
            seq(|items|, i requires 0 <= i < |items| => Entry(PyInt(i), Back(env, items[i], t2, asVar))))
  {
    hide Pack, Fits, Back, Unpack, PackItems, UnpackMapOf;
    var t2 := RemoveContainers(t);
    var r := PackItems(env, items, t2, 0);
    PackItemsEach(env, items, t2, 0);
    if r.Ok? {
      MapArrives(env, r.value, t, asVar);
      var u := UnpackMapOf(env, r.value, t, asVar);
      assert u.Ok? ==> forall j | 0 <= j < |items| :: u.value[j] == u.value[0 + j];
    }
  }

  /** The element an entry is packed as. */
  function PackEntry(env: Env, e: Entry, t: TypeDef): Result<Elem> {
    if !(if t.container.MapInt32? then IntKeyOk(e.key) else e.key.Str?) then Fail(DataTypeError)
    else
      var d :- Pack(env, e.value, RemoveContainers(t));
      Ok(Elem(if t.container.MapInt32? then Number(KeyNumber(e.key)) else Name(e.key.s), d))
  }

  function PackMap(env: Env, entries: seq<Entry>, t: TypeDef): Result<seq<Elem>> {
    if t.container.MapInt32? then PackIntEntries(env, entries, RemoveContainers(t))
    else PackStringEntries(env, entries, RemoveContainers(t))
  }

  lemma PackMapEach(env: Env, entries: seq<Entry>, t: TypeDef)
    ensures var r := PackMap(env, entries, t);
      && (r.Ok? <==> forall j | 0 <= j < |entries| :: PackEntry(env, entries[j], t).Ok?)
      && (r.Ok? ==> |r.value| == |entries| && forall j | 0 <= j < |entries| ::
            Ok(r.value[j]) == PackEntry(env, entries[j], t))
  {
    hide Pack, PackIntEntries, PackStringEntries, KeyNumber, IntKeyOk;
    if t.container.MapInt32? {
      PackIntEntriesEach(env, entries, RemoveContainers(t));
    } else {
      PackStringEntriesEach(env, entries, RemoveContainers(t));
    }
  }

  predicate EntryFits(env: Env, e: Entry, t: TypeDef, asVar: bool) {
    (if t.container.MapInt32? then IntKeyOk(e.key) else e.key.Str?) && Fits(env, e.value, RemoveContainers(t), asVar)
  }

  function EntryBack(env: Env, e: Entry, t: TypeDef, asVar: bool): Entry {
    Entry(if t.container.MapInt32? then PyInt(KeyNumber(e.key)) else e.key,
      Back(env, e.value, RemoveContainers(t), asVar))
  }

  ghost predicate EntryReturns(env: Env, e: Entry, t: TypeDef, asVar: bool) {
    var r := PackEntry(env, e, t);
    && (EntryFits(env, e, t, asVar) <==> r.Ok? && Unpack(env, r.value.data, Just(ElementTarget(t, asVar))).Ok?)
    && (EntryFits(env, e, t, asVar) ==>
          Entry(KeyOf(r.value), Unpack(env, r.value.data, Just(ElementTarget(t, asVar))).value)
            == EntryBack(env, e, t, asVar))
  }

  lemma EntryFromElement(env: Env, e: Entry, t: TypeDef, asVar: bool)
    requires ElementReturns(env, e.value, t, asVar)
    ensures EntryReturns(env, e, t, asVar)
  {
    hide Pack, Fits, Back, Unpack, KeyNumber, IntKeyOk;
  }

  predicate DistinctKeys(entries: seq<Entry>) {
    forall i, j | 0 <= i < j < |entries| :: !SameKey(entries[i].key, entries[j].key)
  }

  lemma EntriesReturn(env: Env, entries: seq<Entry>, t: TypeDef, asVar: bool)
    requires (t.container.MapInt32? || t.container.MapString?) && DistinctKeys(entries)
    requires forall i | 0 <= i < |entries| :: EntryReturns(env, entries[i], t, asVar)
    ensures var r := PackMap(env, entries, t);
      && ((forall i | 0 <= i < |entries| :: EntryFits(env, entries[i], t, asVar)) <==>
            r.Ok? && UnpackMapOf(env, r.value, t, asVar).Ok?)
      && (r.Ok? && UnpackMapOf(env, r.value, t, asVar).Ok? ==>
            UnpackMapOf(env, r.value, t, asVar).value ==
            seq(|entries|, i requires 0 <= i < |entries| => EntryBack(env, entries[i], t, asVar)))
  {
    hide Pack, Unpack, PackMap, UnpackMapOf, EntryFits, EntryBack, EntryReturns, KeyNumber, IntKeyOk;
    var r := PackMap(env, entries, t);
    PackMapEach(env, entries, t);
    if r.Ok? {
      forall j | 0 <= j < |entries|
        ensures if t.container.MapInt32? then
                  IntKeyOk(entries[j].key) && r.value[j].id == Number(KeyNumber(entries[j].key))
                else entries[j].key.Str? && r.value[j].id == Name(entries[j].key.s)
      {
        assert Ok(r.value[j]) == PackEntry(env, entries[j], t);
      }
      forall i, j | 0 <= i < j < |entries| ensures KeyOf(r.value[i]) != KeyOf(r.value[j]) {
        assert !SameKey(entries[i].key, entries[j].key);
      }
      MapArrives(env, r.value, t, asVar);
      EntriesBack(env, entries, t, asVar, r.value, UnpackMapOf(env, r.value, t, asVar));
    } else {
      EntriesUnfit(env, entries, t, asVar);
    }
  }

  lemma EntriesUnfit(env: Env, entries: seq<Entry>, t: TypeDef, asVar: bool)
    requires forall i | 0 <= i < |entries| :: EntryReturns(env, entries[i], t, asVar)
    requires exists j | 0 <= j < |entries| :: PackEntry(env, entries[j], t).Err?
    ensures exists j | 0 <= j < |entries| :: !EntryFits(env, entries[j], t, asVar)
  {
    hide Pack, Unpack, EntryFits, EntryBack, PackEntry;
  }

  lemma EntriesBack(env: Env, entries: seq<Entry>, t: TypeDef, asVar: bool, es: seq<Elem>, u: Result<seq<Entry>>)
    requires |es| == |entries| && forall j | 0 <= j < |entries| :: Ok(es[j]) == PackEntry(env, entries[j], t)
    requires forall i | 0 <= i < |entries| :: EntryReturns(env, entries[i], t, asVar)
    requires EntriesArrive(env, es, Just(ElementTarget(t, asVar)), [], u)
    ensures (forall i | 0 <= i < |entries| :: EntryFits(env, entries[i], t, asVar)) <==> u.Ok?
    ensures u.Ok? ==> u.value == seq(|entries|, i requires 0 <= i < |entries| => EntryBack(env, entries[i], t, asVar))
  {
    hide Pack, Unpack, EntryFits, EntryBack, PackEntry;
    assert u.Ok? ==> forall j | 0 <= j < |entries| :: u.value[j] == u.value[0 + j];
  }

  lemma SequenceAsMapReturns(env: Env, v: Py, t: TypeDef, asVar: bool)
    requires t.container.MapInt32? && !t.base.Void? && IsSequence(v)
    requires Iterable(v) ==> forall i | 0 <= i < |Items(v)| :: ElementReturns(env, Items(v)[i], t, asVar)
    ensures ContainerReturns(env, v, t, asVar)
  {
    hide Fits, Back, Unpack, PackContainer, PackItems, UnpackMapOf, ElementReturns, Items, ContainerReturns;
    SequencePacked(env, v, t);
    if Iterable(v) {
      ListAsMapReturn(env, Items(v), t, asVar);
      var r := PackItems(env, Items(v), RemoveContainers(t), 0);
      if r.Ok? {
        UnpackContainer(env, r.value, t, asVar);
      }
      FromElements(env, v, t, asVar, r);
    } else {
      NotPacked(env, v, t, asVar);
    }
  }

  /** What it means for a dictionary to obey a map type, entry by entry. */
  lemma DictFits(env: Env, v: Py, t: TypeDef, asVar: bool)
    requires v.Dict? && (t.container.MapInt32? || t.container.MapString?)
    ensures ContainerFits(env, v, t, asVar) <==>
            forall i | 0 <= i < |v.entries| :: EntryFits(env, v.entries[i], t, asVar)
    ensures ContainerBack(env, v, t, asVar) ==
            Dict(seq(|v.entries|, i requires 0 <= i < |v.entries| => EntryBack(env, v.entries[i], t, asVar)))
  {
    hide Fits, Back, KeyNumber, IntKeyOk, Items;
  }

  lemma DictReturns(env: Env, v: Py, t: TypeDef, asVar: bool)
    requires v.Dict? && (t.container.MapInt32? || t.container.MapString?) && !t.base.Void?
    requires DistinctKeys(v.entries)
    requires forall i | 0 <= i < |v.entries| :: EntryReturns(env, v.entries[i], t, asVar)
    ensures ContainerReturns(env, v, t, asVar)
  {
    hide Fits, Back, Unpack, PackContainer, PackMap, UnpackMapOf, EntryReturns, EntryFits, EntryBack, DistinctKeys,
         ContainerFits, ContainerBack, ContainerReturns;
    DictPacked(env, v, t);
    DictFits(env, v, t, asVar);
    EntriesReturn(env, v.entries, t, asVar);
    var r := PackMap(env, v.entries, t);
    if r.Ok? {
      UnpackContainer(env, r.value, t, asVar);
    }
    FromElements(env, v, t, asVar, r);
  }

  lemma MapReturns(env: Env, v: Py, t: TypeDef, asVar: bool)
    requires (t.container.MapInt32? || t.container.MapString?) && !t.base.Void?
    requires Iterable(v) ==> forall i | 0 <= i < |Items(v)| :: ElementReturns(env, Items(v)[i], t, asVar)
    requires v.Dict? ==> DistinctKeys(v.entries)
    requires v.Dict? ==> forall i | 0 <= i < |v.entries| :: EntryReturns(env, v.entries[i], t, asVar)
    ensures ContainerReturns(env, v, t, asVar)
  {
    hide Fits, Back, Unpack, PackContainer, ElementReturns, EntryReturns, Items, ContainerReturns, DistinctKeys;
    if t.container.MapInt32? && IsSequence(v) {
      SequenceAsMapReturns(env, v, t, asVar);
    } else if v.Dict? {
      DictReturns(env, v, t, asVar);
    } else {
      DictPacked(env, v, t);
      NotPacked(env, v, t, asVar);
    }
  }

  // ----- the theorem

  lemma NoneReturns(env: Env, t: TypeDef, asVar: bool)
    ensures Returns(env, None, t, asVar)
  {
  }

  lemma VarValReturns(env: Env, v: Py, t: TypeDef, asVar: bool)
    requires v != None && IsVarValueType(t)
    requires v.VarVal? ==> Returns(env, v.data, VarValueType(v.typ), true)
    ensures Returns(env, v, t, asVar)
  {
    if v.VarVal? {
      var d := Pack(env, v.data, VarValueType(v.typ));
      if d.Ok? {
        VarValueAlike(env, d.value, t);
      }
      hide Unpack;
      assert Pack(env, v, t) == d;
      assert Fits(env, v, t, asVar) == Fits(env, v.data, VarValueType(v.typ), true);
      assert Back(env, v, t, asVar) == Back(env, v.data, VarValueType(v.typ), true);
      hide Pack, Fits, Back;
    }
  }

  lemma StructDefOk(env: Env, q: string)
    requires EnvOk(env) && q in env.structs
    ensures DistinctNames(env.structs[q])
    ensures forall i | 0 <= i < |env.structs[q]| :: TypeOk(env, env.structs[q][i].typ)
  {
    var fs := env.structs[q];
    forall i | 0 <= i < |fs| ensures TypeOk(env, fs[i].typ) {
      assert fs[i] in fs;
    }
  }

  lemma ItemsOk(env: Env, v: Py)
    requires PyOk(env, v) && IsSequence(v)
    ensures forall i | 0 <= i < |Items(v)| :: PyOk(env, Items(v)[i])
  {
    hide TypeOk, SameKey, PodOk, NamedDefOk, CellOk;
    match v
    case List(items) => assert forall i | 0 <= i < |items| :: items[i] in items;
    case NdArray(d, shape, cells) =>
      if shape != [] {
        forall i | 0 <= i < shape[0] ensures PyOk(env, ArrayItem(d, shape, cells, i)) {
          ArrayItemOk(env, d, shape, cells, i);
        }
      }
    case _ =>
  }

  /** The items of a proper numpy array are proper scalars and arrays. */
  lemma ArrayItemOk(env: Env, d: DType, shape: seq<nat>, cells: seq<Cell>, i: nat)
    requires ArrayOk(env, d, shape, cells) && shape != [] && i < shape[0]
    ensures PyOk(env, ArrayItem(d, shape, cells, i))
  {
    hide CellOk, TypeOk, SameKey;
    var n := Product(shape[1..]);
    assert i * n + n <= shape[0] * n by { MulMonotone(n, i + 1, shape[0]); }
    var part := cells[i * n..i * n + n];
    assert forall c | c in part :: c in cells;
    if |shape| == 1 {
      assert n == 1 && cells[i] in cells;
    }
  }

  /** Every value of a container is as well-formed as the container. */
  lemma ContentOk(env: Env, v: Py, t: TypeDef)
    requires PyOk(env, v) && TypeOk(env, t)
    ensures TypeOk(env, RemoveContainers(t))
    ensures Iterable(v) ==> forall i | 0 <= i < |Items(v)| :: PyOk(env, Items(v)[i])
    ensures v.Dict? ==> DistinctKeys(v.entries) && forall i | 0 <= i < |v.entries| :: PyOk(env, v.entries[i].value)
    ensures v.Struct? ==> forall i | 0 <= i < |v.attrs| :: PyOk(env, v.attrs[i].value)
  {
    hide SameKey, PodOk, NamedDefOk;
    if Iterable(v) { ItemsOk(env, v); }
    if v.Dict? { assert forall i | 0 <= i < |v.entries| :: v.entries[i] in v.entries; }
    if v.Struct? { assert forall i | 0 <= i < |v.attrs| :: v.attrs[i] in v.attrs; }
  }

  lemma PlainRoundTrip(env: Env, v: Py, t: TypeDef, asVar: bool)
    requires IsPlain(v, t) && TypeOk(env, t) && PyOk(env, v) && !(t.base.Named? && t.base.def.Structure?)
    ensures ContentReturns(env, v, t, asVar)
  {
    hide ContentReturns, PyOk, PodOk, NamedDefOk;
    match t.base
    case Numeric(k) => NumericReturns(env, v, t, k, asVar);
    case Named(Enum(_)) => EnumReturns(env, v, t, asVar);
    case Named(_) => RecordValueReturns(env, v, t, asVar);
    case _ => TextReturns(env, v, t, asVar);
  }

  /** A message packed from `v` as a `t` unpacks as a `t`, or as the varvalue it travels in, exactly
      when `v` obeys `t`; and then the receiver gets `v` up to the normalisations of `Back`. */
  lemma {:induction false} ValueRoundTrip(env: Env, v: Py, t: TypeDef, asVar: bool)
    requires EnvOk(env) && TypeOk(env, t) && PyOk(env, v)
    ensures Returns(env, v, t, asVar)
    decreases Rank(v, t.container.NoContainer?), v
  {
    hide EnvOk, PyOk, PodOk, NamedDefOk, Returns, ContentReturns, ContainerReturns, ElementReturns, EntryReturns,
         Pack, Unpack, Fits, Back;
    if v == None {
      NoneReturns(env, t, asVar);
    } else if IsVarValueType(t) {
      if v.VarVal? {
        VarValOk(env, v);
        ValueRoundTrip(env, v.data, VarValueType(v.typ), true);
      }
      VarValReturns(env, v, t, asVar);
    } else {
      ContentOk(env, v, t);
      if !t.container.NoContainer? {
        ElementsRoundTrip(env, v, t, asVar);
        if t.container.ListOf? {
          ListReturns(env, v, t, asVar);
        } else {
          MapReturns(env, v, t, asVar);
        }
        ContainerContent(env, v, t, asVar);
      } else if t.base.Named? && t.base.def.Structure? {
        AttributesRoundTrip(env, v, t.base.def.qname);
        StructReturns(env, v, t, asVar, t.base.def.qname);
      } else {
        PlainRoundTrip(env, v, t, asVar);
      }
      WrapReturns(env, v, t, asVar);
    }
  }

  lemma VarValOk(env: Env, v: Py)
    requires PyOk(env, v) && v.VarVal?
    ensures PyOk(env, v.data) && TypeOk(env, VarValueType(v.typ))
  {
    hide PodOk, NamedDefOk;
  }

  lemma {:induction false} ElementsRoundTrip(env: Env, v: Py, t: TypeDef, asVar: bool)
    requires EnvOk(env) && TypeOk(env, RemoveContainers(t))
    requires Iterable(v) ==> forall i | 0 <= i < |Items(v)| :: PyOk(env, Items(v)[i])
    requires v.Dict? ==> forall i | 0 <= i < |v.entries| :: PyOk(env, v.entries[i].value)
    ensures Iterable(v) ==> forall i | 0 <= i < |Items(v)| :: ElementReturns(env, Items(v)[i], t, asVar)
    ensures v.Dict? ==> forall i | 0 <= i < |v.entries| :: EntryReturns(env, v.entries[i], t, asVar)
    decreases Rank(v, false), v, 0
  {
    hide EnvOk, PyOk, TypeOk, Returns, ElementReturns, EntryReturns, Items;
    if Iterable(v) {
      forall i | 0 <= i < |Items(v)| ensures ElementReturns(env, Items(v)[i], t, asVar) {
        ValueRoundTrip(env, Items(v)[i], RemoveContainers(t), asVar);
        ElementFromReturns(env, Items(v)[i], t, asVar);
      }
    }
    if v.Dict? {
      forall i | 0 <= i < |v.entries| ensures EntryReturns(env, v.entries[i], t, asVar) {
        var e := v.entries[i];
        assert e.value < e;
        ValueRoundTrip(env, e.value, RemoveContainers(t), asVar);
        ElementFromReturns(env, e.value, t, asVar);
        EntryFromElement(env, e, t, asVar);
      }
    }
  }

  lemma {:induction false} AttributesRoundTrip(env: Env, v: Py, q: string)
    requires EnvOk(env) && q in env.structs
    requires v.Struct? ==> forall i | 0 <= i < |v.attrs| :: PyOk(env, v.attrs[i].value)
    ensures DistinctNames(env.structs[q])
    ensures v.Struct? ==> forall i | 0 <= i < |env.structs[q]| :: FieldReturns(env, v.attrs, env.structs[q][i])
    decreases Rank(v, true), v, 0
  {
    StructDefOk(env, q);
    hide EnvOk, PyOk, TypeOk, Returns;
    if v.Struct? {
      var fs := env.structs[q];
      forall i | 0 <= i < |fs| ensures FieldReturns(env, v.attrs, fs[i]) {
        match AttrIndex(v.attrs, fs[i].name)
        case Nothing =>
        case Just(j) =>
          assert v.attrs[j].value < v.attrs[j];
          ValueRoundTrip(env, v.attrs[j].value, fs[i].typ, false);
      }
    }
  }
}
