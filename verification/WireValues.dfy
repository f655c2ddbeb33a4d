/** The message format of whole values. */
module WireValues {
  import opened ColumnMajor
  import opened Types
  import opened Packing
  import opened Unpacking
  import opened PodRoundTrip
  import opened Containers
  import opened NumberMeaning
  import opened WireFormat
  import opened RoundTripProof

  /** A key of an int map: a Python integer, a bool or a numpy integer in the range of an int32. */
  predicate IsIntKey(key: Py, n: int) {
    && -0x8000_0000 <= n < 0x8000_0000
    && match key
       case PyInt(m) => m == n
       case PyBool(b) => n == if b then 1 else 0
       case NpScalar(k, x) => Integral(k) && x == I(n)
       case _ => false
  }

  /** The Python class of a structure: its qualified name, each dot written as two underscores. */
  predicate IsClassName(q: string, name: string)
    decreases |q|
  {
    if q == "" then name == ""
    else if q[0] == '.' then |name| >= 2 && name[0] == '_' && name[1] == '_' && IsClassName(q[1..], name[2..])
    else name != "" && name[0] == q[0] && IsClassName(q[1..], name[1..])
  }

  lemma {:induction false} MangleIsClassName(q: string)
    ensures IsClassName(q, Mangle(q))
  {
    if q != "" {
      MangleIsClassName(q[1..]);
      assert q[0] == '.' ==> Mangle(q)[2..] == Mangle(q[1..]);
      assert q[0] != '.' ==> Mangle(q)[1..] == Mangle(q[1..]);
    }
  }

  /** The first attribute of that name. */
  predicate IsAttribute(attrs: seq<Attr>, name: string, i: nat) {
    i < |attrs| && attrs[i].name == name && forall j | 0 <= j < i :: attrs[j].name != name
  }

  lemma {:induction false} AttrIndexMeans(attrs: seq<Attr>, name: string)
    ensures var i := AttrIndex(attrs, name);
            if i.Just? then IsAttribute(attrs, name, i.value) else forall j | 0 <= j < |attrs| :: attrs[j].name != name
  {
    if attrs != [] && attrs[0].name != name {
      AttrIndexMeans(attrs[1..], name);
      assert forall j | 1 <= j < |attrs| :: attrs[j] == attrs[1..][j - 1];
    }
  }

  /** Numbered elements, one per item, each the data of its item. */
  ghost predicate ItemsEncoded(env: Env, items: seq<Py>, t: TypeDef, es: seq<Elem>)
    decreases RankOf(items, t.container.NoContainer?), items, 0
  {
    |es| == |items| && forall i | 0 <= i < |items| :: es[i].id == Number(i) && Encodes(env, items[i], t, es[i].data)
  }

  /** `d` is the data of the value `v` sent as a `t`. */
  ghost predicate Encodes(env: Env, v: Py, t: TypeDef, d: Data)
    decreases Rank(v, t.container.NoContainer?), v, 2
  {
    if v == None then d.Null?
    else if !t.container.NoContainer? then ContainerEncoded(env, v, t, d)
    else if t.base.VarValue? then
      // a varvalue travels as the value it holds, a single pod as an array of pods
      v.VarVal? && Encodes(env, v.data, if v.typ.base.Named? && v.typ.base.def.Pod? && v.typ.arr.NotArray?
                                        then v.typ.(arr := Array) else v.typ, d)
    else PlainEncoded(env, v, t, d)
  }

  ghost predicate ContainerEncoded(env: Env, v: Py, t: TypeDef, d: Data)
    requires !t.container.NoContainer?
    decreases Rank(v, false), v, 1
  {
    var e := RemoveContainers(t);
    && d.Nested? && d.typeName == ""
    && match t.container
       case ListOf => d.typ.ListT? && Iterable(v) && ItemsEncoded(env, Items(v), e, d.elems)
       case MapInt32 =>
         d.typ.VectorT? &&
         if IsSequence(v) then Iterable(v) && ItemsEncoded(env, Items(v), e, d.elems)
         else
           v.Dict? && |d.elems| == |v.entries| && forall i | 0 <= i < |v.entries| ::
             && d.elems[i].id.Number? && IsIntKey(v.entries[i].key, d.elems[i].id.i)
             && assert v.entries[i].value < v.entries[i]; Encodes(env, v.entries[i].value, e, d.elems[i].data)
       case MapString =>
         d.typ.DictionaryT? && v.Dict? && |d.elems| == |v.entries| && forall i | 0 <= i < |v.entries| ::
           && d.elems[i].id.Name? && v.entries[i].key == Str(d.elems[i].id.s)
           && assert v.entries[i].value < v.entries[i]; Encodes(env, v.entries[i].value, e, d.elems[i].data)
       case NoContainer => false
  }

  ghost predicate PlainEncoded(env: Env, v: Py, t: TypeDef, d: Data)
    decreases Rank(v, true), v, 1
  {
    match t.base
    case Numeric(k) =>
      if t.arr.MultiDim? then
        if v.NdArray? then d.Nested? && d.typ.MultiDimT? && d.typeName == "" && MultiDimEncoded(v.shape, d.elems) &&
             d.elems[1].data.Nums? && d.elems[1].data.kind == k &&
             FirstIndexFastest(v.shape, CellNums(v.cells), d.elems[1].data.xs)
        else NumbersSent(k, Given(v), d)
      else if v.NdArray? then d.Nums? && d.kind == k && d.xs == CellNums(v.cells)
      else NumbersSent(k, Given(v), d)
    case Text => v.Str? && d == Chars(v.s)
    case Named(Structure(q)) => StructEncoded(env, v, q, d)
    case Named(Enum(_)) => if v.NdArray? then d == Nums(Int32, CellNums(v.cells)) else NumbersSent(Int32, Given(v), d)
    case Named(def) =>
      && v.NdArray?
      && if t.arr.MultiDim? then
           && d.Nested? && d.typ == (if def.Pod? then PodMultiDimT else NamedMultiDimT) && d.typeName == def.qname
           && MultiDimEncoded(v.shape, d.elems) && ArrayEncoded(v, def, d.elems[1].data)
         else ArrayEncoded(v, def, d)
    case _ => false
  }

  /** The dimensions, and an array under its name. */
  predicate MultiDimEncoded(shape: seq<nat>, es: seq<Elem>) {
    && |es| == 2 && es[0].id == Name("dims") && es[1].id == Name("array")
    && es[0].data.Nums? && es[0].data.kind.UInt32? && |es[0].data.xs| == |shape|
    && forall i | 0 <= i < |shape| :: es[0].data.xs[i] == I(shape[i])
  }

  ghost predicate ArrayEncoded(v: Py, def: NamedDef, d: Data)
    requires v.NdArray?
  {
    match def
    case Pod(q, fs) => PodsEncoded(q, fs, v.shape, v.cells, d)
    case NamedArray(q, fs) => NamedNumbers(q, fs, v.shape, v.cells, d)
    case _ => false
  }

  /** A structure is an element list under its qualified name: one named element per field, in the order of the
      definition, each the data of the attribute of that name. */
  ghost predicate StructEncoded(env: Env, v: Py, q: string, d: Data)
    decreases Rank(v, true), v, 0
  {
    && v.Struct? && q in env.structs && IsClassName(q, v.pyType)
    && d.Nested? && d.typ.StructureT? && d.typeName == q && |d.elems| == |env.structs[q]|
    && forall i | 0 <= i < |env.structs[q]| ::
         && d.elems[i].id == Name(env.structs[q][i].name)
         && FieldEncoded(env, v.attrs, env.structs[q][i], d.elems[i].data)
  }

  ghost predicate FieldEncoded(env: Env, attrs: seq<Attr>, f: Field, d: Data)
    decreases if attrs == [] then 0 else 4, attrs, 0
  {
    exists i: nat :: IsAttribute(attrs, f.name, i)
                     && assert attrs[i].value < attrs[i]; Encodes(env, attrs[i].value, f.typ, d)
  }

  // ----- the packer keeps the format

  lemma KeyNumberMeans(key: Py)
    requires IntKeyOk(key)
    ensures IsIntKey(key, KeyNumber(key))
  {
  }

  lemma AcceptedKeys(key: Py)
    ensures IntKeyOk(key) <==> exists n: int :: IsIntKey(key, n)
  {
    if IntKeyOk(key) {
      KeyNumberMeans(key);
    }
  }

  ghost predicate Sent(env: Env, v: Py, t: TypeDef) {
    Pack(env, v, t).Ok? ==> Encodes(env, v, t, Pack(env, v, t).value)
  }

  lemma ItemsSent(env: Env, items: seq<Py>, t: TypeDef)
    requires forall i | 0 <= i < |items| :: Sent(env, items[i], t)
    ensures PackItems(env, items, t, 0).Ok? ==> ItemsEncoded(env, items, t, PackItems(env, items, t, 0).value)
  {
    hide Pack, Encodes, PackItems;
    PackItemsEach(env, items, t, 0);
    var r := PackItems(env, items, t, 0);
    if r.Ok? {
      forall i | 0 <= i < |items| ensures r.value[i].id == Number(i) && Encodes(env, items[i], t, r.value[i].data) {
        assert r.value[i] == Elem(Number(0 + i), Pack(env, items[i], t).value);
        assert Sent(env, items[i], t);
      }
    }
  }

  lemma SequenceSent(env: Env, v: Py, t: TypeDef)
    requires v != None && (t.container.ListOf? || (t.container.MapInt32? && IsSequence(v)))
    requires Iterable(v) ==> forall i | 0 <= i < |Items(v)| :: Sent(env, Items(v)[i], RemoveContainers(t))
    ensures Sent(env, v, t)
  {
    hide PackItems, PackContainer, Items, Sent, ItemsEncoded, RemoveContainers;
    SequencePacked(env, v, t);
    ContainerIsPack(env, v, t);
    if Iterable(v) {
      ItemsSent(env, Items(v), RemoveContainers(t));
      SequenceFrom(env, v, t);
    } else {
      NotSent(env, v, t);
    }
  }

  lemma ContainerIsPack(env: Env, v: Py, t: TypeDef)
    requires v != None && !t.container.NoContainer?
    ensures Pack(env, v, t) == PackContainer(env, v, t)
  {
    hide PackContainer;
  }

  lemma NotSent(env: Env, v: Py, t: TypeDef)
    requires Pack(env, v, t).Err?
    ensures Sent(env, v, t)
  {
    hide Pack, Encodes;
  }

  lemma SequenceFrom(env: Env, v: Py, t: TypeDef)
    requires v != None && Iterable(v) && (t.container.ListOf? || t.container.MapInt32?)
    requires var r := PackItems(env, Items(v), RemoveContainers(t), 0);
             && Pack(env, v, t) == MessageOf(t, r)
             && (r.Ok? ==> ItemsEncoded(env, Items(v), RemoveContainers(t), r.value))
    ensures Sent(env, v, t)
  {
    hide Pack, PackItems, Items, ItemsEncoded, Encodes, ContainerEncoded, ContainerMessage;
    var r := PackItems(env, Items(v), RemoveContainers(t), 0);
    if r.Ok? {
      SequenceMessage(env, v, t, r.value);
      EncodedAsContainer(env, v, t, ContainerMessage(t, r.value));
    }
  }

  lemma SequenceMessage(env: Env, v: Py, t: TypeDef, es: seq<Elem>)
    requires Iterable(v) && (t.container.ListOf? || t.container.MapInt32?)
    requires ItemsEncoded(env, Items(v), RemoveContainers(t), es)
    ensures ContainerEncoded(env, v, t, ContainerMessage(t, es))
  {
    hide ItemsEncoded, Items;
  }

  lemma EncodedAsContainer(env: Env, v: Py, t: TypeDef, d: Data)
    requires v != None && !t.container.NoContainer? && ContainerEncoded(env, v, t, d)
    ensures Encodes(env, v, t, d)
  {
    hide ContainerEncoded;
  }

  lemma EncodedAsPlain(env: Env, v: Py, t: TypeDef, d: Data)
    requires IsPlain(v, t) && PlainEncoded(env, v, t, d)
    ensures Encodes(env, v, t, d)
  {
    hide PlainEncoded;
  }

  ghost predicate EntrySent(env: Env, e: Entry, t: TypeDef) {
    Sent(env, e.value, RemoveContainers(t))
  }

  lemma DictSent(env: Env, v: Py, t: TypeDef)
    requires v.Dict? && (t.container.MapInt32? || t.container.MapString?)
    requires forall i | 0 <= i < |v.entries| :: EntrySent(env, v.entries[i], t)
    ensures Sent(env, v, t)
  {
    hide PackMap, PackContainer, EntrySent, Sent, Encodes, Pack, ContainerEncoded;
    DictPacked(env, v, t);
    ContainerIsPack(env, v, t);
    var r := PackMap(env, v.entries, t);
    if r.Ok? {
      EntriesFrom(env, v, t, r.value);
      DictFrom(env, v, t, r.value);
    } else {
      NotSent(env, v, t);
    }
  }

  lemma EntriesFrom(env: Env, v: Py, t: TypeDef, es: seq<Elem>)
    requires v.Dict? && (t.container.MapInt32? || t.container.MapString?) && PackMap(env, v.entries, t) == Ok(es)
    requires forall i | 0 <= i < |v.entries| :: EntrySent(env, v.entries[i], t)
    ensures ContainerEncoded(env, v, t, ContainerMessage(t, es))
  {
    hide Pack, Encodes, PackMap, KeyNumber, IntKeyOk, IsIntKey;
    PackMapEach(env, v.entries, t);
    forall i | 0 <= i < |v.entries|
      ensures Encodes(env, v.entries[i].value, RemoveContainers(t), es[i].data)
      ensures if t.container.MapInt32? then es[i].id.Number? && IsIntKey(v.entries[i].key, es[i].id.i)
              else es[i].id.Name? && v.entries[i].key == Str(es[i].id.s)
    {
      var e := v.entries[i];
      assert Ok(es[i]) == PackEntry(env, e, t);
      assert EntrySent(env, e, t);
      if t.container.MapInt32? {
        KeyNumberMeans(e.key);
      }
    }
  }

  lemma DictFrom(env: Env, v: Py, t: TypeDef, es: seq<Elem>)
    requires v.Dict? && !t.container.NoContainer? && Pack(env, v, t) == Ok(ContainerMessage(t, es))
    requires ContainerEncoded(env, v, t, ContainerMessage(t, es))
    ensures Sent(env, v, t)
  {
    hide Pack, Encodes, ContainerEncoded, ContainerMessage;
    EncodedAsContainer(env, v, t, ContainerMessage(t, es));
  }

  ghost predicate FieldSent(env: Env, attrs: seq<Attr>, f: Field) {
    match AttrIndex(attrs, f.name)
    case Nothing => true
    case Just(i) => Sent(env, attrs[i].value, f.typ)
  }

  lemma FieldFrom(env: Env, attrs: seq<Attr>, f: Field)
    requires FieldSent(env, attrs, f) && PackField(env, attrs, f).Ok?
    ensures FieldEncoded(env, attrs, f, PackField(env, attrs, f).value)
  {
    hide Pack, Encodes, AttrIndex;
    AttrIndexMeans(attrs, f.name);
    var i := AttrIndex(attrs, f.name).value;
    assert IsAttribute(attrs, f.name, i);
  }

  lemma StructSent(env: Env, v: Py, t: TypeDef, q: string)
    requires IsPlain(v, t) && t.base == Named(Structure(q)) && q in env.structs
    requires v.Struct? ==> forall i | 0 <= i < |env.structs[q]| :: FieldSent(env, v.attrs, env.structs[q][i])
    ensures Sent(env, v, t)
  {
    hide Pack, PackPlain, PackFields, Mangle, FieldSent, FieldEncoded, Encodes, PlainEncoded, StructEncoded;
    StructPacked(env, v, t, q);
    PlainIsPack(env, v, t);
    var fs := env.structs[q];
    if v.Struct? && v.pyType == Mangle(q) && PackFields(env, v.attrs, fs).Ok? {
      var es := PackFields(env, v.attrs, fs).value;
      StructFrom(env, v, q, es);
      StructIsPlain(env, v, t, q, Nested(StructureT, q, es));
      EncodedAsPlain(env, v, t, Nested(StructureT, q, es));
    }
  }

  lemma StructFrom(env: Env, v: Py, q: string, es: seq<Elem>)
    requires v.Struct? && v.pyType == Mangle(q) && q in env.structs
    requires PackFields(env, v.attrs, env.structs[q]) == Ok(es)
    requires forall i | 0 <= i < |env.structs[q]| :: FieldSent(env, v.attrs, env.structs[q][i])
    ensures StructEncoded(env, v, q, Nested(StructureT, q, es))
  {
    hide PackFields, Mangle, FieldSent, FieldEncoded, PackField, IsClassName;
    var fs := env.structs[q];
    MangleIsClassName(q);
    PackFieldsEach(env, v.attrs, fs);
    forall i | 0 <= i < |fs| ensures FieldEncoded(env, v.attrs, fs[i], es[i].data) {
      FieldFrom(env, v.attrs, fs[i]);
    }
  }

  lemma StructIsPlain(env: Env, v: Py, t: TypeDef, q: string, d: Data)
    requires t.base == Named(Structure(q)) && StructEncoded(env, v, q, d)
    ensures PlainEncoded(env, v, t, d)
  {
    hide StructEncoded;
  }

  lemma PlainIsPack(env: Env, v: Py, t: TypeDef)
    requires IsPlain(v, t)
    ensures Pack(env, v, t) == PackPlain(env, v, t)
  {
    hide PackPlain;
  }

  // ----- values that hold no others

  lemma NumericSent(env: Env, v: Py, t: TypeDef, k: Kind)
    requires IsPlain(v, t) && t.base == Numeric(k) && PyOk(env, v)
    ensures Sent(env, v, t)
  {
    hide Pack, Encodes, PlainEncoded, PyOk, NumbersSent, Given;
    if Pack(env, v, t).Ok? {
      if v.NdArray? {
        ArraySent(env, v, t, k);
      } else if t.arr.MultiDim? && IsSequence(v) {
        OnlyArraysAreMultiDim(env, v, t, k);
      } else {
        NumbersOnTheWire(env, v, t, k);
        NumbersArePlain(env, v, t, k, Pack(env, v, t).value);
      }
      EncodedAsPlain(env, v, t, Pack(env, v, t).value);
    }
  }

  lemma OnlyArraysAreMultiDim(env: Env, v: Py, t: TypeDef, k: Kind)
    requires IsPlain(v, t) && t.base == Numeric(k) && t.arr.MultiDim? && IsSequence(v) && Pack(env, v, t).Ok?
    ensures v.NdArray?
  {
  }

  lemma NumbersArePlain(env: Env, v: Py, t: TypeDef, k: Kind, d: Data)
    requires t.base == Numeric(k) && !v.NdArray? && NumbersSent(k, Given(v), d)
    ensures PlainEncoded(env, v, t, d)
  {
    hide NumbersSent, Given;
  }

  lemma ArraySent(env: Env, v: Py, t: TypeDef, k: Kind)
    requires IsPlain(v, t) && t.base == Numeric(k) && v.NdArray? && PyOk(env, v) && Pack(env, v, t).Ok?
    ensures PlainEncoded(env, v, t, Pack(env, v, t).value)
  {
    PlainIsPack(env, v, t);
    var d := PackPlain(env, v, t);
    if t.arr.MultiDim? {
      var xs := CellNums(v.cells);
      FlattenedIsListing(v.shape, xs);
      hide FirstIndexFastest, Flattened, Pack;
      assert d == PackMultiDimNumbers(v, t, k);
      assert d.value.elems[0].data == DimsData(v.shape);
    } else {
      hide Pack, NonUnit;
      assert d.value == Nums(k, CellNums(v.cells));
    }
  }

  lemma EnumSent(env: Env, v: Py, t: TypeDef, q: string)
    requires IsPlain(v, t) && t.base == Named(Enum(q)) && PyOk(env, v)
    ensures Sent(env, v, t)
  {
    hide Pack, Encodes, PackNumbers, PyOk, NumbersSent, Given, LengthOk, Sendable;
    PlainIsPack(env, v, t);
    if Pack(env, v, t).Ok? {
      if v.NdArray? {
        EnumArrayPacked(v);
      } else {
        BytesOk(env, v);
        NumbersPacked(v, ENUM_TYPE, Int32);
      }
      EncodedAsPlain(env, v, t, Pack(env, v, t).value);
    }
  }

  lemma EnumArrayPacked(v: Py)
    requires v.NdArray? && PackNumbers(v, ENUM_TYPE, Int32).Ok?
    ensures PackNumbers(v, ENUM_TYPE, Int32).value == CellNums(v.cells)
  {
    hide NonUnit;
  }

  lemma TextSent(env: Env, v: Py, t: TypeDef)
    requires IsPlain(v, t) && !t.base.Numeric? && !t.base.Named?
    ensures Sent(env, v, t)
  {
  }

  lemma RecordsSent(env: Env, v: Py, t: TypeDef, def: NamedDef)
    requires IsPlain(v, t) && t.base == Named(def) && (def.Pod? || def.NamedArray?) && TypeOk(env, t) && PyOk(env, v)
    ensures Sent(env, v, t)
  {
    hide Pack, Encodes, PlainEncoded, PackRecordValue, PackRecordArray, ArrayEncoded, MultiDimElems, TypeOk, PyOk;
    RecordsArePlain(env, v, t, false, def);
    PlainIsPack(env, v, t);
    if Pack(env, v, t).Ok? {
      if t.arr.MultiDim? {
        MultiDimRecordsSent(env, v, t, def);
      } else {
        RecordArraySent(env, v, t, def, t);
        FlatRecordsPacked(v, t, def);
        FlatRecordsArePlain(env, v, t, def, Pack(env, v, t).value);
      }
      EncodedAsPlain(env, v, t, Pack(env, v, t).value);
    }
  }

  lemma FlatRecordsPacked(v: Py, t: TypeDef, def: NamedDef)
    requires !t.arr.MultiDim?
    ensures PackRecordValue(v, t, def) == PackRecordArray(v, t, def)
  {
    hide PackRecordArray;
  }

  lemma FlatRecordsArePlain(env: Env, v: Py, t: TypeDef, def: NamedDef, d: Data)
    requires t.base == Named(def) && (def.Pod? || def.NamedArray?) && v.NdArray? && !t.arr.MultiDim?
    requires ArrayEncoded(v, def, d)
    ensures PlainEncoded(env, v, t, d)
  {
    hide ArrayEncoded;
  }

  /** The type the array is packed with does not show in the message. */
  lemma RecordArraySent(env: Env, v: Py, t: TypeDef, def: NamedDef, t2: TypeDef)
    requires t.base == Named(def) && (def.Pod? || def.NamedArray?) && TypeOk(env, t) && PyOk(env, v)
    ensures PackRecordArray(v, t2, def).Ok? ==> v.NdArray? && ArrayEncoded(v, def, PackRecordArray(v, t2, def).value)
  {
    hide PackPods, PackNamedArray, PodsEncoded, NamedNumbers, CellOk, PodOk, NamedArrayOk;
    if PackRecordArray(v, t2, def).Ok? {
      match def
      case Pod(q, fs) => PodsAreEncoded(env, t2, q, fs, v.shape, v.cells);
      case NamedArray(q, fs) => NamedNumbersPacked(t2, q, fs, v.shape, v.cells);
    }
  }

  lemma MultiDimRecordsSent(env: Env, v: Py, t: TypeDef, def: NamedDef)
    requires IsPlain(v, t) && t.base == Named(def) && (def.Pod? || def.NamedArray?) && TypeOk(env, t) && PyOk(env, v)
    requires t.arr.MultiDim? && PackRecordValue(v, t, def).Ok?
    ensures PlainEncoded(env, v, t, PackRecordValue(v, t, def).value)
  {
    hide PackRecordArray, ArrayEncoded, PyOk, TypeOk;
    RecordArraySent(env, v, t, def, RecordsType(t));
    var flat := PackRecordArray(v, RecordsType(t), def);
    assert PackRecordValue(v, t, def).value.elems == MultiDimElems(v.shape, flat.value);
  }

  // ----- the theorem

  /** Whatever the packer sends stands, by the format, for the value it was given. */
  lemma {:induction false} PackedIsEncoded(env: Env, v: Py, t: TypeDef)
    requires EnvOk(env) && TypeOk(env, t) && PyOk(env, v)
    ensures Sent(env, v, t)
    decreases Rank(v, t.container.NoContainer?), v
  {
    hide EnvOk, PyOk, PodOk, NamedDefOk, Sent, Pack, Encodes, TypeOk;
    if v == None {
      NoneSent(env, t);
    } else if IsVarValueType(t) {
      if v.VarVal? {
        VarValOk(env, v);
        PackedIsEncoded(env, v.data, VarValueType(v.typ));
      }
      VarValSent(env, v, t);
    } else {
      ContentOk(env, v, t);
      if !t.container.NoContainer? {
        ElementsSent(env, v, t);
        ContainerSent(env, v, t);
      } else if t.base.Named? && t.base.def.Structure? {
        StructTypeOk(env, t);
        AttributesSent(env, v, t.base.def.qname);
        StructSent(env, v, t, t.base.def.qname);
      } else {
        LeafSent(env, v, t);
      }
    }
  }

  lemma StructTypeOk(env: Env, t: TypeDef)
    requires TypeOk(env, t) && t.base.Named? && t.base.def.Structure?
    ensures t.base.def.qname in env.structs
  {
  }

  lemma NoneSent(env: Env, t: TypeDef)
    ensures Sent(env, None, t)
  {
  }

  lemma VarValSent(env: Env, v: Py, t: TypeDef)
    requires v != None && IsVarValueType(t) && (v.VarVal? ==> Sent(env, v.data, VarValueType(v.typ)))
    ensures Sent(env, v, t)
  {
  }

  lemma LeafSent(env: Env, v: Py, t: TypeDef)
    requires IsPlain(v, t) && TypeOk(env, t) && PyOk(env, v) && !(t.base.Named? && t.base.def.Structure?)
    ensures Sent(env, v, t)
  {
    hide Sent, TypeOk, PyOk;
    match t.base
    case Numeric(k) => NumericSent(env, v, t, k);
    case Named(Enum(q)) => EnumSent(env, v, t, q);
    case Named(def) => RecordsSent(env, v, t, def);
    case _ => TextSent(env, v, t);
  }

  lemma ContainerSent(env: Env, v: Py, t: TypeDef)
    requires v != None && !t.container.NoContainer?
    requires Iterable(v) ==> forall i | 0 <= i < |Items(v)| :: Sent(env, Items(v)[i], RemoveContainers(t))
    requires v.Dict? ==> forall i | 0 <= i < |v.entries| :: EntrySent(env, v.entries[i], t)
    ensures Sent(env, v, t)
  {
    hide Sent, EntrySent, Items, PackContainer;
    if t.container.ListOf? || (t.container.MapInt32? && IsSequence(v)) {
      SequenceSent(env, v, t);
    } else if v.Dict? {
      DictSent(env, v, t);
    } else {
      DictPacked(env, v, t);
      ContainerIsPack(env, v, t);
      NotSent(env, v, t);
    }
  }

  lemma {:induction false} ElementsSent(env: Env, v: Py, t: TypeDef)
    requires EnvOk(env) && TypeOk(env, RemoveContainers(t)) && !t.container.NoContainer?
    requires Iterable(v) ==> forall i | 0 <= i < |Items(v)| :: PyOk(env, Items(v)[i])
    requires v.Dict? ==> forall i | 0 <= i < |v.entries| :: PyOk(env, v.entries[i].value)
    ensures Iterable(v) ==> forall i | 0 <= i < |Items(v)| :: Sent(env, Items(v)[i], RemoveContainers(t))
    ensures v.Dict? ==> forall i | 0 <= i < |v.entries| :: EntrySent(env, v.entries[i], t)
    decreases Rank(v, false), v, 0
  {
    hide EnvOk, PyOk, TypeOk, Sent, Items;
    if Iterable(v) {
      forall i | 0 <= i < |Items(v)| ensures Sent(env, Items(v)[i], RemoveContainers(t)) {
        PackedIsEncoded(env, Items(v)[i], RemoveContainers(t));
      }
    }
    if v.Dict? {
      forall i | 0 <= i < |v.entries| ensures EntrySent(env, v.entries[i], t) {
        var e := v.entries[i];
        assert e.value < e;
        PackedIsEncoded(env, e.value, RemoveContainers(t));
      }
    }
  }

  lemma {:induction false} AttributesSent(env: Env, v: Py, q: string)
    requires EnvOk(env) && q in env.structs
    requires v.Struct? ==> forall i | 0 <= i < |v.attrs| :: PyOk(env, v.attrs[i].value)
    ensures v.Struct? ==> forall i | 0 <= i < |env.structs[q]| :: FieldSent(env, v.attrs, env.structs[q][i])
    decreases Rank(v, true), v, 0
  {
    StructDefOk(env, q);
    hide EnvOk, PyOk, TypeOk, Sent;
    if v.Struct? {
      var fs := env.structs[q];
      forall i | 0 <= i < |fs| ensures FieldSent(env, v.attrs, fs[i]) {
        match AttrIndex(v.attrs, fs[i].name)
        case Nothing =>
        case Just(j) =>
          assert v.attrs[j].value < v.attrs[j];
          PackedIsEncoded(env, v.attrs[j].value, fs[i].typ);
      }
    }
  }

  // ----- the items of a sequence

  lemma RowIndexCons(shape: seq<nat>, i: nat, rest: seq<nat>)
    requires InBounds(shape, [i] + rest)
    ensures |rest| == |shape[1..]| && InBounds(shape[1..], rest) && i < shape[0]
    ensures RowIndex(shape, [i] + rest) == i * Product(shape[1..]) + RowIndex(shape[1..], rest)
    ensures Product(shape) == shape[0] * Product(shape[1..])
  {
    var idx := [i] + rest;
    assert idx[1..] == rest && idx[0] == i;
    assert forall d | 0 <= d < |rest| :: rest[d] == idx[d + 1];
  }

  lemma PartAt(cells: seq<Cell>, n: nat, count: nat, i: nat, r: nat)
    requires |cells| == count * n && i < count && r < n
    ensures i * n + n <= |cells| && cells[i * n..i * n + n][r] == cells[i * n + r]
  {
    MulMonotone(n, i + 1, count);
  }

  lemma SubArrayAt(dtype: DType, shape: seq<nat>, cells: seq<Cell>, i: nat, rest: seq<nat>)
    requires |cells| == Product(shape) && InBounds(shape, [i] + rest) && |shape| > 1
    ensures var item := ArrayItem(dtype, shape, cells, i);
            && item.NdArray? && item.dtype == dtype && item.shape == shape[1..]
            && RowIndex(shape[1..], rest) < |item.cells| && RowIndex(shape, [i] + rest) < |cells|
            && item.cells[RowIndex(shape[1..], rest)] == cells[RowIndex(shape, [i] + rest)]
  {
    hide RowIndex, Product;
    RowIndexCons(shape, i, rest);
    RowIndexInverse(shape[1..], rest);
    PartAt(cells, Product(shape[1..]), shape[0], i, RowIndex(shape[1..], rest));
  }

  /** The items of a numpy array of numbers are its numbers if it has one dimension, and else arrays that hold,
      at every index, the element whose index is the item's position followed by that index. */
  lemma ItemsOfArray(v: Py, i: nat, rest: seq<nat>)
    requires v.NdArray? && |v.cells| == Product(v.shape) && InBounds(v.shape, [i] + rest)
    ensures |Items(v)| == v.shape[0] && i < |Items(v)|
    ensures rest == [] && v.dtype.DNum? && i < |v.cells| && v.cells[i].NumCell? ==>
              Items(v)[i] == NpScalar(v.dtype.kind, v.cells[i].x)
    ensures rest != [] ==>
              var item := Items(v)[i];
              && item.NdArray? && item.dtype == v.dtype && item.shape == v.shape[1..]
              && RowIndex(v.shape[1..], rest) < |item.cells| && RowIndex(v.shape, [i] + rest) < |v.cells|
              && item.cells[RowIndex(v.shape[1..], rest)] == v.cells[RowIndex(v.shape, [i] + rest)]
  {
    hide RowIndex, Product;
    RowIndexCons(v.shape, i, rest);
    if rest != [] {
      SubArrayAt(v.dtype, v.shape, v.cells, i, rest);
    }
  }

  /** The items of a string are its characters, those of a byte array its bytes. */
  lemma ItemsOfText(v: Py, i: nat)
    requires (v.Str? && i < |v.s|) || (v.ByteArray? && i < |v.bytes|)
    ensures v.Str? ==> |Items(v)| == |v.s| && Items(v)[i] == Str([v.s[i]])
    ensures v.ByteArray? ==> |Items(v)| == |v.bytes| && Items(v)[i] == PyInt(v.bytes[i])
  {
  }
}
