/** Exactly which values can be sent as a type, said apart from the packer. */
module PacksExactly {
  import opened ColumnMajor
  import opened Types
  import opened Packing
  import opened PodRoundTrip
  import opened Containers
  import opened RoundTripProof
  import opened NumberMeaning
  import opened WireFormat
  import opened WireValues
  import opened ReadRecords

  // ----- the values that can be sent

  /** A missing value stands for no number, text or record. */
  predicate NoneSendable(t: TypeDef) {
    t.container.NoContainer? ==>
      !t.base.Numeric? && !t.base.Text? && !(t.base.Named? && (t.base.def.Pod? || t.base.def.NamedArray?))
  }

  /** A list, text, byte array or numpy array with at least one dimension, of at most 2147483647 items. */
  predicate Listable(v: Py) {
    match v
    case List(items) => |items| < 0x8000_0000
    case Str(s) => |s| < 0x8000_0000
    case ByteArray(bs) => |bs| < 0x8000_0000
    case NdArray(_, shape, _) => shape != [] && shape[0] < 0x8000_0000
    case _ => false
  }

  /** `v` can be sent as a `t`. */
  ghost predicate Packs(env: Env, v: Py, t: TypeDef)
    decreases Rank(v, t.container.NoContainer?), v, 2
  {
    if v == None then NoneSendable(t)
    else if !t.container.NoContainer? then ContainerPacks(env, v, t)
    else if t.base.VarValue? then
      v.VarVal? && Packs(env, v.data, if v.typ.base.Named? && v.typ.base.def.Pod? && v.typ.arr.NotArray?
                                      then v.typ.(arr := Array) else v.typ)
    else PlainPacks(env, v, t)
  }

  ghost predicate ContainerPacks(env: Env, v: Py, t: TypeDef)
    requires !t.container.NoContainer?
    decreases Rank(v, false), v, 1
  {
    var e := RemoveContainers(t);
    if t.container.ListOf? || (t.container.MapInt32? && !v.Dict?) then
      Listable(v) && forall i | 0 <= i < |Items(v)| :: Packs(env, Items(v)[i], e)
    else
      v.Dict? && forall i | 0 <= i < |v.entries| ::
        && (if t.container.MapInt32? then exists n :: IsIntKey(v.entries[i].key, n) else v.entries[i].key.Str?)
        && assert v.entries[i].value < v.entries[i]; Packs(env, v.entries[i].value, e)
  }

  /** Numbers, given one by one or as a numpy array of their kind. */
  ghost predicate NumbersPack(v: Py, t: TypeDef, k: Kind) {
    if v.NdArray? then
      v.dtype == DNum(k) && if t.arr.MultiDim? then t.varLength || t.lengths == v.shape else OneRow(v.shape)
    else
      && (IsNumber(v) || ((v.List? || v.Str? || v.ByteArray?) && !t.arr.MultiDim?))
      && LengthOk(t, |Given(v)|)
      && forall i | 0 <= i < |Given(v)| :: Sendable(k, Given(v)[i])
  }

  ghost predicate PlainPacks(env: Env, v: Py, t: TypeDef)
    decreases Rank(v, true), v, 1
  {
    match t.base
    case Numeric(k) => NumbersPack(v, t, k)
    case Text => v.Str?
    case Named(Structure(q)) => StructPacks(env, v, q)
    case Named(Enum(_)) => NumbersPack(v, TypeDef("value", Numeric(Int32), NotArray, false, [], NoContainer), Int32)
    case Named(def) => RecordsPack(v, t, def)
    case _ => false
  }

  /** An array of records of the type, as many as its dimensions admit; each of its pods has its lengths within
      bounds and no single bool. */
  ghost predicate RecordsPack(v: Py, t: TypeDef, def: NamedDef) {
    && v.NdArray? && v.dtype == DNamed(def.qname)
    && (t.arr.NotArray? ==> |v.cells| == 1) && (t.arr.MultiDim? || CountOk(Just(t), |v.cells|))
    && (def.Pod? ==> forall c | c in v.cells :: CellFits(def.fields, c))
  }

  /** An object of the structure's class with an attribute for each field. */
  ghost predicate StructPacks(env: Env, v: Py, q: string)
    decreases Rank(v, true), v, 0
  {
    && v.Struct? && q in env.structs && IsClassName(q, v.pyType)
    && forall i | 0 <= i < |env.structs[q]| :: FieldPacks(env, v.attrs, env.structs[q][i])
  }

  ghost predicate FieldPacks(env: Env, attrs: seq<Attr>, f: Field)
    decreases if attrs == [] then 0 else 4, attrs, 0
  {
    exists i: nat :: IsAttribute(attrs, f.name, i)
                     && assert attrs[i].value < attrs[i]; Packs(env, attrs[i].value, f.typ)
  }

  // ----- single values

  ghost predicate Exact(env: Env, v: Py, t: TypeDef) {
    Pack(env, v, t).Ok? <==> Packs(env, v, t)
  }

  lemma NoneExactly(env: Env, t: TypeDef)
    ensures Exact(env, None, t)
  {
  }

  lemma ListableIsIterable(v: Py)
    ensures Iterable(v) <==> Listable(v)
  {
  }

  lemma NumericExactly(env: Env, v: Py, t: TypeDef, k: Kind)
    requires IsPlain(v, t) && t.base == Numeric(k) && PyOk(env, v)
    ensures Pack(env, v, t).Ok? <==> NumbersPack(v, t, k)
  {
    hide Pack, OneRow, PyOk, LengthOk, Sendable, Given;
    if v.NdArray? {
      if t.arr.MultiDim? {
        NumberMeaning.MultiDimPacked(env, v, t, k);
      } else {
        ArrayOnTheWire(env, v, t, k);
      }
    } else if t.arr.MultiDim? && IsSequence(v) {
      if Pack(env, v, t).Ok? {
        OnlyArraysAreMultiDim(env, v, t, k);
      }
    } else {
      NumbersOnTheWire(env, v, t, k);
    }
  }

  lemma EnumExactly(env: Env, v: Py, t: TypeDef, q: string)
    requires IsPlain(v, t) && t.base == Named(Enum(q)) && PyOk(env, v)
    ensures Pack(env, v, t).Ok? <==> NumbersPack(v, ENUM_TYPE, Int32)
  {
    hide Pack, PackNumbers, OneRow, PyOk, LengthOk, Sendable, Given;
    PlainIsPack(env, v, t);
    if v.NdArray? {
      ArrayOnTheWire(env, v, ENUM_TYPE, Int32);
      PlainIsPack(env, v, ENUM_TYPE);
    } else {
      BytesOk(env, v);
      NumbersPacked(v, ENUM_TYPE, Int32);
    }
  }

  lemma RecordsExactly(env: Env, v: Py, t: TypeDef, def: NamedDef)
    requires IsPlain(v, t) && t.base == Named(def) && IsRecords(t) && TypeOk(env, t) && PyOk(env, v)
    ensures Pack(env, v, t).Ok? <==> RecordsPack(v, t, def)
  {
    hide Pack, PackRecordArray, CellFits, PyOk, TypeOk, CountOk, CheckRecords, RecordArrayReturns;
    RecordsArePlain(env, v, t, false, def);
    PlainIsPack(env, v, t);
    if v.NdArray? {
      RecordArrayReturn(env, v, t, Nothing, def);
      RecordArrayExactly(env, v, t, def);
      RecordArrayExactly(env, v, RecordsType(t), def);
      RecordsAdmitted(t, |v.cells|);
    } else {
      OnlyArraysHoldRecords(v, t, def);
    }
  }

  lemma OnlyArraysHoldRecords(v: Py, t: TypeDef, def: NamedDef)
    requires !v.NdArray?
    ensures PackRecordValue(v, t, def).Err?
  {
  }

  lemma RecordArrayExactly(env: Env, v: Py, t: TypeDef, def: NamedDef)
    requires v.NdArray? && (def.Pod? || def.NamedArray?) && RecordArrayReturns(env, v, t, Nothing, def)
    ensures PackRecordArray(v, t, def).Ok? <==>
              && v.dtype == DNamed(def.qname) && CheckRecords(t, |v.cells|).Ok?
              && (def.Pod? ==> forall c | c in v.cells :: CellFits(def.fields, c))
  {
    hide PackRecordArray, CheckRecords, CellFits;
  }

  lemma RecordsAdmitted(t: TypeDef, n: nat)
    ensures CheckRecords(t, n).Ok? <==> (t.arr.NotArray? ==> n == 1) && CountOk(Just(t), n)
    ensures CheckRecords(RecordsType(t), n).Ok?
  {
    CountsAgree(Just(t), n);
  }

  lemma LeafExactly(env: Env, v: Py, t: TypeDef)
    requires IsPlain(v, t) && TypeOk(env, t) && PyOk(env, v) && !(t.base.Named? && t.base.def.Structure?)
    ensures Exact(env, v, t)
  {
    hide NumbersPack, RecordsPack, TypeOk, PyOk, Pack, StructPacks;
    assert Packs(env, v, t) == PlainPacks(env, v, t) by { hide PlainPacks; }
    match t.base
    case Numeric(k) => NumericExactly(env, v, t, k);
    case Named(Enum(q)) => EnumExactly(env, v, t, q);
    case Named(def) => RecordsExactly(env, v, t, def);
    case _ => TextExactly(env, v, t);
  }

  lemma TextExactly(env: Env, v: Py, t: TypeDef)
    requires IsPlain(v, t) && !t.base.Numeric? && !t.base.Named?
    ensures Pack(env, v, t).Ok? <==> t.base.Text? && v.Str?
  {
  }

  // ----- containers and structures

  lemma SequenceExactly(env: Env, v: Py, t: TypeDef)
    requires v != None && (t.container.ListOf? || (t.container.MapInt32? && !v.Dict?))
    requires Iterable(v) ==> forall i | 0 <= i < |Items(v)| :: Exact(env, Items(v)[i], RemoveContainers(t))
    ensures Exact(env, v, t)
  {
    hide Pack, Packs, PackItems, PackContainer, Items, RemoveContainers, Listable;
    ContainerIsPack(env, v, t);
    ListableIsIterable(v);
    assert Packs(env, v, t) == ContainerPacks(env, v, t) by { ContainerIsPacks(env, v, t); }
    if IsSequence(v) || t.container.ListOf? {
      SequencePacked(env, v, t);
      if Iterable(v) {
        PackItemsEach(env, Items(v), RemoveContainers(t), 0);
      }
    } else {
      DictPacked(env, v, t);
    }
  }

  lemma ContainerIsPacks(env: Env, v: Py, t: TypeDef)
    requires v != None && !t.container.NoContainer?
    ensures Packs(env, v, t) == ContainerPacks(env, v, t)
  {
    hide ContainerPacks;
  }

  lemma DictExactly(env: Env, v: Py, t: TypeDef)
    requires v != None && (t.container.MapString? || (t.container.MapInt32? && v.Dict?))
    requires v.Dict? ==> forall i | 0 <= i < |v.entries| :: Exact(env, v.entries[i].value, RemoveContainers(t))
    ensures Exact(env, v, t)
  {
    hide Pack, Packs, PackMap, PackContainer, RemoveContainers, IsIntKey, IntKeyOk, KeyNumber;
    ContainerIsPack(env, v, t);
    ContainerIsPacks(env, v, t);
    DictPacked(env, v, t);
    if v.Dict? {
      PackMapEach(env, v.entries, t);
      forall i | 0 <= i < |v.entries|
        ensures PackEntry(env, v.entries[i], t).Ok? <==>
                && (if t.container.MapInt32? then exists n :: IsIntKey(v.entries[i].key, n) else v.entries[i].key.Str?)
                && Packs(env, v.entries[i].value, RemoveContainers(t))
      {
        AcceptedKeys(v.entries[i].key);
        assert Exact(env, v.entries[i].value, RemoveContainers(t));
      }
    }
  }

  lemma {:induction false} ClassNameIsOne(q: string, name: string)
    requires IsClassName(q, name)
    ensures name == Mangle(q)
  {
    if q != "" {
      if q[0] == '.' {
        ClassNameIsOne(q[1..], name[2..]);
        assert name == "__" + name[2..];
      } else {
        ClassNameIsOne(q[1..], name[1..]);
        assert name == [q[0]] + name[1..];
      }
    }
  }

  ghost predicate FieldExact(env: Env, attrs: seq<Attr>, f: Field) {
    match AttrIndex(attrs, f.name)
    case Nothing => true
    case Just(i) => Exact(env, attrs[i].value, f.typ)
  }

  lemma FieldExactly(env: Env, attrs: seq<Attr>, f: Field)
    requires FieldExact(env, attrs, f)
    ensures PackField(env, attrs, f).Ok? <==> FieldPacks(env, attrs, f)
  {
    hide Pack, Packs, AttrIndex;
    AttrIndexMeans(attrs, f.name);
    match AttrIndex(attrs, f.name)
    case Nothing =>
    case Just(i) =>
      assert IsAttribute(attrs, f.name, i);
      assert forall j | IsAttribute(attrs, f.name, j) :: j == i;
  }

  lemma StructExactly(env: Env, v: Py, t: TypeDef, q: string)
    requires IsPlain(v, t) && t.base == Named(Structure(q)) && q in env.structs
    requires v.Struct? ==> forall i | 0 <= i < |env.structs[q]| :: FieldExact(env, v.attrs, env.structs[q][i])
    ensures Exact(env, v, t)
  {
    hide Pack, PackPlain, PackFields, PackField, Mangle, IsClassName, FieldExact, FieldPacks;
    StructPacked(env, v, t, q);
    PlainIsPack(env, v, t);
    assert Packs(env, v, t) == StructPacks(env, v, q) by { hide StructPacks; }
    if v.Struct? {
      MangleIsClassName(q);
      if IsClassName(q, v.pyType) {
        ClassNameIsOne(q, v.pyType);
      }
      var fs := env.structs[q];
      PackFieldsEach(env, v.attrs, fs);
      forall i | 0 <= i < |fs| ensures PackField(env, v.attrs, fs[i]).Ok? <==> FieldPacks(env, v.attrs, fs[i]) {
        FieldExactly(env, v.attrs, fs[i]);
      }
    }
  }

  lemma VarValExactly(env: Env, v: Py, t: TypeDef)
    requires v != None && IsVarValueType(t) && (v.VarVal? ==> Exact(env, v.data, VarValueType(v.typ)))
    ensures Exact(env, v, t)
  {
  }

  // ----- the theorem

  /** A value is packed if and only if it can be sent as the type, and what is sent stands for it. */
  lemma PacksExactly(env: Env, v: Py, t: TypeDef)
    requires EnvOk(env) && TypeOk(env, t) && PyOk(env, v)
    ensures Pack(env, v, t).Ok? <==> Packs(env, v, t)
    ensures Pack(env, v, t).Ok? ==> Encodes(env, v, t, Pack(env, v, t).value)
  {
    hide Pack, Packs, Encodes, EnvOk, TypeOk, PyOk;
    EveryValueExactly(env, v, t);
    PackedIsEncoded(env, v, t);
  }

  lemma {:induction false} EveryValueExactly(env: Env, v: Py, t: TypeDef)
    requires EnvOk(env) && TypeOk(env, t) && PyOk(env, v)
    ensures Exact(env, v, t)
    decreases Rank(v, t.container.NoContainer?), v
  {
    hide EnvOk, PyOk, PodOk, NamedDefOk, Exact, Pack, Packs, TypeOk;
    if v == None {
      NoneExactly(env, t);
    } else if IsVarValueType(t) {
      if v.VarVal? {
        VarValOk(env, v);
        EveryValueExactly(env, v.data, VarValueType(v.typ));
      }
      VarValExactly(env, v, t);
    } else {
      ContentOk(env, v, t);
      if !t.container.NoContainer? {
        ElementsExactly(env, v, t);
        if t.container.ListOf? || (t.container.MapInt32? && !v.Dict?) {
          SequenceExactly(env, v, t);
        } else {
          DictExactly(env, v, t);
        }
      } else if t.base.Named? && t.base.def.Structure? {
        StructTypeOk(env, t);
        AttributesExactly(env, v, t.base.def.qname);
        StructExactly(env, v, t, t.base.def.qname);
      } else {
        LeafExactly(env, v, t);
      }
    }
  }

  lemma {:induction false} ElementsExactly(env: Env, v: Py, t: TypeDef)
    requires EnvOk(env) && TypeOk(env, RemoveContainers(t)) && !t.container.NoContainer?
    requires Iterable(v) ==> forall i | 0 <= i < |Items(v)| :: PyOk(env, Items(v)[i])
    requires v.Dict? ==> forall i | 0 <= i < |v.entries| :: PyOk(env, v.entries[i].value)
    ensures Iterable(v) ==> forall i | 0 <= i < |Items(v)| :: Exact(env, Items(v)[i], RemoveContainers(t))
    ensures v.Dict? ==> forall i | 0 <= i < |v.entries| :: Exact(env, v.entries[i].value, RemoveContainers(t))
    decreases Rank(v, false), v, 0
  {
    hide EnvOk, PyOk, TypeOk, Exact, Items;
    if Iterable(v) {
      forall i | 0 <= i < |Items(v)| ensures Exact(env, Items(v)[i], RemoveContainers(t)) {
        EveryValueExactly(env, Items(v)[i], RemoveContainers(t));
      }
    }
    if v.Dict? {
      forall i | 0 <= i < |v.entries| ensures Exact(env, v.entries[i].value, RemoveContainers(t)) {
        var e := v.entries[i];
        assert e.value < e;
        EveryValueExactly(env, e.value, RemoveContainers(t));
      }
    }
  }

  lemma {:induction false} AttributesExactly(env: Env, v: Py, q: string)
    requires EnvOk(env) && q in env.structs
    requires v.Struct? ==> forall i | 0 <= i < |v.attrs| :: PyOk(env, v.attrs[i].value)
    ensures v.Struct? ==> forall i | 0 <= i < |env.structs[q]| :: FieldExact(env, v.attrs, env.structs[q][i])
    decreases Rank(v, true), v, 0
  {
    StructDefOk(env, q);
    hide EnvOk, PyOk, TypeOk, Exact;
    if v.Struct? {
      var fs := env.structs[q];
      forall i | 0 <= i < |fs| ensures FieldExact(env, v.attrs, fs[i]) {
        match AttrIndex(v.attrs, fs[i].name)
        case Nothing =>
        case Just(j) =>
          assert v.attrs[j].value < v.attrs[j];
          EveryValueExactly(env, v.attrs[j].value, fs[i].typ);
      }
    }
  }
}
