/** What a receiver makes of a message, said apart from the unpacker: which Python value a message element stands
    for, with or without a declared type. */
module ReadValues {
  import opened ColumnMajor
  import opened Types
  import opened Packing
  import opened Unpacking
  import opened NumberMeaning
  import opened WireFormat
  import opened WireValues
  import opened ReadRecords

  /** The type of a varvalue content, by what was received. */
  function ContentType(d: Data): Option<TypeDef> {
    var any := TypeDef("value", VarValue, NotArray, false, [], NoContainer);
    if !d.Nested? then Nothing
    else if d.typ.ListT? then Just(any.(container := ListOf))
    else if d.typ.VectorT? then Just(any.(container := MapInt32))
    else if d.typ.DictionaryT? then Just(any.(container := MapString))
    else Nothing
  }

  predicate IsAny(t: Option<TypeDef>) {
    t.Just? && t.value.base.VarValue?
  }

  function Any(): Option<TypeDef> {
    Just(TypeDef("value", VarValue, NotArray, false, [], NoContainer))
  }

  function ItemType(t: Option<TypeDef>): Option<TypeDef> {
    if t.Just? then Just(t.value.(container := NoContainer)) else Nothing
  }

  /** The type a varvalue is said to have: containers of varvalues, arrays without bounds, and named types as the
      receiver knows them. */
  predicate TypeGiven(env: Env, d: Data, t: TypeDef) {
    match d
    case Null => false
    case Nums(k, _) =>
      t.base == Numeric(k) && t.arr.Array? && t.varLength && t.lengths == [0] && t.container.NoContainer?
    case Chars(_) => t.base.Text? && t.arr.NotArray? && t.container.NoContainer?
    case Nested(kind, q, _) =>
      match kind
      case StructureT => t.base == Named(Structure(q)) && t.arr.NotArray? && t.container.NoContainer?
      case ListT => t.base.VarValue? && t.arr.NotArray? && t.container.ListOf?
      case VectorT => t.base.VarValue? && t.arr.NotArray? && t.container.MapInt32?
      case DictionaryT => t.base.VarValue? && t.arr.NotArray? && t.container.MapString?
      case MultiDimT => t.base.Numeric? && t.arr.MultiDim? && t.varLength && t.container.NoContainer?
      case PodT => false
      case PodArrayT => q in env.pods && t.base == Named(Pod(q, env.pods[q])) && t.arr.Array? && t.lengths == [0]
      case PodMultiDimT => q in env.pods && t.base == Named(Pod(q, env.pods[q])) && t.arr.MultiDim?
      case NamedArrayT =>
        q in env.named && t.base == Named(NamedArray(q, env.named[q])) && t.arr.Array? && t.lengths == [0]
      case NamedMultiDimT => q in env.named && t.base == Named(NamedArray(q, env.named[q])) && t.arr.MultiDim?
  }

  /** The value of an element, read as a `t`. */
  ghost predicate Decodes(env: Env, d: Data, t: Option<TypeDef>, w: Py)
    decreases d, if IsAny(t) && t.value.container.NoContainer? then 2 else 1
  {
    if t.Just? && t.value.base.Void? then w == None
    else if d.Null? then
      // a missing value is refused where numbers, text or pods are declared
      w == None && (t.Just? && t.value.container.NoContainer? ==>
                      !t.value.base.Numeric? && !t.value.base.Text? && !(t.value.base.Named? && t.value.base.def.Pod?))
    else if IsAny(t) then
      if t.value.container.NoContainer? then
        w.VarVal? && Decodes(env, d, ContentType(d), w.data) && TypeGiven(env, d, w.typ)
      else AnyContainerRead(env, d, w)
    else
      match d
      case Nums(k, xs) =>
        var enum := t.Just? && t.value.base.Named? && t.value.base.def.Enum?;
        var int32 := TypeDef("value", Numeric(Int32), NotArray, false, [], NoContainer);
        NumbersRead(k, xs, if enum then Just(int32) else t, w)
      case Chars(s) => w == Str(s)
      case Nested(_, _, _) => NestedRead(env, d, t, w)
  }

  /** A container of varvalues, of whatever kind was sent. */
  ghost predicate AnyContainerRead(env: Env, d: Data, w: Py)
    decreases d, 0
  {
    && d.Nested?
    && match d.typ
       case ListT => w.List? && ItemsRead(env, d.elems, Any(), w.items)
       case VectorT => w.Dict? && MapRead(env, d.elems, Any(), true, w.entries)
       case DictionaryT => w.Dict? && MapRead(env, d.elems, Any(), false, w.entries)
       case _ => false
  }

  ghost predicate NestedRead(env: Env, d: Data, t: Option<TypeDef>, w: Py)
    requires d.Nested?
    decreases d, 0
  {
    match d.typ
    case StructureT =>
      w.Struct? && d.typeName in env.structs && IsClassName(d.typeName, w.pyType)
      && AttributesRead(env, env.structs[d.typeName], d.elems, w.attrs)
    case ListT => w.List? && ItemsRead(env, d.elems, ItemType(t), w.items)
    case VectorT => w.Dict? && MapRead(env, d.elems, ItemType(t), true, w.entries)
    case DictionaryT => w.Dict? && MapRead(env, d.elems, ItemType(t), false, w.entries)
    case MultiDimT => MultiDimRead(d.elems, t, w)
    case PodT => false
    case PodArrayT =>
      w.NdArray? && w.dtype == DNamed(d.typeName) && w.shape == [|w.cells|] && PodsRead(env, d, t, w.cells)
    case NamedArrayT =>
      w.NdArray? && w.dtype == DNamed(d.typeName) && w.shape == [|w.cells|] && NamedRead(env, d, t, w.cells)
    case _ => MultiDimRecordsRead(env, d, t, w)
  }

  /** List elements carry their own position. */
  ghost predicate ItemsRead(env: Env, es: seq<Elem>, t: Option<TypeDef>, items: seq<Py>)
    decreases es, 0
  {
    |items| == |es| && forall i | 0 <= i < |es| ::
      Numbered(es[i].id, i) && assert es[i].data < es[i]; Decodes(env, es[i].data, t, items[i])
  }

  /** The key of a map element: its number, or its name. */
  predicate IsKey(id: Id, int32: bool, key: Py) {
    if int32 then key.PyInt? && Numbered(id, key.n)
    else key == Str(match id case Name(s) => s case Number(_) => "")
  }

  /** No later element has the same key. */
  predicate LastOfKey(es: seq<Elem>, i: nat, int32: bool, key: Py) {
    i < |es| && IsKey(es[i].id, int32, key) && forall j | i < j < |es| :: !IsKey(es[j].id, int32, key)
  }

  /** A dictionary has each key once, with the value of the last element of that key. */
  ghost predicate MapRead(env: Env, es: seq<Elem>, t: Option<TypeDef>, int32: bool, entries: seq<Entry>)
    decreases es, 0
  {
    && KeysOnce(entries)
    && (forall e | e in entries :: EntryRead(env, es, t, int32, e))
    && (forall i | 0 <= i < |es| :: HasKey(entries, es[i].id, int32))
    && forall i | 0 <= i < |es| :: SomeRead(env, es[i], t)
  }

  predicate HasKey(entries: seq<Entry>, id: Id, int32: bool) {
    exists e | e in entries :: IsKey(id, int32, e.key)
  }

  ghost predicate SomeRead(env: Env, e: Elem, t: Option<TypeDef>)
    decreases e, 0
  {
    exists w :: Decodes(env, e.data, t, w)
  }

  predicate KeysOnce(entries: seq<Entry>) {
    forall j, k | 0 <= j < k < |entries| :: entries[j].key != entries[k].key
  }

  ghost predicate EntryRead(env: Env, es: seq<Elem>, t: Option<TypeDef>, int32: bool, e: Entry)
    decreases es, 0, 0
  {
    exists i: nat :: LastOfKey(es, i, int32, e.key) && assert es[i].data < es[i]; Decodes(env, es[i].data, t, e.value)
  }

  /** Each attribute is read from the first element of its name, with the type of the field. */
  ghost predicate AttributesRead(env: Env, fs: seq<Field>, es: seq<Elem>, attrs: seq<Attr>)
    decreases es, 1
  {
    |attrs| == |fs| && forall i | 0 <= i < |fs| ::
      attrs[i].name == fs[i].name && AttributeRead(env, fs[i], es, attrs[i].value)
  }

  ghost predicate AttributeRead(env: Env, f: Field, es: seq<Elem>, w: Py)
    decreases es, 0
  {
    exists j: nat :: IsFirstNamed(es, f.name, j) && assert es[j].data < es[j]; Decodes(env, es[j].data, Just(f.typ), w)
  }

  /** The type without a bound on the number of records. */
  function AnyNumber(t: Option<TypeDef>): Option<TypeDef> {
    if t.Just? then Just(t.value.(arr := Array, lengths := [], varLength := true)) else Nothing
  }

  /** Records under the dimensions sent with them, the first index varying fastest. */
  ghost predicate MultiDimRecordsRead(env: Env, d: Data, t: Option<TypeDef>, w: Py)
    requires d.Nested?
  {
    && w.NdArray?
    && exists flat: Data, listed: seq<Cell> ::
         && DimsAndArray(d.elems, w.shape, flat) && flat.Nested? && w.dtype == DNamed(flat.typeName)
         && (if d.typ.PodMultiDimT? then PodsRead(env, flat, AnyNumber(t), listed)
             else NamedRead(env, flat, AnyNumber(t), listed))
         && FirstIndexFastest(w.shape, w.cells, listed)
  }

  // ----- dictionaries

  /** Setting a key replaces its entry or adds one, and leaves the others. */
  lemma {:induction false} DictSetMeans(entries: seq<Entry>, key: Py, value: Py)
    requires KeysOnce(entries)
    ensures KeysOnce(DictSet(entries, key, value))
    ensures forall e :: e in DictSet(entries, key, value) <==>
                        e == Entry(key, value) || (e in entries && e.key != key)
  {
    if entries != [] {
      var e, rest := entries[0], entries[1..];
      KeysOnceTail(entries);
      DictSetMeans(rest, key, value);
      assert entries == [e] + rest;
      var r := DictSet(entries, key, value);
      if e.key == key {
        assert r == [Entry(key, value)] + rest;
        KeysOnceCons(Entry(key, value), rest);
      } else {
        assert r == [e] + DictSet(rest, key, value);
        KeysOnceCons(e, DictSet(rest, key, value));
      }
    }
  }

  lemma KeysOnceTail(entries: seq<Entry>)
    requires KeysOnce(entries) && entries != []
    ensures KeysOnce(entries[1..]) && forall e | e in entries[1..] :: e.key != entries[0].key
  {
    var rest := entries[1..];
    assert forall j | 0 <= j < |rest| :: rest[j] == entries[j + 1];
  }

  lemma KeysOnceCons(e: Entry, rest: seq<Entry>)
    requires KeysOnce(rest) && forall x | x in rest :: x.key != e.key
    ensures KeysOnce([e] + rest)
  {
    var all := [e] + rest;
    forall j, k | 0 <= j < k < |all| ensures all[j].key != all[k].key {
      assert all[k] == rest[k - 1] && rest[k - 1] in rest;
      assert j > 0 ==> all[j] == rest[j - 1];
    }
  }

  lemma KeyIsOne(id: Id, int32: bool, a: Py, b: Py)
    requires IsKey(id, int32, a) && IsKey(id, int32, b)
    ensures a == b
  {
    hide Writes;
    if int32 {
      ItemNumberMeans(id);
    }
  }

  /** One more element: its key has its value, the other entries are as before. */
  lemma MapGrows(env: Env, es: seq<Elem>, t: Option<TypeDef>, int32: bool, entries: seq<Entry>, e: Elem, key: Py, w: Py)
    requires MapRead(env, es, t, int32, entries) && IsKey(e.id, int32, key) && Decodes(env, e.data, t, w)
    ensures MapRead(env, es + [e], t, int32, DictSet(entries, key, w))
  {
    hide Decodes, DictSet, KeysOnce, IsKey, EntryRead;
    var all, r := es + [e], DictSet(entries, key, w);
    DictSetMeans(entries, key, w) by { KeysOnceOf(env, es, t, int32, entries); }
    forall x | x in r ensures EntryRead(env, all, t, int32, x) {
      if x == Entry(key, w) {
        NewEntryRead(env, es, t, int32, e, key, w);
      } else {
        OldEntryRead(env, es, t, int32, e, key, x);
      }
    }
    forall i | 0 <= i < |all| ensures HasKey(r, all[i].id, int32) && SomeRead(env, all[i], t) {
      if i < |es| {
        assert HasKey(entries, es[i].id, int32);
        var x :| x in entries && IsKey(es[i].id, int32, x.key);
        assert all[i] == es[i];
        var y := if x.key == key then Entry(key, w) else x;
        assert y in r && IsKey(all[i].id, int32, y.key);
      } else {
        assert Entry(key, w) in r && IsKey(all[i].id, int32, Entry(key, w).key);
      }
    }
  }

  lemma KeysOnceOf(env: Env, es: seq<Elem>, t: Option<TypeDef>, int32: bool, entries: seq<Entry>)
    requires MapRead(env, es, t, int32, entries)
    ensures KeysOnce(entries)
  {
  }

  lemma NewEntryRead(env: Env, es: seq<Elem>, t: Option<TypeDef>, int32: bool, e: Elem, key: Py, w: Py)
    requires IsKey(e.id, int32, key) && Decodes(env, e.data, t, w)
    ensures EntryRead(env, es + [e], t, int32, Entry(key, w))
  {
    hide Decodes, IsKey;
    assert LastOfKey(es + [e], |es|, int32, key);
  }

  lemma OldEntryRead(env: Env, es: seq<Elem>, t: Option<TypeDef>, int32: bool, e: Elem, key: Py, x: Entry)
    requires EntryRead(env, es, t, int32, x) && IsKey(e.id, int32, key) && x.key != key
    ensures EntryRead(env, es + [e], t, int32, x)
  {
    hide Decodes, IsKey;
    var i: nat :| LastOfKey(es, i, int32, x.key) && Decodes(env, es[i].data, t, x.value);
    var all := es + [e];
    assert all[i] == es[i];
    forall j | i < j < |all| ensures !IsKey(all[j].id, int32, x.key) {
      if j < |es| {
        assert all[j] == es[j];
      } else if IsKey(all[j].id, int32, x.key) {
        KeyIsOne(e.id, int32, key, x.key);
      }
    }
    assert LastOfKey(all, i, int32, x.key);
  }

  // ----- the unpacker reads messages so

  ghost predicate Reads(env: Env, d: Data, t: Option<TypeDef>) {
    Unpack(env, d, t).Ok? ==> Decodes(env, d, t, Unpack(env, d, t).value)
  }

  lemma ReadAs(env: Env, d: Data, t: Option<TypeDef>, w: Py)
    requires Reads(env, d, t) && Unpack(env, d, t) == Ok(w)
    ensures Decodes(env, d, t, w)
  {
    hide Unpack, Decodes;
  }

  lemma {:induction false} ItemsAreRead(env: Env, es: seq<Elem>, t: Option<TypeDef>, i: nat)
    requires UnpackItems(env, es, t, i).Ok? && forall j | 0 <= j < |es| :: Reads(env, es[j].data, t)
    ensures var r := UnpackItems(env, es, t, i).value;
            |r| == |es| && forall j | 0 <= j < |es| :: Numbered(es[j].id, i + j) && Decodes(env, es[j].data, t, r[j])
  {
    hide Unpack, Decodes, Reads, CheckPosition, Numbered;
    if es != [] {
      PositionMeans(es[0].id, i);
      ReadAs(env, es[0].data, t, Unpack(env, es[0].data, t).value);
      assert forall j | 0 <= j < |es[1..]| :: es[1..][j] == es[j + 1];
      ItemsAreRead(env, es[1..], t, i + 1);
      assert forall j | 1 <= j < |es| :: es[j] == es[1..][j - 1] && i + j == i + 1 + (j - 1);
    }
  }

  lemma {:induction false} AnyItemsAreRead(env: Env, es: seq<Elem>, i: nat)
    requires UnpackVarItems(env, es, i).Ok? && forall j | 0 <= j < |es| :: Reads(env, es[j].data, Any())
    ensures var r := UnpackVarItems(env, es, i).value;
            |r| == |es| && forall j | 0 <= j < |es| ::
              Numbered(es[j].id, i + j) && Decodes(env, es[j].data, Any(), r[j])
  {
    hide Unpack, Decodes, Reads, CheckPosition, Numbered;
    if es != [] {
      PositionMeans(es[0].id, i);
      ReadAs(env, es[0].data, Any(), Unpack(env, es[0].data, Any()).value);
      assert forall j | 0 <= j < |es[1..]| :: es[1..][j] == es[j + 1];
      AnyItemsAreRead(env, es[1..], i + 1);
      assert forall j | 1 <= j < |es| :: es[j] == es[1..][j - 1] && i + j == i + 1 + (j - 1);
    }
  }

  lemma ItemsFromZero(env: Env, es: seq<Elem>, t: Option<TypeDef>, items: seq<Py>)
    requires |items| == |es|
    requires forall j | 0 <= j < |es| :: Numbered(es[j].id, 0 + j) && Decodes(env, es[j].data, t, items[j])
    ensures ItemsRead(env, es, t, items)
  {
    hide Decodes, Numbered;
    forall j | 0 <= j < |es| ensures Numbered(es[j].id, j) {
      assert Numbered(es[j].id, 0 + j);
    }
  }

  lemma {:induction false} IntMapIsRead(env: Env, before: seq<Elem>, es: seq<Elem>, t: Option<TypeDef>,
                                        done: seq<Entry>)
    requires UnpackIntEntries(env, es, t, done).Ok? && forall j | 0 <= j < |es| :: Reads(env, es[j].data, t)
    requires MapRead(env, before, t, true, done)
    ensures MapRead(env, before + es, t, true, UnpackIntEntries(env, es, t, done).value)
    decreases |es|
  {
    hide Unpack, Decodes, Reads, MapRead, DictSet, ItemNumber, Numbered;
    if es == [] {
      assert before + es == before;
    } else {
      var n, w := ItemNumber(es[0].id).value, Unpack(env, es[0].data, t).value;
      ItemNumberMeans(es[0].id);
      ReadAs(env, es[0].data, t, w);
      MapGrows(env, before, t, true, done, es[0], PyInt(n), w);
      assert forall j | 0 <= j < |es[1..]| :: es[1..][j] == es[j + 1];
      IntMapIsRead(env, before + [es[0]], es[1..], t, DictSet(done, PyInt(n), w));
      assert before + [es[0]] + es[1..] == before + es;
    }
  }

  lemma {:induction false} StringMapIsRead(env: Env, before: seq<Elem>, es: seq<Elem>, t: Option<TypeDef>,
                                           quoted: bool, done: seq<Entry>)
    requires UnpackStringEntries(env, es, t, quoted, done).Ok? && forall j | 0 <= j < |es| :: Reads(env, es[j].data, t)
    requires MapRead(env, before, t, false, done)
    ensures MapRead(env, before + es, t, false, UnpackStringEntries(env, es, t, quoted, done).value)
    decreases |es|
  {
    hide Unpack, Decodes, Reads, MapRead, DictSet;
    if es == [] {
      assert before + es == before;
    } else {
      var key, w := NameOf(es[0].id), Unpack(env, es[0].data, t).value;
      ReadAs(env, es[0].data, t, w);
      MapGrows(env, before, t, false, done, es[0], Str(key), w);
      assert forall j | 0 <= j < |es[1..]| :: es[1..][j] == es[j + 1];
      StringMapIsRead(env, before + [es[0]], es[1..], t, quoted, DictSet(done, Str(key), w));
      assert before + [es[0]] + es[1..] == before + es;
    }
  }

  lemma NothingMapped(env: Env, t: Option<TypeDef>, int32: bool)
    ensures MapRead(env, [], t, int32, [])
  {
    hide Decodes;
  }

  lemma MapIsRead(env: Env, es: seq<Elem>, t: Option<TypeDef>, int32: bool, quoted: bool)
    requires forall j | 0 <= j < |es| :: Reads(env, es[j].data, t)
    requires (if int32 then UnpackIntEntries(env, es, t, []) else UnpackStringEntries(env, es, t, quoted, [])).Ok?
    ensures var r := if int32 then UnpackIntEntries(env, es, t, []) else UnpackStringEntries(env, es, t, quoted, []);
            MapRead(env, es, t, int32, r.value)
  {
    hide MapRead, Reads, UnpackIntEntries, UnpackStringEntries;
    NothingMapped(env, t, int32);
    assert [] + es == es;
    if int32 {
      IntMapIsRead(env, [], es, t, []);
    } else {
      StringMapIsRead(env, [], es, t, quoted, []);
    }
  }

  ghost predicate FieldReads(env: Env, f: Field, es: seq<Elem>) {
    var e := FindElement(es, f.name);
    e.Just? ==> Reads(env, e.value.data, Just(f.typ))
  }

  lemma AttributeFrom(env: Env, f: Field, es: seq<Elem>, w: Py)
    requires FieldReads(env, f, es) && FindElement(es, f.name).Just?
    requires Unpack(env, FindElement(es, f.name).value.data, Just(f.typ)) == Ok(w)
    ensures AttributeRead(env, f, es, w)
  {
    hide Unpack, Decodes, Reads;
    FindElementMeans(es, f.name);
    var j: nat :| IsFirstNamed(es, f.name, j) && FindElement(es, f.name).value == es[j];
    ReadAs(env, es[j].data, Just(f.typ), w);
  }

  lemma {:induction false} AttributesAreRead(env: Env, fs: seq<Field>, es: seq<Elem>)
    requires UnpackFields(env, es, fs).Ok? && forall i | 0 <= i < |fs| :: FieldReads(env, fs[i], es)
    ensures AttributesRead(env, fs, es, UnpackFields(env, es, fs).value)
    decreases |fs|
  {
    hide Unpack, Decodes, FieldReads, AttributeRead;
    if fs != [] {
      AttributeFrom(env, fs[0], es, Unpack(env, FindElement(es, fs[0].name).value.data, Just(fs[0].typ)).value);
      assert forall i | 0 <= i < |fs[1..]| :: fs[1..][i] == fs[i + 1];
      AttributesAreRead(env, fs[1..], es);
      assert forall i | 1 <= i < |fs| :: fs[i] == fs[1..][i - 1];
    }
  }

  lemma MultiDimRecordsAreRead(env: Env, d: Data, t: Option<TypeDef>)
    requires EnvOk(env) && d.Nested? && (d.typ.PodMultiDimT? || d.typ.NamedMultiDimT?)
    requires UnpackMultiDimRecords(env, d, t).Ok?
    ensures MultiDimRecordsRead(env, d, t, UnpackMultiDimRecords(env, d, t).value)
  {
    hide FindDims, FindElement, UnpackPods, UnpackNamedArray, PodsRead, NamedRead, FirstIndexFastest, DimsAndArray,
         FromColumnMajor, Product, EnvOk;
    DimsAreFound(d.elems);
    var flat := FindElement(d.elems, "array").value.data;
    var t2 := AnyNumber(t);
    var v := if d.typ.PodMultiDimT? then UnpackPods(env, flat, t2) else UnpackNamedArray(env, flat, t2);
    PodsAreRead(env, flat, t2);
    if d.typ.NamedMultiDimT? {
      NamedAreRead(env, flat, t2);
    }
    RecordsAreNested(env, flat, t2, d.typ.PodMultiDimT?);
    ListingBack(FindDims(d.elems).value, v.value.cells);
  }

  lemma RecordsAreNested(env: Env, d: Data, t: Option<TypeDef>, pod: bool)
    requires (if pod then UnpackPods(env, d, t) else UnpackNamedArray(env, d, t)).Ok?
    ensures d.Nested?
  {
  }

  lemma InferredIsGiven(env: Env, d: Data)
    requires InferType(env, d).Ok?
    ensures TypeGiven(env, d, InferType(env, d).value)
  {
    hide FindElement;
  }

  lemma ContentTypeIsInner(d: Data)
    ensures InnerType(d) == ContentType(d) && Any() == Just(VARVALUE_TYPE)
  {
  }

  /** Whatever the unpacker returns for a message element is what the element stands for. */
  lemma {:induction false} UnpackedIsDecoded(env: Env, d: Data, t: Option<TypeDef>)
    requires EnvOk(env)
    ensures Reads(env, d, t)
    decreases d, if IsVarValue(t) && t.value.container.NoContainer? then 2 else 1
  {
    hide Decodes, Unpack, Reads, EnvOk;
    ContentTypeIsInner(d);
    if (t.Just? && t.value.base.Void?) || d.Null? {
      NothingRead(env, d, t);
    } else if IsVarValue(t) {
      if t.value.container.NoContainer? {
        UnpackedIsDecoded(env, d, InnerType(d));
        VarValueRead(env, d, t);
      } else {
        if d.Nested? {
          ElementsRead(env, d.elems, Any());
          AnyContainerIsRead(env, d);
        }
        AnyContainerReads(env, d, t);
      }
    } else if !d.Nested? {
      LeafRead(env, d, t);
    } else {
      if d.typ.StructureT? && d.typeName in env.structs {
        FieldsRead(env, env.structs[d.typeName], d.elems);
      }
      ElementsRead(env, d.elems, ElementType(t));
      NestedIsRead(env, d, t);
      NestedReads(env, d, t);
    }
  }

  lemma {:induction false} ElementsRead(env: Env, es: seq<Elem>, t: Option<TypeDef>)
    requires EnvOk(env)
    ensures forall j | 0 <= j < |es| :: Reads(env, es[j].data, t)
    decreases es
  {
    hide Reads, EnvOk;
    forall j | 0 <= j < |es| ensures Reads(env, es[j].data, t) {
      assert es[j].data < es[j];
      UnpackedIsDecoded(env, es[j].data, t);
    }
  }

  lemma {:induction false} FieldsRead(env: Env, fs: seq<Field>, es: seq<Elem>)
    requires EnvOk(env)
    ensures forall i | 0 <= i < |fs| :: FieldReads(env, fs[i], es)
    decreases es
  {
    hide Reads, EnvOk;
    forall i | 0 <= i < |fs| ensures FieldReads(env, fs[i], es) {
      var e := FindElement(es, fs[i].name);
      if e.Just? {
        FindElementIn(es, fs[i].name);
        assert e.value.data < e.value;
        UnpackedIsDecoded(env, e.value.data, Just(fs[i].typ));
      }
    }
  }

  lemma NothingRead(env: Env, d: Data, t: Option<TypeDef>)
    requires (t.Just? && t.value.base.Void?) || d.Null?
    ensures Reads(env, d, t)
  {
    hide UnpackNested, UnpackVarContainer, NestedRead, AnyContainerRead;
  }

  lemma VarValueRead(env: Env, d: Data, t: Option<TypeDef>)
    requires IsVarValue(t) && t.value.container.NoContainer? && !d.Null? && Reads(env, d, InnerType(d))
    ensures Reads(env, d, t)
  {
    hide UnpackNested, UnpackVarContainer, NestedRead, AnyContainerRead, InferType, TypeGiven;
    ContentTypeIsInner(d);
    if InferType(env, d).Ok? {
      InferredIsGiven(env, d);
    }
  }

  lemma LeafRead(env: Env, d: Data, t: Option<TypeDef>)
    requires !d.Nested? && !d.Null? && !IsVarValue(t) && !(t.Just? && t.value.base.Void?)
    ensures Reads(env, d, t)
  {
    hide UnpackNumbers, NumbersRead;
    if d.Nums? {
      var enum := t.Just? && t.value.base.Named? && t.value.base.def.Enum?;
      var t2 := if enum then Just(ENUM_TYPE) else t;
      if UnpackNumbers(d.kind, d.xs, t2).Ok? {
        NumbersAreRead(d.kind, d.xs, t2);
      }
    }
  }

  lemma AnyContainerIsRead(env: Env, d: Data)
    requires d.Nested? && forall j | 0 <= j < |d.elems| :: Reads(env, d.elems[j].data, Any())
    ensures UnpackVarContainer(env, d).Ok? ==> AnyContainerRead(env, d, UnpackVarContainer(env, d).value)
  {
    hide Reads, UnpackVarItems, UnpackIntEntries, UnpackStringEntries, ItemsRead, MapRead;
    ContentTypeIsInner(d);
    if UnpackVarContainer(env, d).Ok? {
      if d.typ.ListT? {
        AnyItemsAreRead(env, d.elems, 0);
        ItemsFromZero(env, d.elems, Any(), UnpackVarItems(env, d.elems, 0).value);
      } else {
        MapIsRead(env, d.elems, Any(), d.typ.VectorT?, true);
      }
    }
  }

  lemma AnyContainerReads(env: Env, d: Data, t: Option<TypeDef>)
    requires IsVarValue(t) && !t.value.container.NoContainer? && !d.Null?
    requires d.Nested? ==>
      (UnpackVarContainer(env, d).Ok? ==> AnyContainerRead(env, d, UnpackVarContainer(env, d).value))
    ensures Reads(env, d, t)
  {
    hide UnpackNested, UnpackVarContainer, NestedRead, AnyContainerRead;
    assert Unpack(env, d, t) == UnpackVarContainer(env, d);
    OnlyContainersUnpack(env, d);
    if Unpack(env, d, t).Ok? {
      var w := Unpack(env, d, t).value;
      assert Decodes(env, d, t, w) == AnyContainerRead(env, d, w);
    }
  }

  lemma OnlyContainersUnpack(env: Env, d: Data)
    ensures UnpackVarContainer(env, d).Ok? ==> d.Nested?
  {
    hide UnpackIntEntries, UnpackStringEntries, UnpackVarItems;
  }

  lemma NestedReads(env: Env, d: Data, t: Option<TypeDef>)
    requires d.Nested? && !IsVarValue(t) && !(t.Just? && t.value.base.Void?)
    requires UnpackNested(env, d, t).Ok? ==> NestedRead(env, d, t, UnpackNested(env, d, t).value)
    ensures Reads(env, d, t)
  {
    hide UnpackNested, UnpackVarContainer, NestedRead, AnyContainerRead;
    assert Unpack(env, d, t) == UnpackNested(env, d, t);
    if Unpack(env, d, t).Ok? {
      var w := Unpack(env, d, t).value;
      assert Decodes(env, d, t, w) == NestedRead(env, d, t, w);
    }
  }

  lemma NestedIsRead(env: Env, d: Data, t: Option<TypeDef>)
    requires EnvOk(env) && d.Nested?
    requires forall j | 0 <= j < |d.elems| :: Reads(env, d.elems[j].data, ElementType(t))
    requires d.typ.StructureT? && d.typeName in env.structs ==>
      forall i | 0 <= i < |env.structs[d.typeName]| :: FieldReads(env, env.structs[d.typeName][i], d.elems)
    ensures UnpackNested(env, d, t).Ok? ==> NestedRead(env, d, t, UnpackNested(env, d, t).value)
  {
    hide EnvOk, Reads, FieldReads, UnpackItems, UnpackFields, UnpackIntEntries, UnpackStringEntries, UnpackPods,
         UnpackNamedArray, UnpackMultiDimRecords, UnpackMultiDimNumbers, ItemsRead, MapRead, AttributesRead, PodsRead,
         NamedRead, MultiDimRead, MultiDimRecordsRead, Mangle, IsClassName;
    if UnpackNested(env, d, t).Ok? {
      assert ItemType(t) == ElementType(t);
      match d.typ
      case StructureT =>
        MangleIsClassName(d.typeName);
        AttributesAreRead(env, env.structs[d.typeName], d.elems);
      case ListT =>
        ItemsAreRead(env, d.elems, ElementType(t), 0);
        ItemsFromZero(env, d.elems, ElementType(t), UnpackItems(env, d.elems, ElementType(t), 0).value);
      case VectorT => MapIsRead(env, d.elems, ElementType(t), true, false);
      case DictionaryT => MapIsRead(env, d.elems, ElementType(t), false, false);
      case MultiDimT => MultiDimIsRead(d.elems, t);
      case PodArrayT => PodsAreRead(env, d, t);
      case NamedArrayT => NamedAreRead(env, d, t);
      case _ => MultiDimRecordsAreRead(env, d, t);
    }
  }
}
