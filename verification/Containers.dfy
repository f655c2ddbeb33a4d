/** Containers and structures element by element: packing or unpacking one succeeds exactly when it
    does for every element, and the result lists the elements' results. */
module Containers {
  import opened Types
  import opened Packing
  import opened Unpacking
  import opened PodRoundTrip

  // ----- packing

  lemma {:induction false} PackItemsEach(env: Env, items: seq<Py>, t: TypeDef, i: nat)
    ensures var r := PackItems(env, items, t, i);
      && (r.Ok? <==> forall j | 0 <= j < |items| :: Pack(env, items[j], t).Ok?)
      && (r.Ok? ==> |r.value| == |items| && forall j | 0 <= j < |items| ::
            r.value[j] == Elem(Number(i + j), Pack(env, items[j], t).value))
  {
    hide Pack;
    if items != [] {
      PackItemsEach(env, items[1..], t, i + 1);
      forall j | 1 <= j < |items| ensures items[j] == items[1..][j - 1] && i + j == i + 1 + (j - 1) {
      }
    }
  }

  lemma {:induction false} PackIntEntriesEach(env: Env, entries: seq<Entry>, t: TypeDef)
    ensures var r := PackIntEntries(env, entries, t);
      && (r.Ok? <==> forall j | 0 <= j < |entries| ::
            IntKeyOk(entries[j].key) && Pack(env, entries[j].value, t).Ok?)
      && (r.Ok? ==> |r.value| == |entries| && forall j | 0 <= j < |entries| ::
            r.value[j] == Elem(Number(KeyNumber(entries[j].key)), Pack(env, entries[j].value, t).value))
  {
    hide Pack, KeyNumber, IntKeyOk;
    if entries != [] {
      PackIntEntriesEach(env, entries[1..], t);
      assert forall j | 1 <= j < |entries| :: entries[j] == entries[1..][j - 1];
    }
  }

  lemma {:induction false} PackStringEntriesEach(env: Env, entries: seq<Entry>, t: TypeDef)
    ensures var r := PackStringEntries(env, entries, t);
      && (r.Ok? <==> forall j | 0 <= j < |entries| :: entries[j].key.Str? && Pack(env, entries[j].value, t).Ok?)
      && (r.Ok? ==> |r.value| == |entries| && forall j | 0 <= j < |entries| ::
            r.value[j] == Elem(Name(entries[j].key.s), Pack(env, entries[j].value, t).value))
  {
    hide Pack;
    if entries != [] {
      PackStringEntriesEach(env, entries[1..], t);
      assert forall j | 1 <= j < |entries| :: entries[j] == entries[1..][j - 1];
    }
  }

  /** The data a field is packed as. */
  function PackField(env: Env, attrs: seq<Attr>, f: Field): Result<Data> {
    match AttrIndex(attrs, f.name)
    case Nothing => Fail(DataTypeError)
    case Just(i) => Pack(env, attrs[i].value, f.typ)
  }

  lemma {:induction false} PackFieldsEach(env: Env, attrs: seq<Attr>, fs: seq<Field>)
    ensures var r := PackFields(env, attrs, fs);
      && (r.Ok? <==> forall j | 0 <= j < |fs| :: PackField(env, attrs, fs[j]).Ok?)
      && (r.Ok? ==> NamedAs(r.value, fs) && forall j | 0 <= j < |fs| ::
            r.value[j].data == PackField(env, attrs, fs[j]).value)
    decreases |fs|
  {
    hide Pack, AttrIndex;
    if fs != [] {
      PackFieldsEach(env, attrs, fs[1..]);
      assert forall j | 1 <= j < |fs| :: fs[j] == fs[1..][j - 1];
    }
  }

  // ----- unpacking

  predicate Numbered(es: seq<Elem>, i: nat) {
    forall j | 0 <= j < |es| :: es[j].id == Number(i + j)
  }

  lemma {:induction false} UnpackItemsEach(env: Env, es: seq<Elem>, t: Option<TypeDef>, i: nat)
    requires Numbered(es, i)
    ensures var r := UnpackItems(env, es, t, i);
      && (r.Ok? <==> forall j | 0 <= j < |es| :: Unpack(env, es[j].data, t).Ok?)
      && (r.Ok? ==> |r.value| == |es| && forall j | 0 <= j < |es| :: r.value[j] == Unpack(env, es[j].data, t).value)
  {
    hide Unpack;
    if es != [] {
      assert es[0].id == Number(i + 0);
      assert forall j | 1 <= j < |es| :: es[j] == es[1..][j - 1] && i + j == i + 1 + (j - 1);
      UnpackItemsEach(env, es[1..], t, i + 1);
    }
  }

  lemma {:induction false} UnpackVarItemsEach(env: Env, es: seq<Elem>, i: nat)
    requires Numbered(es, i)
    ensures var r := UnpackVarItems(env, es, i);
      && (r.Ok? <==> forall j | 0 <= j < |es| :: Unpack(env, es[j].data, Just(VARVALUE_TYPE)).Ok?)
      && (r.Ok? ==> |r.value| == |es| && forall j | 0 <= j < |es| ::
            r.value[j] == Unpack(env, es[j].data, Just(VARVALUE_TYPE)).value)
  {
    hide Unpack;
    if es != [] {
      assert es[0].id == Number(i + 0);
      assert forall j | 1 <= j < |es| :: es[j] == es[1..][j - 1] && i + j == i + 1 + (j - 1);
      UnpackVarItemsEach(env, es[1..], i + 1);
    }
  }

  lemma {:induction false} DictSetNew(entries: seq<Entry>, key: Py, value: Py)
    requires forall e | e in entries :: e.key != key
    ensures DictSet(entries, key, value) == entries + [Entry(key, value)]
  {
    if entries != [] {
      DictSetNew(entries[1..], key, value);
      assert entries[0] in entries;
      assert entries == [entries[0]] + entries[1..];
    }
  }

  /** The key under which an element of an int map or string map arrives. */
  function KeyOf(e: Elem): Py {
    match e.id case Number(i) => PyInt(i) case Name(s) => Str(s)
  }

  predicate FreshKeys(es: seq<Elem>, done: seq<Entry>) {
    && (forall i, j | 0 <= i < j < |es| :: KeyOf(es[i]) != KeyOf(es[j]))
    && forall i, k | 0 <= i < |es| && 0 <= k < |done| :: KeyOf(es[i]) != done[k].key
  }

  lemma FreshRest(es: seq<Elem>, done: seq<Entry>, v: Py)
    requires es != [] && FreshKeys(es, done)
    ensures DictSet(done, KeyOf(es[0]), v) == done + [Entry(KeyOf(es[0]), v)]
    ensures FreshKeys(es[1..], done + [Entry(KeyOf(es[0]), v)])
  {
    DictSetNew(done, KeyOf(es[0]), v);
  }

  ghost predicate EntriesArrive(env: Env, es: seq<Elem>, t: Option<TypeDef>, done: seq<Entry>, r: Result<seq<Entry>>) {
    && (r.Ok? <==> forall j | 0 <= j < |es| :: Unpack(env, es[j].data, t).Ok?)
    && (r.Ok? ==> |r.value| == |done| + |es| && r.value[..|done|] == done && forall j | 0 <= j < |es| ::
          r.value[|done| + j] == Entry(KeyOf(es[j]), Unpack(env, es[j].data, t).value))
  }

  lemma EntriesStep(env: Env, es: seq<Elem>, t: Option<TypeDef>, done: seq<Entry>, v: Py, r: Result<seq<Entry>>)
    requires es != [] && Unpack(env, es[0].data, t) == Ok(v)
    requires EntriesArrive(env, es[1..], t, done + [Entry(KeyOf(es[0]), v)], r)
    ensures EntriesArrive(env, es, t, done, r)
  {
    hide Unpack;
    assert forall j | 1 <= j < |es| :: es[j] == es[1..][j - 1];
    if r.Ok? {
      var done' := done + [Entry(KeyOf(es[0]), v)];
      assert r.value[..|done|] == r.value[..|done'|][..|done|];
      assert r.value[|done|] == r.value[..|done'|][|done|];
      forall j | 1 <= j < |es|
        ensures r.value[|done| + j] == Entry(KeyOf(es[j]), Unpack(env, es[j].data, t).value)
      {
        assert |done| + j == |done'| + (j - 1);
      }
    }
  }

  lemma {:induction false} UnpackIntEntriesEach(env: Env, es: seq<Elem>, t: Option<TypeDef>, done: seq<Entry>)
    requires (forall e | e in es :: e.id.Number?) && FreshKeys(es, done)
    ensures EntriesArrive(env, es, t, done, UnpackIntEntries(env, es, t, done))
    decreases es
  {
    hide Unpack;
    if es != [] {
      assert es[0] in es;
      var v := Unpack(env, es[0].data, t);
      if v.Ok? {
        FreshRest(es, done, v.value);
        UnpackIntEntriesEach(env, es[1..], t, done + [Entry(KeyOf(es[0]), v.value)]);
        EntriesStep(env, es, t, done, v.value, UnpackIntEntries(env, es, t, done));
      }
    }
  }

  lemma {:induction false} UnpackStringEntriesEach(env: Env, es: seq<Elem>, t: Option<TypeDef>, quoted: bool,
                                                   done: seq<Entry>)
    requires (forall e | e in es :: e.id.Name?) && FreshKeys(es, done)
    ensures EntriesArrive(env, es, t, done, UnpackStringEntries(env, es, t, quoted, done))
    decreases es
  {
    hide Unpack;
    if es != [] {
      assert es[0] in es;
      var v := Unpack(env, es[0].data, t);
      if v.Ok? {
        FreshRest(es, done, v.value);
        UnpackStringEntriesEach(env, es[1..], t, quoted, done + [Entry(KeyOf(es[0]), v.value)]);
        EntriesStep(env, es, t, done, v.value, UnpackStringEntries(env, es, t, quoted, done));
      }
    }
  }

  lemma {:induction false} UnpackFieldsEach(env: Env, es: seq<Elem>, fs: seq<Field>, i: nat)
    requires DistinctNames(fs) && NamedAs(es, fs) && i <= |fs|
    ensures var r := UnpackFields(env, es, fs[i..]);
      && (r.Ok? <==> forall j | i <= j < |fs| :: Unpack(env, es[j].data, Just(fs[j].typ)).Ok?)
      && (r.Ok? ==> |r.value| == |fs| - i && forall j | i <= j < |fs| ::
            r.value[j - i] == Attr(fs[j].name, Unpack(env, es[j].data, Just(fs[j].typ)).value))
    decreases |fs| - i
  {
    hide Unpack;
    var rest := fs[i..];
    if i < |fs| {
      FindNamed(es, fs, i);
      UnpackFieldsEach(env, es, fs, i + 1);
      assert rest[0] == fs[i] && rest[1..] == fs[i + 1..];
    } else {
      assert rest == [];
    }
  }
}
