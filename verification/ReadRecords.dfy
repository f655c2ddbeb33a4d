/** What a receiver makes of arrays of numbers and records, said apart from the unpacker. */
module ReadRecords {
  import opened ColumnMajor
  import opened Types
  import opened Packing
  import opened Unpacking
  import opened Layout
  import opened NumberMeaning
  import opened WireFormat

  // ----- element numbers and names

  /** The decimal number a text writes: its digits weighted by powers of ten, after an optional sign. */
  function DecimalValue(s: string): int {
    if s == "" then 0 else 10 * DecimalValue(s[..|s| - 1]) + (s[|s| - 1] as int - '0' as int)
  }

  predicate Digits(s: string) {
    forall c | c in s :: IsDigit(c)
  }

  /** A text that writes the int32 `n`: digits, at least one, after an optional sign. */
  predicate Writes(s: string, n: int) {
    var signed := s != "" && (s[0] == '-' || s[0] == '+');
    var digits := if signed then s[1..] else s;
    && digits != "" && Digits(digits)
    && n == (if signed && s[0] == '-' then -DecimalValue(digits) else DecimalValue(digits))
    && -0x8000_0000 <= n < 0x8000_0000
  }

  lemma {:induction false} ParseDigitsMeans(s: string)
    ensures ParseDigits(s).Just? <==> Digits(s)
    ensures Digits(s) ==> ParseDigits(s).value == DecimalValue(s)
  {
    if s != "" {
      var init, last := s[..|s| - 1], s[|s| - 1];
      ParseDigitsMeans(init);
      assert s == init + [last];
      assert Digits(s) <==> Digits(init) && IsDigit(last);
    }
  }

  /** The number of an element: its own, or the one its name writes. */
  predicate Numbered(id: Id, n: int) {
    match id case Number(i) => i == n case Name(s) => Writes(s, n)
  }

  lemma ItemNumberMeans(id: Id)
    ensures ItemNumber(id).Ok? ==> Numbered(id, ItemNumber(id).value)
    ensures forall n | Numbered(id, n) :: ItemNumber(id) == Ok(n)
  {
    match id
    case Number(_) =>
    case Name(s) =>
      var signed := s != "" && (s[0] == '-' || s[0] == '+');
      ParseDigitsMeans(if signed then s[1..] else s);
  }

  lemma PositionMeans(id: Id, i: nat)
    ensures CheckPosition(id, i).Ok? <==> Numbered(id, i)
  {
    hide Numbered, ItemNumber;
    ItemNumberMeans(id);
  }

  /** The first element of that name. */
  predicate IsFirstNamed(es: seq<Elem>, name: string, i: nat) {
    i < |es| && es[i].id == Name(name) && forall j | 0 <= j < i :: es[j].id != Name(name)
  }

  lemma {:induction false} FindElementMeans(es: seq<Elem>, name: string)
    ensures var r := FindElement(es, name);
            if r.Just? then exists i: nat :: IsFirstNamed(es, name, i) && r.value == es[i]
            else forall i | 0 <= i < |es| :: es[i].id != Name(name)
  {
    if es != [] {
      FindElementMeans(es[1..], name);
      assert forall i | 1 <= i < |es| :: es[i] == es[1..][i - 1];
      var r := FindElement(es, name);
      if es[0].id == Name(name) {
        assert IsFirstNamed(es, name, 0);
      } else if r.Just? {
        var i: nat :| IsFirstNamed(es[1..], name, i) && r.value == es[1..][i];
        assert IsFirstNamed(es, name, i + 1);
      }
    }
  }

  // ----- numbers

  /** The Python number of a number's own class and value. */
  predicate IsNative(x: Num, w: Py) {
    && IsNumber(w) && !w.NpScalar? && ValueOf(w) == ValueOfNum(x)
    && (w.PyInt? <==> x.I?) && (w.PyFloat? <==> x.F?) && (w.PyComplex? <==> x.C?)
  }

  /** A row of numbers: a single number where a scalar is declared, and a numpy array of its kind otherwise. */
  predicate NumbersRead(k: Kind, xs: seq<Num>, t: Option<TypeDef>, w: Py) {
    && (t.Just? ==> t.value.base == Numeric(k) && !t.value.arr.MultiDim? && LengthOk(t.value, |xs|))
    && if t.Just? && t.value.arr.NotArray? then |xs| == 1 && IsNative(xs[0], w)
       else w.NdArray? && w.dtype == DNum(k) && w.shape == [|xs|] && IsRow(xs, w.cells)
  }

  predicate IsRow(xs: seq<Num>, cells: seq<Cell>) {
    |cells| == |xs| && forall i | 0 <= i < |xs| :: cells[i] == NumCell(xs[i])
  }

  lemma NumbersAreRead(k: Kind, xs: seq<Num>, t: Option<TypeDef>)
    requires UnpackNumbers(k, xs, t).Ok?
    ensures NumbersRead(k, xs, t, UnpackNumbers(k, xs, t).value)
  {
    if t.Just? {
      LengthsAgree(t.value, |xs|);
    }
  }

  /** Dimensions sent as unsigned numbers. */
  predicate IsShape(d: Data, shape: seq<nat>) {
    && d.Nums? && d.kind.UInt32? && |d.xs| == |shape|
    && forall i | 0 <= i < |shape| :: d.xs[i] == I(shape[i])
  }

  /** The elements `dims` and `array` of a multi-dimensional array. */
  ghost predicate DimsAndArray(es: seq<Elem>, shape: seq<nat>, d: Data) {
    && (exists i: nat :: IsFirstNamed(es, "dims", i) && IsShape(es[i].data, shape))
    && exists i: nat :: IsFirstNamed(es, "array", i) && es[i].data == d
  }

  lemma DimsAreFound(es: seq<Elem>)
    requires FindDims(es).Ok? && FindElement(es, "array").Just?
    ensures DimsAndArray(es, FindDims(es).value, FindElement(es, "array").value.data)
  {
    FindElementMeans(es, "dims");
    FindElementMeans(es, "array");
    var e := FindElement(es, "dims").value;
    assert forall i | 0 <= i < |e.data.xs| :: e.data.xs[i] in e.data.xs;
    assert IsShape(e.data, DimsOf(e.data));
  }

  /** A multi-dimensional array of numbers: the numbers sent, the first index varying fastest. */
  ghost predicate MultiDimRead(es: seq<Elem>, t: Option<TypeDef>, w: Py) {
    && w.NdArray? && w.dtype.DNum?
    && (t.Just? ==> t.value.arr.MultiDim? && (!t.value.varLength ==> t.value.lengths == w.shape))
    && exists xs: seq<Num> ::
         && DimsAndArray(es, w.shape, Nums(w.dtype.kind, xs))
         && (forall c | c in w.cells :: c.NumCell?) && FirstIndexFastest(w.shape, CellNums(w.cells), xs)
  }

  lemma ListingBack<T>(shape: seq<nat>, out: seq<T>)
    requires |out| == Product(shape)
    ensures FirstIndexFastest(shape, FromColumnMajor(shape, out), out)
  {
    var cells := FromColumnMajor(shape, out);
    ReorderInverse(shape, out);
    FlattenedIsListing(shape, cells);
    assert Flattened(shape, cells) == out;
  }

  lemma NumbersListedBack(shape: seq<nat>, xs: seq<Num>)
    requires |xs| == Product(shape)
    ensures var cells := FromColumnMajor(shape, NumCells(xs));
            (forall c | c in cells :: c.NumCell?) && FirstIndexFastest(shape, CellNums(cells), xs)
  {
    var cells := FromColumnMajor(shape, NumCells(xs));
    assert CellNums(cells) == FromColumnMajor(shape, xs);
    ListingBack(shape, xs);
  }

  lemma MultiDimIsRead(es: seq<Elem>, t: Option<TypeDef>)
    requires UnpackMultiDimNumbers(es, t).Ok?
    ensures MultiDimRead(es, t, UnpackMultiDimNumbers(es, t).value)
  {
    var w := UnpackMultiDimNumbers(es, t).value;
    var e := FindElement(es, "array").value;
    DimsAreFound(es);
    NumbersListedBack(w.shape, e.data.xs);
    hide FirstIndexFastest, DimsAndArray, FindDims, FindElement, FromColumnMajor, Product;
    assert e.data == Nums(w.dtype.kind, e.data.xs);
    assert t.Just? && !t.value.varLength ==> t.value.lengths == w.shape;
  }

  // ----- records

  /** The declared dimensions admit `n` records. */
  predicate CountOk(t: Option<TypeDef>, n: nat) {
    t.Just? ==>
      var size := Product(t.value.lengths);
      t.value.lengths == [] || size == 0 || n == size || (t.value.varLength && n < size)
  }

  lemma CountsAgree(t: Option<TypeDef>, n: nat)
    ensures CheckUnpackedRecords(t, n).Ok? <==> CountOk(t, n)
  {
    hide Product;
  }

  /** An element of value zero: of the element's own kind, or a record of zeros whose variable-length fields are
      empty. */
  predicate IsZero(b: Base, c: Cell)
    decreases b
  {
    match b
    case Numeric(k) => c.NumCell? && NumOk(k, c.x) && ValueOfNum(c.x) == Value(0.0, 0.0)
    case Named(Pod(_, fields)) => c.Record? && ZeroFields(fields, c.fields)
    case Named(NamedArray(_, fields)) => c.Record? && ZeroFields(fields, c.fields)
    case _ => true
  }

  predicate ZeroFields(fs: seq<Field>, slots: seq<Slot>)
    decreases fs
  {
    |slots| == |fs| && forall i | 0 <= i < |fs| ::
      && (slots[i].Padded? ==> slots[i].len == 0)
      && forall c | c in slots[i].cells :: IsZero(fs[i].typ.base, c)
  }

  lemma {:induction false} ZeroCellIsZero(b: Base)
    ensures IsZero(b, ZeroCell(b))
    decreases b
  {
    match b
    case Named(Pod(_, fields)) => ZeroSlotsAreZero(fields);
    case Named(NamedArray(_, fields)) => ZeroSlotsAreZero(fields);
    case _ =>
  }

  lemma {:induction false} ZeroSlotsAreZero(fs: seq<Field>)
    ensures ZeroFields(fs, ZeroSlots(fs))
    decreases fs
  {
    if fs != [] {
      ZeroSlotsAreZero(fs[1..]);
      ZeroCellIsZero(fs[0].typ.base);
      var slots, rest := ZeroSlots(fs), ZeroSlots(fs[1..]);
      assert slots == [ZeroSlot(fs[0])] + rest;
      assert forall i | 1 <= i < |fs| :: fs[i] == fs[1..][i - 1] && slots[i] == rest[i - 1];
    }
  }

  /** A field after its elements have been stored: in a variable-length field they are followed by zeros up to
      its size, and its length is their number. */
  ghost predicate Stored(t: TypeDef, listed: seq<Cell>, s: Slot) {
    if t.arr.Array? && t.varLength then
      && s.Padded? && s.len == |listed| && t.lengths != [] && |s.cells| == t.lengths[0]
      && forall i | 0 <= i < |s.cells| ::
           if i < |listed| then s.cells[i] == listed[i] else IsZero(t.base, s.cells[i])
    else
      && s.Fixed? && s.shape == (if t.arr.NotArray? then [] else t.lengths)
      && |s.cells| == |listed| == Product(s.shape)
      && if t.arr.MultiDim? then FirstIndexFastest(t.lengths, s.cells, listed) else s.cells == listed
  }

  lemma StoredByType(t: TypeDef, listed: seq<Cell>)
    requires StoreField(t, listed).Ok?
    ensures Stored(t, listed, StoreField(t, listed).value)
  {
    hide Product, IsZero, ZeroCell, FirstIndexFastest;
    ZeroCellIsZero(t.base);
    if t.arr.MultiDim? {
      ListingBack(t.lengths, listed);
    }
  }

  /** The elements of a field, in the order they were sent in. */
  ghost predicate CellsRead(env: Env, t: TypeDef, d: Data, listed: seq<Cell>)
    decreases d, 1
  {
    match t.base
    case Named(Pod(q, _)) => PodsRead(env, d, Just(FlattenType(t)), listed) && d.typeName == q
    case Named(NamedArray(q, _)) => NamedRead(env, d, Just(FlattenType(t)), listed) && d.typeName == q
    case Numeric(k) => d.Nums? && d.kind == k && LengthOk(FlattenType(t), |d.xs|) && IsRow(d.xs, listed)
    case _ => false
  }

  /** An array of pods: numbered records of the definition its name refers to. */
  ghost predicate PodsRead(env: Env, d: Data, t: Option<TypeDef>, cells: seq<Cell>)
    decreases d, 0
  {
    && d.Nested? && d.typ.PodArrayT? && d.typeName in env.pods
    && |cells| == |d.elems| && CountOk(t, |cells|) && (t.Just? && t.value.arr.NotArray? ==> |cells| == 1)
    && forall i | 0 <= i < |d.elems| ::
         && Numbered(d.elems[i].id, i) && d.elems[i].data.Nested? && d.elems[i].data.typ.PodT?
         && assert d.elems[i].data < d.elems[i];
            RecordRead(env, env.pods[d.typeName], d.elems[i].data.elems, cells[i])
  }

  /** A record: each field is read from the first element of its name. */
  ghost predicate RecordRead(env: Env, fs: seq<Field>, es: seq<Elem>, c: Cell)
    decreases es, 1
  {
    && c.Record? && |c.fields| == |fs|
    && forall i | 0 <= i < |fs| :: FieldRead(env, fs[i], es, c.fields[i])
  }

  ghost predicate FieldRead(env: Env, f: Field, es: seq<Elem>, s: Slot)
    decreases es, 0
  {
    exists j: nat, listed: seq<Cell> ::
      && IsFirstNamed(es, f.name, j)
      && (assert es[j].data < es[j]; CellsRead(env, f.typ, es[j].data, listed))
      && Stored(f.typ, listed, s)
  }

  /** An array of named-array records: as many numbers as the records take, those of each record together. */
  ghost predicate NamedRead(env: Env, d: Data, t: Option<TypeDef>, cells: seq<Cell>) {
    && d.Nested? && d.typ.NamedArrayT? && d.typeName in env.named && CountOk(t, |cells|)
    && var fs := env.named[d.typeName];
       exists j: nat ::
         && IsFirstNamed(d.elems, "array", j)
         && var e := d.elems[j].data;
            && e.Nums? && e.kind == ElementKind(fs) && Count(fs) > 0 && |e.xs| == |cells| * Count(fs)
            && (NumsOk(e.kind, e.xs) ==> (forall c | c in cells :: CellOk(fs, c)) && FlattenCells(cells) == e.xs)
  }

  // ----- the unpacker reads records so

  lemma NumberCellsRead(env: Env, t: TypeDef, d: Data, k: Kind)
    requires t.base == Numeric(k) && NumberCells(d, FlattenType(t)).Ok?
    ensures CellsRead(env, t, d, NumberCells(d, FlattenType(t)).value)
  {
    LengthsAgree(FlattenType(t), |d.xs|);
  }

  lemma NamedAreRead(env: Env, d: Data, t: Option<TypeDef>)
    requires EnvOk(env) && UnpackNamedArray(env, d, t).Ok?
    ensures var w := UnpackNamedArray(env, d, t).value;
            && w.NdArray? && w.dtype == DNamed(d.typeName) && w.shape == [|w.cells|]
            && NamedRead(env, d, t, w.cells)
  {
    var fs := env.named[d.typeName];
    FindElementMeans(d.elems, "array");
    var j: nat :| IsFirstNamed(d.elems, "array", j) && FindElement(d.elems, "array").value == d.elems[j];
    var e := d.elems[j].data;
    var n := |e.xs| / Count(fs);
    hide Product, NamedArrayFieldOk, Unflatten, UnflattenAll, FlattenCells;
    NamedFieldsOk(env, d.typeName);
    CountsAgree(t, n);
    LemmaDivMod(|e.xs|, Count(fs));
    assert |e.xs| == n * Count(fs);
    if NumsOk(e.kind, e.xs) {
      UnflattenAllFlatten(fs, e.kind, n, e.xs);
    }
  }

  lemma NamedFieldsOk(env: Env, q: string)
    requires EnvOk(env) && q in env.named
    ensures forall f | f in env.named[q] :: NamedArrayFieldOk(f, ElementKind(env.named[q]))
  {
  }

  ghost predicate PodsComeRead(env: Env, d: Data, t: Option<TypeDef>) {
    UnpackPods(env, d, t).Ok? ==>
      var w := UnpackPods(env, d, t).value;
      w.NdArray? && w.dtype == DNamed(d.typeName) && w.shape == [|w.cells|] && PodsRead(env, d, t, w.cells)
  }

  lemma {:induction false} PodsAreRead(env: Env, d: Data, t: Option<TypeDef>)
    requires EnvOk(env)
    ensures PodsComeRead(env, d, t)
    decreases d, 2
  {
    if UnpackPods(env, d, t).Ok? {
      var fs := env.pods[d.typeName];
      RecordsAreRead(env, fs, d.elems, 0);
      CountsAgree(t, |d.elems|);
      PodsFromRecordsRead(env, d, t, UnpackRecords(env, fs, d.elems, 0).value);
    }
  }

  lemma PodsFromRecordsRead(env: Env, d: Data, t: Option<TypeDef>, cells: seq<Cell>)
    requires d.Nested? && d.typ.PodArrayT? && d.typeName in env.pods && |cells| == |d.elems| && CountOk(t, |cells|)
    requires t.Just? && t.value.arr.NotArray? ==> |cells| == 1
    requires forall i | 0 <= i < |d.elems| ::
      && Numbered(d.elems[i].id, 0 + i) && d.elems[i].data.Nested? && d.elems[i].data.typ.PodT?
      && RecordRead(env, env.pods[d.typeName], d.elems[i].data.elems, cells[i])
    ensures PodsRead(env, d, t, cells)
  {
    hide RecordRead, Numbered;
    forall i | 0 <= i < |d.elems| ensures Numbered(d.elems[i].id, i) {
      assert Numbered(d.elems[i].id, 0 + i);
    }
  }

  lemma {:induction false} RecordsAreRead(env: Env, fs: seq<Field>, es: seq<Elem>, i: nat)
    requires EnvOk(env) && UnpackRecords(env, fs, es, i).Ok?
    ensures var cells := UnpackRecords(env, fs, es, i).value;
            |cells| == |es| && forall j | 0 <= j < |es| ::
              && Numbered(es[j].id, i + j) && es[j].data.Nested? && es[j].data.typ.PodT?
              && RecordRead(env, fs, es[j].data.elems, cells[j])
    decreases es, 2
  {
    hide RecordRead, Numbered, EnvOk, UnpackSlots;
    if es != [] {
      PositionMeans(es[0].id, i);
      assert es[0].data < es[0];
      RecordIsRead(env, fs, es[0].data.elems);
      RecordsAreRead(env, fs, es[1..], i + 1);
      assert forall j | 1 <= j < |es| :: es[j] == es[1..][j - 1] && i + j == i + 1 + (j - 1);
    }
  }

  lemma {:induction false} RecordIsRead(env: Env, fs: seq<Field>, es: seq<Elem>)
    requires EnvOk(env) && UnpackSlots(env, fs, es).Ok?
    ensures RecordRead(env, fs, es, Record(UnpackSlots(env, fs, es).value))
    decreases es, 3, |fs|
  {
    hide FieldRead, EnvOk;
    SlotsAreRead(env, fs, es);
  }

  lemma {:induction false} SlotsAreRead(env: Env, fs: seq<Field>, es: seq<Elem>)
    requires EnvOk(env) && UnpackSlots(env, fs, es).Ok?
    ensures var slots := UnpackSlots(env, fs, es).value;
            |slots| == |fs| && forall i | 0 <= i < |fs| :: FieldRead(env, fs[i], es, slots[i])
    decreases es, 2, |fs|
  {
    hide FieldRead, EnvOk, UnpackSlotCells, StoreField;
    if fs != [] {
      FieldIsRead(env, fs[0], es);
      SlotsAreRead(env, fs[1..], es);
      assert forall i | 1 <= i < |fs| :: fs[i] == fs[1..][i - 1];
    }
  }

  lemma {:induction false} FieldIsRead(env: Env, f: Field, es: seq<Elem>)
    requires EnvOk(env) && FindElement(es, f.name).Just?
    requires var d := FindElement(es, f.name).value.data;
             UnpackSlotCells(env, f.typ, d).Ok? && StoreField(f.typ, UnpackSlotCells(env, f.typ, d).value).Ok?
    ensures var d := FindElement(es, f.name).value.data;
            FieldRead(env, f, es, StoreField(f.typ, UnpackSlotCells(env, f.typ, d).value).value)
    decreases es, 1
  {
    hide UnpackSlotCells, StoreField, CellsRead, Stored, EnvOk;
    FindElementMeans(es, f.name);
    var j: nat :| IsFirstNamed(es, f.name, j) && FindElement(es, f.name).value == es[j];
    var d := es[j].data;
    assert d < es[j];
    SlotIsRead(env, f.typ, d);
    StoredByType(f.typ, UnpackSlotCells(env, f.typ, d).value);
  }

  lemma {:induction false} SlotIsRead(env: Env, t: TypeDef, d: Data)
    requires EnvOk(env) && UnpackSlotCells(env, t, d).Ok?
    ensures CellsRead(env, t, d, UnpackSlotCells(env, t, d).value)
    decreases d, 3
  {
    hide UnpackPods, UnpackNamedArray, PodsRead, NamedRead, NumberCells, EnvOk;
    match t.base
    case Named(Pod(q, _)) => PodsAreRead(env, d, Just(FlattenType(t)));
    case Named(NamedArray(q, _)) => NamedAreRead(env, d, Just(FlattenType(t)));
    case Numeric(k) =>
      NumberCellsRead(env, t, d, k);
  }
}
