/** The C++ types the generator prints, and the functions that take printed types and declarations apart
    again: `remove_RR_INTRUSIVE_PTR` and `dforc`. */
module CppTypes {
  import opened Types

  // ----- text

  /** The blanks `boost::trim` takes off. */
  predicate IsBlank(c: char) {
    c == ' ' || '\t' <= c <= '\r'
  }

  function TrimLeft(s: string): string {
    if s == "" || !IsBlank(s[0]) then s else TrimLeft(s[1..])
  }

  function TrimRight(s: string): string {
    if s == "" || !IsBlank(s[|s| - 1]) then s else TrimRight(s[..|s| - 1])
  }

  function Trim(s: string): string {
    TrimRight(TrimLeft(s))
  }

  /** Brackets opened minus brackets closed. */
  function Delta(c: char): int {
    if c == '<' then 1 else if c == '>' then -1 else 0
  }

  function Depth(s: string): int {
    if s == "" then 0 else Delta(s[0]) + Depth(s[1..])
  }

  /** Read from bracket depth `d`, the depth never falls below zero and there is no blank at depth zero. */
  predicate Fits(s: string, d: int) {
    s == "" || (d + Delta(s[0]) >= 0 && (IsBlank(s[0]) ==> d + Delta(s[0]) > 0) && Fits(s[1..], d + Delta(s[0])))
  }

  /** At depth 0: balanced brackets and no blank outside of them. At depth 1: balanced. */
  predicate Closed(s: string, d: int) {
    Fits(s, d) && Depth(s) == 0
  }

  predicate Word(s: string) {
    forall i | 0 <= i < |s| :: s[i] != '<' && s[i] != '>' && !IsBlank(s[i])
  }

  lemma {:induction false} FitsConcat(a: string, b: string, d: int)
    ensures Depth(a + b) == Depth(a) + Depth(b)
    ensures Fits(a + b, d) <==> Fits(a, d) && Fits(b, d + Depth(a))
  {
    if a == "" {
      assert a + b == b;
    } else {
      assert (a + b)[1..] == a[1..] + b;
      FitsConcat(a[1..], b, d + Delta(a[0]));
    }
  }

  lemma {:induction false} FitsDeeper(s: string, d: int, e: int)
    requires Fits(s, d) && d <= e
    ensures Fits(s, e)
  {
    if s != "" {
      FitsDeeper(s[1..], d + Delta(s[0]), e + Delta(s[0]));
    }
  }

  lemma {:induction false} WordCloses(s: string, d: nat)
    requires Word(s)
    ensures Closed(s, d)
  {
    if s != "" {
      WordCloses(s[1..], d);
    }
  }

  lemma ClosedConcat(a: string, b: string, d: nat)
    requires Closed(a, d) && Closed(b, d)
    ensures Closed(a + b, d)
  {
    FitsConcat(a, b, d);
  }

  function Angle(head: string, x: string): string {
    head + "<" + x + ">"
  }

  lemma BracketsFit(d: nat)
    ensures Depth("<") == 1 && Fits("<", d) && Depth(">") == -1 && Fits(">", d + 1)
    ensures Closed(" ", 1)
  {
    assert "<"[1..] == "" && ">"[1..] == "" && " "[1..] == "";
  }

  lemma AngleCloses(head: string, x: string, d: nat)
    requires Word(head) && Closed(x, 1)
    ensures Closed(Angle(head, x), d)
  {
    WordCloses(head, d);
    BracketsFit(d);
    FitsDeeper(x, 1, d + 1);
    FitsConcat(head, "<", d);
    FitsConcat(head + "<", x, d);
    FitsConcat(head + "<" + x, ">", d);
  }

  lemma BlankAfter(x: string)
    requires Closed(x, 0) || Closed(x, 1)
    ensures Closed(x + " ", 1)
  {
    BracketsFit(0);
    if Closed(x, 0) {
      FitsDeeper(x, 0, 1);
    }
    ClosedConcat(x, " ", 1);
  }

  // ----- names

  /** The words `fix_name` knows, by length. */
  function ReservedOfLength(length: nat): seq<string> {
    match length
    case 2 => ["do", "if", "or"]
    case 3 => ["and", "asm", "for", "int", "new", "not", "try", "xor"]
    case 4 => ["auto", "bool", "case", "char", "else", "enum", "goto", "long", "this", "true", "void"]
    case 5 => ["bitor", "break", "catch", "class", "compl", "const", "false", "float", "noteq", "or_eq",
               "short", "throw", "union", "using", "while", "final"]
    case 6 => ["and_eq", "bitand", "delete", "double", "export", "extern", "friend", "inline", "public",
               "return", "signed", "sizeof", "static", "struct", "switch", "typeid", "xor_eq", "int8_t",
               "pascal"]
    case 7 => ["alignas", "alignof", "default", "mutable", "nullptr", "private", "typedef", "virtual",
               "wchar_t", "uint8_t", "int16_t", "int32_t", "int64_t"]
    case 8 => ["char16_t", "char32_t", "continue", "decltype", "explicit", "noexcept", "operator", "register",
               "template", "typename", "unsigned", "volatile", "override", "uint16_t", "uint32_t", "uint64_t"]
    case 9 => ["namespace", "protected"]
    case 10 => ["constnexpr", "const_cast"]
    case 11 => ["static_cast"]
    case 12 => ["dynamic_cast", "thread_local"]
    case 13 => ["static_assert"]
    case 16 => ["reinterpret_cast"]
    case _ => []
  }

  predicate Reserved(n: string) {
    n in ReservedOfLength(|n|)
  }

  function FixName(n: string): string {
    if Reserved(n) then n + "_" else n
  }

  function FirstDot(n: string): (i: nat)
    ensures i <= |n| && (i < |n| <==> '.' in n) && (i < |n| ==> n[i] == '.')
  {
    if n == "" || n[0] == '.' then 0 else 1 + FirstDot(n[1..])
  }

  /** Each part between dots fixed, joined by `::`. */
  function FixQualifiedName(n: string): string
    decreases |n|
  {
    var i := FirstDot(n);
    if i == |n| then FixName(n) else FixName(n[..i]) + "::" + FixQualifiedName(n[i + 1..])
  }

  function LastPart(n: string): string
    decreases |n|
  {
    var i := FirstDot(n);
    if i == |n| then n else LastPart(n[i + 1..])
  }

  lemma WordParts(n: string, i: nat)
    requires Word(n) && i < |n|
    ensures Word(n[..i]) && Word(n[i + 1..]) && Word("::")
  {
  }

  lemma FixedNameIsWord(n: string)
    requires Word(n)
    ensures Word(FixName(n))
  {
    hide Reserved;
  }

  lemma {:induction false} NamesAreWords(n: string)
    requires Word(n)
    ensures Word(FixName(n)) && Word(FixQualifiedName(n)) && Word(FixName(LastPart(n)))
    decreases |n|
  {
    hide FixName, Word, Reserved;
    var i := FirstDot(n);
    FixedNameIsWord(n);
    if i < |n| {
      WordParts(n, i);
      FixedNameIsWord(n[..i]);
      NamesAreWords(n[i + 1..]);
      WordsCat(FixName(n[..i]), "::");
      WordsCat(FixName(n[..i]) + "::", FixQualifiedName(n[i + 1..]));
    }
  }

  // ----- types

  function NumberType(k: Kind): string {
    match k
    case Double => "double"
    case Single => "float"
    case Int8 => "int8_t"
    case UInt8 => "uint8_t"
    case Int16 => "int16_t"
    case UInt16 => "uint16_t"
    case Int32 => "int32_t"
    case UInt32 => "uint32_t"
    case Int64 => "int64_t"
    case UInt64 => "uint64_t"
    case CDouble => "RobotRaconteur::cdouble"
    case CSingle => "RobotRaconteur::cfloat"
    case Bool => "RobotRaconteur::rr_bool"
  }

  function Pointer(x: string): string {
    Angle("RR_INTRUSIVE_PTR", x)
  }

  predicate StartsWith(s: string, prefix: string) {
    |s| >= |prefix| && s[..|prefix|] == prefix
  }

  /** `remove_RR_INTRUSIVE_PTR`: drops the 17 characters of the prefix and the last one. */
  function RemovePointer(s: string): string {
    var v := Trim(s);
    if !StartsWith(v, "RR_INTRUSIVE_PTR") || |v| < 18 then v else v[17..|v| - 1]
  }

  /** The name of a named type as the definition writes it, without a dot for a type of its own service. */
  function TypeString(t: TypeDef): string {
    if t.base.Named? then t.base.def.qname else ""
  }

  /** `get_variable_type(...).cpp_type`. */
  function VariableType(t: TypeDef, useScalar: bool): string
    decreases !t.container.NoContainer?
  {
    if t.base.Void? then "void"
    else if !t.container.NoContainer? then
      ContainerType(t.container, RemovePointer(VariableType(RemoveContainers(t), false)))
    else match t.base
      case Numeric(k) =>
        if t.arr.NotArray? && useScalar then NumberType(k)
        else if t.arr.MultiDim? then Pointer(Angle("RobotRaconteur::RRMultiDimArray", NumberType(k) + " ") + " ")
        else Pointer(Angle("RobotRaconteur::RRArray", NumberType(k) + " ") + " ")
      case Text =>
        if useScalar then "std::string" else Pointer(Angle("RobotRaconteur::RRArray", "char" + "") + " ")
      case VarValue => Pointer("RobotRaconteur::RRValue")
      case Named(Structure(_)) => Pointer(FixQualifiedName(TypeString(t)) + " ")
      case Named(Pod(_, _)) => RecordType("Pod", t, useScalar)
      case Named(NamedArray(_, _)) => RecordType("Named", t, useScalar)
      case Named(Enum(_)) =>
        if !useScalar then Pointer(Angle("RobotRaconteur::RRArray", "int32_t" + "") + " ")
        else if '.' !in TypeString(t) then FixName(TypeString(t)) + "::" + FixName(TypeString(t))
        else FixQualifiedName(TypeString(t)) + "::" + FixName(LastPart(TypeString(t)))
      case Void => "void"
  }

  function ContainerType(c: Container, r: string): string {
    if c.ListOf? then Pointer(Angle("RobotRaconteur::RRList", r + " ") + " ")
    else if c.MapInt32? then Pointer(Angle("RobotRaconteur::RRMap", "int32_t," + (r + " ")) + " ")
    else Pointer(Angle("RobotRaconteur::RRMap", "std::string," + (r + " ")) + " ")
  }

  function RecordType(a: string, t: TypeDef, useScalar: bool): string {
    var n := FixQualifiedName(TypeString(t));
    if t.arr.NotArray? && useScalar then n
    else if t.arr.MultiDim? then Pointer(Angle("RobotRaconteur::RR" + a + "MultiDimArray", n) + " ")
    else Pointer(Angle("RobotRaconteur::RR" + a + "Array", n) + " ")
  }

  /** Everything between the brackets comes back, whatever it is. */
  lemma RemovePointerOfPointer(x: string)
    ensures RemovePointer(Pointer(x)) == x
  {
    var s := Pointer(x);
    assert s[0] == 'R' && s[|s| - 1] == '>';
    assert Trim(s) == s;
    assert s[..16] == "RR_INTRUSIVE_PTR" && s[17..|s| - 1] == x;
  }

  lemma WordsCat(a: string, b: string)
    requires Word(a) && Word(b)
    ensures Word(a + b)
  {
  }

  lemma HeadsAreWords()
    ensures Word("RR_INTRUSIVE_PTR") && Word("RobotRaconteur::RRList") && Word("RobotRaconteur::RRMap")
  {
  }

  lemma ArrayHeadsAreWords()
    ensures Word("RobotRaconteur::RRArray") && Word("RobotRaconteur::RRMultiDimArray")
            && Word("RobotRaconteur::RRValue")
  {
  }

  lemma PlainTypesAreWords()
    ensures Word("void") && Word("char") && Word("int32_t") && Word("std::string") && Word("::")
    ensures Word("int32_t,") && Word("std::string,")
  {
  }

  lemma RecordHeadsAreWords()
    ensures Word("RobotRaconteur::RR" + "Pod" + "MultiDimArray") && Word("RobotRaconteur::RR" + "Pod" + "Array")
    ensures Word("RobotRaconteur::RR" + "Named" + "MultiDimArray") && Word("RobotRaconteur::RR" + "Named" + "Array")
  {
    assert Word("RobotRaconteur::RR") && Word("Pod") && Word("Named") && Word("MultiDimArray") && Word("Array");
    WordsCat("RobotRaconteur::RR", "Pod");
    WordsCat("RobotRaconteur::RR", "Named");
    WordsCat("RobotRaconteur::RR" + "Pod", "MultiDimArray");
    WordsCat("RobotRaconteur::RR" + "Pod", "Array");
    WordsCat("RobotRaconteur::RR" + "Named", "MultiDimArray");
    WordsCat("RobotRaconteur::RR" + "Named", "Array");
  }

  lemma NumberWords()
    ensures Word("RobotRaconteur::") && Word("cdouble") && Word("cfloat") && Word("rr_bool")
  {
  }

  lemma NumberTypesAreWords(k: Kind)
    ensures Word(NumberType(k))
  {
    NumberWords();
    hide Word;
    match k
    case CDouble => WordsCat("RobotRaconteur::", "cdouble"); assert "RobotRaconteur::" + "cdouble" == NumberType(k);
    case CSingle => WordsCat("RobotRaconteur::", "cfloat"); assert "RobotRaconteur::" + "cfloat" == NumberType(k);
    case Bool => WordsCat("RobotRaconteur::", "rr_bool"); assert "RobotRaconteur::" + "rr_bool" == NumberType(k);
    case _ => ShortNumberTypesAreWords(k);
  }

  lemma ShortNumberTypesAreWords(k: Kind)
    requires k.Double? || k.Single? || Integral(k)
    ensures Word(NumberType(k))
  {
  }

  /** `RR_INTRUSIVE_PTR<head<x> >`. */
  lemma PointerToAngle(head: string, x: string)
    requires Word(head) && Closed(x, 1)
    ensures Closed(Angle(head, x) + " ", 1) && Closed(Pointer(Angle(head, x) + " "), 0)
  {
    HeadsAreWords();
    AngleCloses(head, x, 1);
    BlankAfter(Angle(head, x));
    AngleCloses("RR_INTRUSIVE_PTR", Angle(head, x) + " ", 0);
  }

  /** `s` is `RR_INTRUSIVE_PTR<x>` with balanced `x`, and taking the pointer off gives `x`. */
  predicate IsPointer(s: string) {
    var x := RemovePointer(s);
    s == Pointer(x) && Closed(x, 1)
  }

  lemma PointerIsPointer(x: string)
    requires Closed(x, 1)
    ensures IsPointer(Pointer(x)) && RemovePointer(Pointer(x)) == x
    ensures Closed(Pointer(x), 0)
  {
    RemovePointerOfPointer(x);
    HeadsAreWords();
    AngleCloses("RR_INTRUSIVE_PTR", x, 0);
  }

  lemma AngleIsPointer(head: string, x: string)
    requires Word(head) && Closed(x, 1)
    ensures IsPointer(Pointer(Angle(head, x) + " ")) && Closed(Pointer(Angle(head, x) + " "), 0)
  {
    PointerToAngle(head, x);
    PointerIsPointer(Angle(head, x) + " ");
  }

  /** Every printed type has balanced brackets and no blank outside of them; in non-scalar form every type
      but `void` prints as a pointer, from which `remove_RR_INTRUSIVE_PTR` recovers what is pointed to. */
  lemma {:induction false} PrintedTypes(t: TypeDef, useScalar: bool)
    requires Word(TypeString(t))
    ensures Closed(VariableType(t, useScalar), 0)
    ensures !t.base.Void? && (!useScalar || !t.container.NoContainer?) ==> IsPointer(VariableType(t, useScalar))
    decreases !t.container.NoContainer?
  {
    hide IsPointer, Closed, Word, NumberType, FixName, FixQualifiedName, LastPart, Angle, RemovePointer, ContainerType;
    HeadsAreWords();
    ArrayHeadsAreWords();
    PlainTypesAreWords();
    NamesAreWords(TypeString(t));
    if t.base.Void? {
      WordCloses("void", 0);
    } else if !t.container.NoContainer? {
      PrintedTypes(RemoveContainers(t), false);
      ContainerIsPointer(t.container, VariableType(RemoveContainers(t), false));
    } else {
      match t.base
      case Numeric(k) =>
        NumberTypesAreWords(k);
        WordCloses(NumberType(k), 0);
        BlankAfter(NumberType(k));
        AngleIsPointer("RobotRaconteur::RRMultiDimArray", NumberType(k) + " ");
        AngleIsPointer("RobotRaconteur::RRArray", NumberType(k) + " ");
      case Text =>
        WordCloses("std::string", 0);
        assert "char" + "" == "char";
        WordCloses("char", 1);
        AngleIsPointer("RobotRaconteur::RRArray", "char");
      case VarValue =>
        WordCloses("RobotRaconteur::RRValue", 1);
        PointerIsPointer("RobotRaconteur::RRValue");
      case Named(Structure(_)) =>
        WordCloses(FixQualifiedName(TypeString(t)), 0);
        BlankAfter(FixQualifiedName(TypeString(t)));
        PointerIsPointer(FixQualifiedName(TypeString(t)) + " ");
      case Named(Pod(_, _)) =>
        RecordHeadsAreWords();
        RecordTypes("Pod", t, useScalar);
      case Named(NamedArray(_, _)) =>
        RecordHeadsAreWords();
        RecordTypes("Named", t, useScalar);
      case Named(Enum(_)) => EnumTypes(t, useScalar);
    }
  }

  lemma ContainerIsPointer(c: Container, inner: string)
    requires IsPointer(inner)
    ensures IsPointer(ContainerType(c, RemovePointer(inner))) && Closed(ContainerType(c, RemovePointer(inner)), 0)
  {
    var r := RemovePointer(inner) + " ";
    BlankAfter(RemovePointer(inner));
    hide IsPointer, Closed, Word, Angle, RemovePointer;
    HeadsAreWords();
    PlainTypesAreWords();
    AngleIsPointer("RobotRaconteur::RRList", r);
    WordCloses("int32_t,", 1);
    ClosedConcat("int32_t,", r, 1);
    AngleIsPointer("RobotRaconteur::RRMap", "int32_t," + r);
    WordCloses("std::string,", 1);
    ClosedConcat("std::string,", r, 1);
    AngleIsPointer("RobotRaconteur::RRMap", "std::string," + r);
  }

  lemma RecordTypes(a: string, t: TypeDef, useScalar: bool)
    requires Word(TypeString(t)) && Word("RobotRaconteur::RR" + a + "MultiDimArray")
             && Word("RobotRaconteur::RR" + a + "Array")
    ensures Closed(RecordType(a, t, useScalar), 0) && (!useScalar ==> IsPointer(RecordType(a, t, useScalar)))
  {
    hide IsPointer, Closed, Word, FixQualifiedName, Angle, Reserved;
    NamesAreWords(TypeString(t));
    var n := FixQualifiedName(TypeString(t));
    WordCloses(n, 0);
    WordCloses(n, 1);
    AngleIsPointer("RobotRaconteur::RR" + a + "MultiDimArray", n);
    AngleIsPointer("RobotRaconteur::RR" + a + "Array", n);
  }

  lemma EnumTypes(t: TypeDef, useScalar: bool)
    requires Word(TypeString(t)) && t.base.Named? && t.base.def.Enum? && t.container.NoContainer?
    ensures Closed(VariableType(t, useScalar), 0) && (!useScalar ==> IsPointer(VariableType(t, useScalar)))
  {
    hide IsPointer, Closed, FixName, FixQualifiedName, LastPart, Angle;
    ArrayHeadsAreWords();
    PlainTypesAreWords();
    NamesAreWords(TypeString(t));
    assert "int32_t" + "" == "int32_t";
    WordCloses("int32_t", 1);
    AngleIsPointer("RobotRaconteur::RRArray", "int32_t");
    WordCloses(FixName(TypeString(t)) + "::" + FixName(TypeString(t)), 0);
    WordCloses(FixQualifiedName(TypeString(t)) + "::" + FixName(LastPart(TypeString(t))), 0);
  }
}
