/** Reading printed C++ types back: which type a text of `CppTypes` names. */
module CppReader {
  import opened Types
  import opened CppTypes

  // ----- what a text can name

  /** The elements of arrays, by what C++ makes of them. */
  datatype Element = Float(bits: nat) | Complex(bits: nat) | Integer(signed: bool, bits: nat) | Boolean | Character

  datatype Meaning =
    | Nothing_
    | ByValue(element: Element)
    | StdString
    | NamedByValue(name: seq<string>)
    | ArrayOf(multi: bool, element: Element)
    | RecordsOf(pod: bool, multi: bool, name: seq<string>)
    | StructureOf(name: seq<string>)
    | AnyValue
    | ContainerOf(container: Container, item: Meaning)

  // ----- names

  /** The keywords and alternative tokens of C++17 (tables 4 and 5, sections 5.5 and 5.11 of ISO/IEC 14882:2017), by
      length. */
  function KeywordsOfLength(length: nat): seq<string> {
    match length
    case 2 => ["do", "if", "or"]
    case 3 => ["asm", "for", "int", "new", "try", "and", "not", "xor"]
    case 4 => ["auto", "bool", "case", "char", "else", "enum", "goto", "long", "this", "true", "void"]
    case 5 => ["break", "catch", "class", "const", "false", "float", "short", "throw", "union", "using",
               "while", "bitor", "compl", "or_eq"]
    case 6 => ["delete", "double", "export", "extern", "friend", "inline", "public", "return", "signed",
               "sizeof", "static", "struct", "switch", "typeid", "and_eq", "bitand", "not_eq", "xor_eq"]
    case 7 => ["alignas", "alignof", "default", "mutable", "nullptr", "private", "typedef", "virtual",
               "wchar_t"]
    case 8 => ["char16_t", "char32_t", "continue", "decltype", "explicit", "noexcept", "operator", "register",
               "template", "typename", "unsigned", "volatile"]
    case 9 => ["constexpr", "namespace", "protected"]
    case 10 => ["const_cast"]
    case 11 => ["static_cast"]
    case 12 => ["dynamic_cast", "thread_local"]
    case 13 => ["static_assert"]
    case 16 => ["reinterpret_cast"]
    case _ => []
  }

  predicate Keyword(n: string) {
    n in KeywordsOfLength(|n|)
  }

  lemma ShortKeywordsAreReserved(n: string)
    requires Keyword(n) && |n| <= 6
    ensures Reserved(n) || n == "not_eq"
  {
  }

  lemma LongKeywordsAreReserved(n: string)
    requires Keyword(n) && |n| > 6
    ensures Reserved(n) || n == "constexpr"
  {
  }

  lemma KeywordsAreReserved(n: string)
    requires Keyword(n)
    ensures Reserved(n) || n == "constexpr" || n == "not_eq"
  {
    hide Keyword, Reserved;
    if |n| <= 6 {
      ShortKeywordsAreReserved(n);
    } else {
      LongKeywordsAreReserved(n);
    }
  }

  lemma ShortestWordsEndInLetters(n: string)
    requires Reserved(n) && |n| <= 4
    ensures n != "" && n[|n| - 1] != '_'
  {
  }

  lemma ShortWordsEndInLetters(n: string)
    requires Reserved(n) && |n| == 5
    ensures n[|n| - 1] != '_'
  {
  }

  lemma MediumWordsEndInLetters(n: string)
    requires Reserved(n) && |n| == 6
    ensures n[|n| - 1] != '_'
  {
  }

  lemma LongerWordsEndInLetters(n: string)
    requires Reserved(n) && |n| == 7
    ensures n[|n| - 1] != '_'
  {
  }

  lemma LongWordsEndInLetters(n: string)
    requires Reserved(n) && |n| > 7
    ensures n[|n| - 1] != '_'
  {
  }

  lemma ReservedEndInLetters(n: string)
    requires Reserved(n)
    ensures n != "" && n[|n| - 1] != '_'
  {
    hide Reserved;
    if |n| <= 4 {
      ShortestWordsEndInLetters(n);
    } else if |n| == 5 {
      ShortWordsEndInLetters(n);
    } else if |n| == 6 {
      MediumWordsEndInLetters(n);
    } else if |n| == 7 {
      LongerWordsEndInLetters(n);
    } else {
      LongWordsEndInLetters(n);
    }
  }

  lemma KeywordsEndInLetters(n: string)
    requires Keyword(n)
    ensures n != "" && n[|n| - 1] != '_'
  {
    hide Reserved, Keyword;
    KeywordsAreReserved(n);
    if Reserved(n) {
      ReservedEndInLetters(n);
    }
  }

  /** `fix_name` keeps every name from being a keyword except two it does not know. */
  lemma FixedNamesAreNoKeywords(n: string)
    ensures Keyword(FixName(n)) <==> n == "constexpr" || n == "not_eq"
  {
    hide Keyword, Reserved;
    if Keyword(FixName(n)) {
      KeywordsEndInLetters(FixName(n));
      KeywordsAreReserved(FixName(n));
    }
    TwoUnknownKeywords();
  }

  lemma TwoUnknownKeywords()
    ensures Keyword("constexpr") && !Reserved("constexpr") && Keyword("not_eq") && !Reserved("not_eq")
  {
  }

  /** The words `fix_name` knows that are no keywords: identifiers with a meaning in some places, a calling
      convention, the fixed-width types, and two misspelt keywords. */
  lemma OtherReservedWords()
    ensures Reserved("override") && Reserved("final") && Reserved("pascal")
    ensures Reserved("constnexpr") && Reserved("noteq")
  {
  }

  /** `fix_name` maps two names to one exactly when one of them is reserved and the other is it with an
      underscore. */
  lemma FixNameCollides(a: string, b: string)
    ensures FixName(a) == FixName(b) <==>
            a == b || (Reserved(a) && b == a + "_" && !Reserved(b)) || (Reserved(b) && a == b + "_" && !Reserved(a))
  {
    hide Reserved;
    if Reserved(a) && Reserved(b) && a + "_" == b + "_" {
      assert a == (a + "_")[..|a|] && b == (b + "_")[..|b|];
    }
  }

  /** The parts of a qualified name as the definition writes it. */
  function Parts(q: string): (ps: seq<string>)
    ensures ps != []
    decreases |q|
  {
    var i := FirstDot(q);
    if i == |q| then [q] else [q[..i]] + Parts(q[i + 1..])
  }

  function FirstOf(s: string, c: char): (i: nat)
    ensures i <= |s| && (i < |s| ==> s[i] == c) && forall j | 0 <= j < i :: s[j] != c
  {
    if s == "" || s[0] == c then 0 else 1 + FirstOf(s[1..], c)
  }

  lemma {:induction false} FirstIs(s: string, c: char, i: nat)
    requires i <= |s| && (i < |s| ==> s[i] == c) && forall j | 0 <= j < i :: s[j] != c
    ensures FirstOf(s, c) == i
  {
    if i > 0 {
      assert forall j | 0 <= j < i - 1 :: s[1..][j] != c by {
        assert forall j | 0 <= j < i - 1 :: s[1..][j] == s[j + 1];
      }
      FirstIs(s[1..], c, i - 1);
    }
  }

  /** An identifier that is no keyword; an underscore that keeps it from being a reserved word is not part
      of the name. */
  function ReadPart(p: string): Option<string> {
    if p == "" || Keyword(p) then Nothing
    else if p[|p| - 1] == '_' && Reserved(p[..|p| - 1]) then Just(p[..|p| - 1])
    else Just(p)
  }

  /** Parts joined by `::`. */
  function ReadName(s: string): Option<seq<string>>
    decreases |s|
  {
    var i := FirstOf(s, ':');
    var first := ReadPart(s[..i]);
    if first.Nothing? then Nothing
    else if i == |s| then Just([first.value])
    else if i + 1 == |s| || s[i + 1] != ':' then Nothing
    else
      var rest := ReadName(s[i + 2..]);
      if rest.Nothing? then Nothing else Just([first.value] + rest.value)
  }

  // ----- elements

  predicate Digit(c: char) {
    '0' <= c <= '9'
  }

  /** A decimal number of one or two digits, without leading zeros; zero for any other text. */
  function ReadDecimal(s: string): nat {
    if |s| == 1 && Digit(s[0]) then (s[0] - '0') as nat
    else if |s| == 2 && Digit(s[0]) && s[0] != '0' && Digit(s[1]) then
      10 * (s[0] - '0') as nat + (s[1] - '0') as nat
    else 0
  }

  /** `int`, a decimal width and `_t`. */
  function ReadWidth(s: string): nat {
    if |s| >= 5 && s[..3] == "int" && s[|s| - 2..] == "_t" then ReadDecimal(s[3..|s| - 2]) else 0
  }

  function ReadInteger(s: string): Option<Element> {
    var unsigned := s != "" && s[0] == 'u';
    var width := ReadWidth(if unsigned then s[1..] else s);
    if width == 8 || width == 16 || width == 32 || width == 64 then Just(Integer(!unsigned, width)) else Nothing
  }

  function ReadElement(s: string): Option<Element> {
    if s == "double" then Just(Float(64))
    else if s == "float" then Just(Float(32))
    else if s == "RobotRaconteur::cdouble" then Just(Complex(64))
    else if s == "RobotRaconteur::cfloat" then Just(Complex(32))
    else if s == "RobotRaconteur::rr_bool" then Just(Boolean)
    else ReadInteger(s)
  }

  // ----- types

  /** The text before the first bracket, and what stands between it and a bracket at the end. */
  function Head(s: string): string {
    s[..FirstOf(s, '<')]
  }

  function Body(s: string): Option<string> {
    var i := FirstOf(s, '<');
    if i + 1 < |s| && s[|s| - 1] == '>' then Just(TrimRight(s[i + 1..|s| - 1])) else Nothing
  }

  function ReadType(s: string): Option<Meaning> {
    if '<' in s then
      if Head(s) == "RR_INTRUSIVE_PTR" && Body(s).Just? then ReadPointee(Body(s).value) else Nothing
    else if s == "void" then Just(Nothing_)
    else if s == "std::string" then Just(StdString)
    else match ReadElement(s)
      case Just(e) => Just(ByValue(e))
      case Nothing => match ReadName(s) case Just(n) => Just(NamedByValue(n)) case Nothing => Nothing
  }

  lemma {:induction false} TrimRightShortens(s: string)
    ensures |TrimRight(s)| <= |s|
  {
    if s != "" && IsBlank(s[|s| - 1]) {
      TrimRightShortens(s[..|s| - 1]);
    }
  }

  lemma BodyShortens(s: string)
    ensures Body(s).Just? ==> |Body(s).value| < |s|
  {
    var i := FirstOf(s, '<');
    if Body(s).Just? {
      TrimRightShortens(s[i + 1..|s| - 1]);
    }
  }

  /** What an intrusive pointer points to. */
  function ReadPointee(s: string): Option<Meaning>
    decreases |s|
  {
    if '<' !in s then
      if s == "RobotRaconteur::RRValue" then Just(AnyValue)
      else match ReadName(s) case Just(n) => Just(StructureOf(n)) case Nothing => Nothing
    else if Body(s).Nothing? then Nothing
    else
      BodyShortens(s);
      var head, body := Head(s), Body(s).value;
      if !StartsWith(head, "RobotRaconteur::RR") then Nothing
      else
        var holder := head[18..];
        if holder == "List" then Contained(ListOf, ReadPointee(body))
        else if holder == "Map" then ReadMap(body)
        else ReadArray(holder, body)
  }

  /** The key type and the item type of a map. */
  function ReadMap(body: string): Option<Meaning>
    decreases |body|
  {
    var j := FirstOf(body, ',');
    if j == |body| then Nothing
    else if body[..j] == "int32_t" then Contained(MapInt32, ReadPointee(body[j + 1..]))
    else if body[..j] == "std::string" then Contained(MapString, ReadPointee(body[j + 1..]))
    else Nothing
  }

  /** Arrays of numbers, characters or records. */
  function ReadArray(holder: string, body: string): Option<Meaning> {
    if holder == "Array" then
      if body == "char" then Just(ArrayOf(false, Character)) else Elements(false, ReadElement(body))
    else if holder == "MultiDimArray" then Elements(true, ReadElement(body))
    else if StartsWith(holder, "Pod") then ReadRecords(true, holder[3..], body)
    else if StartsWith(holder, "Named") then ReadRecords(false, holder[5..], body)
    else Nothing
  }

  function ReadRecords(pod: bool, holder: string, body: string): Option<Meaning> {
    if holder == "Array" then Records(pod, false, ReadName(body))
    else if holder == "MultiDimArray" then Records(pod, true, ReadName(body))
    else Nothing
  }

  function Contained(c: Container, m: Option<Meaning>): Option<Meaning> {
    if m.Nothing? then Nothing else Just(ContainerOf(c, m.value))
  }

  function Elements(multi: bool, e: Option<Element>): Option<Meaning> {
    if e.Nothing? then Nothing else Just(ArrayOf(multi, e.value))
  }

  function Records(pod: bool, multi: bool, n: Option<seq<string>>): Option<Meaning> {
    if n.Nothing? then Nothing else Just(RecordsOf(pod, multi, n.value))
  }

  // ----- what the types of a definition mean

  function ElementOf(k: Kind): Element {
    if Integral(k) then Integer(Signed(k), Bits(k))
    else match k
      case Double => Float(64)
      case Single => Float(32)
      case CDouble => Complex(64)
      case CSingle => Complex(32)
      case _ => Boolean
  }

  /** What a variable of type `t` is in C++, scalars by value only where `scalar` is asked for. */
  function MeaningOf(t: TypeDef, scalar: bool): Meaning
    decreases !t.container.NoContainer?
  {
    if t.base.Void? then Nothing_
    else if !t.container.NoContainer? then ContainerOf(t.container, MeaningOf(RemoveContainers(t), false))
    else
      var single := t.arr.NotArray? && scalar;
      match t.base
      case Numeric(k) => if single then ByValue(ElementOf(k)) else ArrayOf(t.arr.MultiDim?, ElementOf(k))
      case Text => if scalar then StdString else ArrayOf(false, Character)
      case VarValue => AnyValue
      case Named(Structure(q)) => StructureOf(Parts(q))
      case Named(Enum(q)) =>
        // an enum is declared in a namespace of its own name
        if scalar then NamedByValue(Parts(q) + [Parts(q)[|Parts(q)| - 1]]) else ArrayOf(false, Integer(true, 32))
      case Named(def) =>
        if single then NamedByValue(Parts(def.qname)) else RecordsOf(def.Pod?, t.arr.MultiDim?, Parts(def.qname))
      case Void => Nothing_
  }

  /** A part of a name that can be told from its printed form: an identifier that is neither one of the two
      keywords `fix_name` does not know nor a reserved word with an underscore. */
  predicate PartOk(p: string) {
    && p != "" && Word(p) && (forall c | c in p :: c != ':' && c != '.' && c != ',')
    && p != "constexpr" && p != "not_eq"
    && !(p[|p| - 1] == '_' && Reserved(p[..|p| - 1]))
  }

  predicate PartsOk(ps: seq<string>) {
    forall i | 0 <= i < |ps| :: PartOk(ps[i])
  }

  /** A name of a service other than the libraries' own namespaces. */
  predicate NameOk(q: string) {
    && PartsOk(Parts(q))
    && Parts(q)[0] != "RobotRaconteur" && Parts(q)[0] != "std"
  }

  // ----- reading back

  lemma ReadsPart(p: string)
    requires PartOk(p)
    ensures ReadPart(FixName(p)) == Just(p) && FixName(p) != "" && !Reserved(FixName(p))
    ensures forall c | c in FixName(p) :: c != ':' && c != '<' && c != ',' && !IsBlank(c)
    ensures FixName(p)[0] == p[0] && (FixName(p) == p || FixName(p)[|FixName(p)| - 1] == '_')
  {
    hide Keyword, Reserved;
    FixedNamesAreNoKeywords(p);
    var f := FixName(p);
    if Reserved(p) {
      assert f[..|f| - 1] == p;
      if Reserved(f) {
        ReservedEndInLetters(f);
      }
    }
  }

  lemma SplitsAtColons(f: string, rest: string)
    requires forall c | c in f :: c != ':'
    ensures FirstOf(f, ':') == |f| && f[..|f|] == f
    ensures var s := f + "::" + rest;
            FirstOf(s, ':') == |f| && s[..|f|] == f && |s| > |f| + 1 && s[|f| + 1] == ':' && s[|f| + 2..] == rest
  {
    assert forall j | 0 <= j < |f| :: f[j] in f;
    FirstIs(f, ':', |f|);
    var s := f + "::" + rest;
    assert forall j | 0 <= j < |f| :: s[j] == f[j];
    FirstIs(s, ':', |f|);
  }

  lemma ReadNameSteps(f: string, rest: string, p: string)
    requires (forall c | c in f :: c != ':') && ReadPart(f) == Just(p)
    ensures ReadName(f) == Just([p])
    ensures ReadName(f + "::" + rest)
         == if ReadName(rest).Nothing? then Nothing else Just([p] + ReadName(rest).value)
  {
    hide ReadPart, FirstOf;
    SplitsAtColons(f, rest);
  }

  lemma PartsUnfold(q: string)
    ensures var i := FirstDot(q); Parts(q) == if i == |q| then [q] else [q[..i]] + Parts(q[i + 1..])
  {
    hide FirstDot;
  }

  lemma FixedUnfold(q: string)
    ensures var i := FirstDot(q);
            FixQualifiedName(q)
            == if i == |q| then FixName(q) else FixName(q[..i]) + "::" + FixQualifiedName(q[i + 1..])
  {
    hide FirstDot, FixName;
  }

  lemma PartsOkCons(p: string, ps: seq<string>)
    requires PartsOk([p] + ps)
    ensures PartOk(p) && PartsOk(ps)
  {
    hide PartOk;
    var all := [p] + ps;
    assert all[0] == p && forall j | 0 <= j < |ps| :: ps[j] == all[j + 1];
  }

  lemma OnePartOk(p: string)
    requires PartsOk([p])
    ensures PartOk(p)
  {
    hide PartOk;
    assert [p][0] == p;
  }

  /** A name is its first part, ... */
  lemma OneNamePart(q: string)
    requires PartsOk(Parts(q)) && FirstDot(q) == |q|
    ensures PartOk(q) && Parts(q) == [q] && FixQualifiedName(q) == FixName(q)
  {
    hide PartOk, PartsOk, FixName, Parts, FixQualifiedName, FirstDot;
    PartsUnfold(q);
    FixedUnfold(q);
    OnePartOk(q);
  }

  /** ... or its first part and the rest. */
  lemma MoreNameParts(q: string, p: string, rest: string)
    requires PartsOk(Parts(q)) && FirstDot(q) < |q| && p == q[..FirstDot(q)] && rest == q[FirstDot(q) + 1..]
    ensures PartOk(p) && PartsOk(Parts(rest)) && Parts(q) == [p] + Parts(rest)
    ensures FixQualifiedName(q) == FixName(p) + "::" + FixQualifiedName(rest)
  {
    hide PartOk, PartsOk, FixName, Parts, FixQualifiedName, FirstDot;
    PartsUnfold(q);
    FixedUnfold(q);
    PartsOkCons(p, Parts(rest));
  }

  lemma {:induction false} ReadsName(q: string)
    requires PartsOk(Parts(q))
    ensures ReadName(FixQualifiedName(q)) == Just(Parts(q))
    decreases |q|
  {
    hide FixName, ReadPart, PartOk, ReadName, Parts, FixQualifiedName, PartsOk, FirstDot;
    var i := FirstDot(q);
    if i == |q| {
      OneNamePart(q);
      ReadsPart(q);
      ReadNameSteps(FixName(q), "", q);
    } else {
      var p, rest := q[..i], q[i + 1..];
      MoreNameParts(q, p, rest);
      ReadsPart(p);
      ReadsName(rest);
      ReadNameSteps(FixName(p), FixQualifiedName(rest), p);
    }
  }

  /** A text without brackets, commas and blanks. */
  predicate NameChars(s: string) {
    s != "" && forall c | c in s :: c != '<' && c != ',' && !IsBlank(c)
  }

  lemma NameCharsCat(f: string, rest: string)
    requires NameChars(f) && NameChars(rest)
    ensures NameChars(f + "::" + rest)
  {
  }

  /** The printed form of a name begins with its first part, and has no brackets, commas or blanks. */
  lemma {:induction false} NameText(q: string)
    requires PartsOk(Parts(q))
    ensures var s, f := FixQualifiedName(q), FixName(Parts(q)[0]);
            && NameChars(s) && FirstOf(s, ':') == |f| <= |s| && s[..|f|] == f
            && (|f| == |s| <==> |Parts(q)| == 1)
    decreases |q|
  {
    hide FixName, PartOk, FirstOf, Parts, FixQualifiedName, PartsOk, FirstDot;
    var i := FirstDot(q);
    if i < |q| {
      var p, rest := q[..i], q[i + 1..];
      MoreNameParts(q, p, rest);
      ReadsPart(p);
      NameText(rest);
      SplitsAtColons(FixName(p), FixQualifiedName(rest));
      NameCharsCat(FixName(p), FixQualifiedName(rest));
    } else {
      OneNamePart(q);
      ReadsPart(q);
      SplitsAtColons(FixName(q), "");
    }
  }

  // ----- elements

  function IntegerText(unsigned: bool, width: string): string {
    (if unsigned then "u" else "") + ("int" + width + "_t")
  }

  lemma WidthRead(width: string)
    requires width != ""
    ensures ReadWidth("int" + width + "_t") == ReadDecimal(width)
  {
    hide ReadDecimal;
    var s := "int" + width + "_t";
    assert s[..3] == "int" && s[|s| - 2..] == "_t" && s[3..|s| - 2] == width;
  }

  lemma IntegerRead(unsigned: bool, width: string)
    requires width != "" && ReadDecimal(width) in [8, 16, 32, 64]
    ensures ReadInteger(IntegerText(unsigned, width)) == Just(Integer(!unsigned, ReadDecimal(width)))
  {
    hide ReadDecimal, ReadWidth;
    var s, r := IntegerText(unsigned, width), "int" + width + "_t";
    WidthRead(width);
    if unsigned {
      assert s[0] == 'u' && s[1..] == r;
    } else {
      assert s == r && s[0] == 'i';
    }
  }

  lemma IntegerShape(s: string) returns (unsigned: bool, width: string)
    requires ReadInteger(s).Just?
    ensures s == IntegerText(unsigned, width) && ReadDecimal(width) in [8, 16, 32, 64]
  {
    hide ReadDecimal;
    unsigned := s[0] == 'u';
    var r := if unsigned then s[1..] else s;
    width := r[3..|r| - 2];
    assert r == r[..3] + width + r[|r| - 2..];
    assert s == (if unsigned then "u" else "") + r;
  }

  lemma WidthTexts(width: string)
    requires ReadDecimal(width) in [8, 16, 32, 64]
    ensures width == "8" || width == "16" || width == "32" || width == "64"
  {
  }

  /** The texts of the fixed widths, and that names cannot be taken for them. */
  lemma FixedWidths()
    ensures IntegerText(false, "8") == "int8_t" && IntegerText(true, "8") == "uint8_t"
    ensures IntegerText(false, "16") == "int16_t" && IntegerText(true, "16") == "uint16_t"
    ensures IntegerText(false, "32") == "int32_t" && IntegerText(true, "32") == "uint32_t"
    ensures IntegerText(false, "64") == "int64_t" && IntegerText(true, "64") == "uint64_t"
  {
  }

  lemma FixedWidthsAreReserved()
    ensures Reserved("int8_t") && Reserved("uint8_t") && Reserved("int16_t") && Reserved("uint16_t")
    ensures Reserved("int32_t") && Reserved("uint32_t") && Reserved("int64_t") && Reserved("uint64_t")
  {
  }

  lemma IntegerTextsAreReserved(s: string)
    requires ReadInteger(s).Just?
    ensures Reserved(s)
  {
    hide Reserved, ReadInteger, ReadDecimal, IntegerText;
    var u, d := IntegerShape(s);
    WidthTexts(d);
    FixedWidths();
    FixedWidthsAreReserved();
  }

  lemma DecimalWidths()
    ensures ReadDecimal("8") == 8 && ReadDecimal("16") == 16 && ReadDecimal("32") == 32 && ReadDecimal("64") == 64
  {
  }

  /** The widths and signs of the integer kinds, as their names say. */
  lemma IntegerKinds(k: Kind)
    requires Integral(k)
    ensures NumberType(k)
         == IntegerText(!Signed(k), match Bits(k) case 8 => "8" case 16 => "16" case 32 => "32" case _ => "64")
  {
    hide IntegerText;
    FixedWidths();
  }

  lemma NotOtherElements(unsigned: bool, width: string)
    ensures ReadElement(IntegerText(unsigned, width)) == ReadInteger(IntegerText(unsigned, width))
  {
    hide ReadInteger;
    var s := IntegerText(unsigned, width);
    assert s[0] == if unsigned then 'u' else 'i';
  }

  lemma IntegersRead(k: Kind)
    requires Integral(k)
    ensures ReadElement(NumberType(k)) == Just(ElementOf(k))
  {
    hide ReadInteger, ReadDecimal, IntegerText, ReadElement, NumberType;
    IntegerKinds(k);
    DecimalWidths();
    var d := match Bits(k) case 8 => "8" case 16 => "16" case 32 => "32" case _ => "64";
    IntegerRead(!Signed(k), d);
    NotOtherElements(!Signed(k), d);
  }

  lemma OthersRead(k: Kind)
    requires !Integral(k)
    ensures ReadElement(NumberType(k)) == Just(ElementOf(k))
  {
  }

  // ----- whole types

  lemma TrimsNothing(s: string)
    requires s != "" && !IsBlank(s[|s| - 1])
    ensures TrimRight(s) == s
    ensures TrimRight(s + " ") == s
  {
    assert (s + " ")[..|s|] == s;
  }

  lemma {:induction false} TrimsTail(a: string, b: string)
    requires TrimRight(b) != ""
    ensures TrimRight(a + b) == a + TrimRight(b)
  {
    var n := |b| - 1;
    if IsBlank(b[n]) {
      TrimsTail(a, b[..n]);
      assert (a + b)[..|a + b| - 1] == a + b[..n];
    }
  }

  lemma NameEnds(s: string)
    requires NameChars(s)
    ensures s != "" && '<' !in s && !IsBlank(s[|s| - 1])
  {
    assert s[|s| - 1] in s;
  }

  lemma AngleReads(head: string, x: string)
    requires forall c | c in head :: c != '<'
    ensures var s := Angle(head, x);
            '<' in s && s != "" && !IsBlank(s[|s| - 1]) && Head(s) == head && Body(s) == Just(TrimRight(x))
  {
    var s := Angle(head, x);
    assert s[|head|] == '<';
    assert forall j | 0 <= j < |head| :: s[j] == head[j] && head[j] in head;
    FirstIs(s, '<', |head|);
    assert s[..|head|] == head && s[|head| + 1..|s| - 1] == x;
  }

  lemma IntegerChars(k: Kind)
    requires Integral(k)
    ensures NameChars(NumberType(k))
  {
  }

  lemma OtherChars(k: Kind)
    requires !Integral(k)
    ensures NameChars(NumberType(k))
  {
  }

  lemma NumberChars(k: Kind)
    ensures NameChars(NumberType(k))
  {
    hide NameChars, NumberType;
    if Integral(k) {
      IntegerChars(k);
    } else {
      OtherChars(k);
    }
  }

  lemma CharIsNoNumber()
    ensures ReadElement("char").Nothing?
  {
  }

  lemma ReadPointeeOpens(holder: string, x: string)
    requires forall c | c in holder :: c != '<'
    ensures var s, body := Angle("RobotRaconteur::RR" + holder, x), TrimRight(x);
            && s != "" && !IsBlank(s[|s| - 1])
            && (holder == "List" ==> ReadPointee(s) == Contained(ListOf, ReadPointee(body)))
            && (holder == "Map" ==> ReadPointee(s) == ReadMap(body))
            && (holder != "List" && holder != "Map" ==> ReadPointee(s) == ReadArray(holder, body))
  {
    hide TrimRight, Head, Body, ReadArray, ReadMap;
    var head := "RobotRaconteur::RR" + holder;
    assert head[..18] == "RobotRaconteur::RR" && head[18..] == holder;
    AngleReads(head, x);
  }

  function ArrayHolder(multi: bool): string {
    if multi then "MultiDimArray" else "Array"
  }

  lemma ArrayReads(multi: bool, n: string, x: string, e: Element)
    requires NameChars(n) && ReadElement(n) == Just(e) && (x == n || x == n + " ")
    ensures var s := Angle("RobotRaconteur::RR" + ArrayHolder(multi), x);
            s != "" && !IsBlank(s[|s| - 1]) && ReadPointee(s) == Just(ArrayOf(multi, e))
  {
    hide ReadElement, TrimRight, NameChars, ReadPointee;
    NameEnds(n);
    TrimsNothing(n);
    CharIsNoNumber();
    ReadPointeeOpens(ArrayHolder(multi), x);
  }

  lemma CharsRead()
    ensures var s := Angle("RobotRaconteur::RR" + "Array", "char");
            s != "" && !IsBlank(s[|s| - 1]) && ReadPointee(s) == Just(ArrayOf(false, Character))
  {
    hide ReadElement, TrimRight, ReadPointee;
    TrimsNothing("char");
    ReadPointeeOpens("Array", "char");
  }

  lemma Int32ArrayReads()
    ensures var s := Angle("RobotRaconteur::RR" + "Array", "int32_t");
            s != "" && !IsBlank(s[|s| - 1]) && ReadPointee(s) == Just(ArrayOf(false, Integer(true, 32)))
  {
    hide ReadElement, ReadPointee, NameChars;
    IntegersRead(Int32);
    NumberChars(Int32);
    ArrayReads(false, "int32_t", "int32_t", Integer(true, 32));
  }

  lemma RecordsRead(pod: bool, multi: bool, q: string)
    requires PartsOk(Parts(q))
    ensures var holder := (if pod then "Pod" else "Named") + ArrayHolder(multi);
            var s := Angle("RobotRaconteur::RR" + holder, FixQualifiedName(q));
            s != "" && !IsBlank(s[|s| - 1]) && ReadPointee(s) == Just(RecordsOf(pod, multi, Parts(q)))
  {
    hide ReadName, TrimRight, NameChars, FixQualifiedName, Parts, PartsOk, FirstOf, ReadPointee, ReadArray;
    NameText(q);
    NameEnds(FixQualifiedName(q));
    TrimsNothing(FixQualifiedName(q));
    ReadsName(q);
    ReadPointeeOpens((if pod then "Pod" else "Named") + ArrayHolder(multi), FixQualifiedName(q));
    RecordHolder(pod, multi, FixQualifiedName(q));
  }

  lemma RecordHolder(pod: bool, multi: bool, body: string)
    ensures var holder := (if pod then "Pod" else "Named") + ArrayHolder(multi);
            holder != "List" && holder != "Map" && ReadArray(holder, body) == Records(pod, multi, ReadName(body))
  {
    hide ReadName, ReadElement;
    var a, b := if pod then "Pod" else "Named", ArrayHolder(multi);
    var holder := a + b;
    assert holder[..|a|] == a && holder[|a|..] == b && holder[0] == a[0];
    assert StartsWith(holder, "Pod") <==> pod;
    assert |holder| != |"Array"| && |holder| != |"MultiDimArray"|;
  }

  lemma FirstPartsDiffer(q: string, head: string, tail: string)
    requires NameOk(q) && (head == "RobotRaconteur" || head == "std")
    ensures FixQualifiedName(q) != head + "::" + tail
  {
    hide FixQualifiedName, Parts, FirstOf, PartsOk, FixName;
    NameText(q);
    SplitsAtColons(head, tail);
    FixedFirst(Parts(q)[0], head) by { FirstPartOk(q); }
  }

  lemma FirstPartOk(q: string)
    requires PartsOk(Parts(q))
    ensures PartOk(Parts(q)[0])
  {
  }

  lemma FixedFirst(p: string, head: string)
    requires PartOk(p) && p != head && head != "" && head[|head| - 1] != '_'
    ensures FixName(p) != head
  {
    hide Reserved;
  }

  lemma StructuresRead(q: string)
    requires NameOk(q)
    ensures var s := FixQualifiedName(q);
            s != "" && !IsBlank(s[|s| - 1]) && ReadPointee(s) == Just(StructureOf(Parts(q)))
  {
    hide ReadName, NameChars, FixQualifiedName, Parts, PartsOk, FirstOf, Head, Body;
    NameText(q);
    NameEnds(FixQualifiedName(q));
    ReadsName(q);
    assert "RobotRaconteur::RRValue" == "RobotRaconteur" + "::" + "RRValue";
    FirstPartsDiffer(q, "RobotRaconteur", "RRValue");
  }

  lemma ValueReads()
    ensures ReadPointee("RobotRaconteur::RRValue") == Just(AnyValue)
  {
    ArrayHeadsAreWords();
    hide ReadName, Head, Body;
  }

  lemma ListReads(x: string)
    ensures var s := Angle("RobotRaconteur::RR" + "List", x + " ");
            s != "" && !IsBlank(s[|s| - 1]) && ReadPointee(s) == Contained(ListOf, ReadPointee(TrimRight(x)))
  {
    hide ReadPointee, TrimRight;
    ReadPointeeOpens("List", x + " ");
    TrimsBlank(x);
  }

  lemma TrimsBlank(x: string)
    ensures TrimRight(x + " ") == TrimRight(x)
  {
    assert (x + " ")[..|x|] == x;
  }

  lemma MapReads(int32: bool, x: string)
    requires TrimRight(x) != ""
    ensures var key := if int32 then "int32_t," else "std::string,";
            var s := Angle("RobotRaconteur::RR" + "Map", key + (x + " "));
            && s != "" && !IsBlank(s[|s| - 1])
            && ReadPointee(s) == Contained(if int32 then MapInt32 else MapString, ReadPointee(TrimRight(x)))
  {
    var key := if int32 then "int32_t," else "std::string,";
    MapBodyReads(int32, TrimRight(x));
    hide TrimRight, ReadPointee, ReadMap;
    TrimsBlank(x);
    TrimsTail(key, x + " ");
    ReadPointeeOpens("Map", key + (x + " "));
  }

  lemma MapBodyReads(int32: bool, rest: string)
    ensures ReadMap((if int32 then "int32_t," else "std::string,") + rest)
         == Contained(if int32 then MapInt32 else MapString, ReadPointee(rest))
  {
    hide FirstOf, ReadPointee;
    KeyIsFirst(int32, rest);
  }

  lemma KeyIsFirst(int32: bool, rest: string)
    ensures var key := if int32 then "int32_t," else "std::string,";
            var s, j := key + rest, |key| - 1;
            FirstOf(s, ',') == j < |s| && s[j + 1..] == rest && s[..j] == if int32 then "int32_t" else "std::string"
  {
    var key := if int32 then "int32_t," else "std::string,";
    var s, j := key + rest, |key| - 1;
    assert s[..j] == key[..j] && s[j + 1..] == rest && s[j] == ',';
    assert forall i | 0 <= i < j :: s[i] == key[i] && key[i] != ',';
    FirstIs(s, ',', j);
  }

  lemma HolderTexts()
    ensures "RobotRaconteur::RRArray" == "RobotRaconteur::RR" + "Array"
    ensures "RobotRaconteur::RRMultiDimArray" == "RobotRaconteur::RR" + "MultiDimArray"
    ensures "RobotRaconteur::RRList" == "RobotRaconteur::RR" + "List"
    ensures "RobotRaconteur::RRMap" == "RobotRaconteur::RR" + "Map"
  {
  }

  /** Names that can be told from their printed form; a type of another kind has none. */
  predicate TypeNameOk(t: TypeDef) {
    t.base.Named? ==> NameOk(t.base.def.qname)
  }

  /** What a pointer of a type without containers points to. */
  function Pointee(t: TypeDef): string
    requires t.container.NoContainer? && !t.base.Void?
  {
    match t.base
    case Numeric(k) => Angle("RobotRaconteur::RR" + ArrayHolder(t.arr.MultiDim?), NumberType(k) + " ") + " "
    case Text => Angle("RobotRaconteur::RR" + "Array", "char") + " "
    case VarValue => "RobotRaconteur::RRValue"
    case Named(Structure(q)) => FixQualifiedName(q) + " "
    case Named(Enum(_)) => Angle("RobotRaconteur::RR" + "Array", "int32_t") + " "
    case Named(def) =>
      var holder := (if def.Pod? then "Pod" else "Named") + ArrayHolder(t.arr.MultiDim?);
      Angle("RobotRaconteur::RR" + holder, FixQualifiedName(def.qname)) + " "
    case Void => ""
  }

  lemma PointerTexts(t: TypeDef)
    requires t.container.NoContainer? && !t.base.Void?
    ensures VariableType(t, false) == Pointer(Pointee(t))
    ensures !t.base.Named? && !t.base.Text? && !t.arr.NotArray? ==> VariableType(t, true) == VariableType(t, false)
  {
    hide FixQualifiedName, NumberType, Angle, FixName, LastPart;
    HolderTexts();
    assert "char" + "" == "char" && "int32_t" + "" == "int32_t";
    if t.base.Named? && (t.base.def.Pod? || t.base.def.NamedArray?) {
      var a := if t.base.def.Pod? then "Pod" else "Named";
      assert "RobotRaconteur::RR" + a + "Array" == "RobotRaconteur::RR" + (a + "Array");
      assert "RobotRaconteur::RR" + a + "MultiDimArray" == "RobotRaconteur::RR" + (a + "MultiDimArray");
    }
  }

  lemma PointeeReads(t: TypeDef)
    requires t.container.NoContainer? && !t.base.Void? && TypeNameOk(t)
    ensures TrimRight(Pointee(t)) != "" && ReadPointee(TrimRight(Pointee(t))) == Just(MeaningOf(t, false))
  {
    hide FixQualifiedName, NumberType, Angle, ReadPointee, ReadElement, NameChars, Parts, PartsOk, TrimRight;
    match t.base
    case Numeric(k) =>
      NumberReads(k);
      ArrayReads(t.arr.MultiDim?, NumberType(k), NumberType(k) + " ", ElementOf(k));
      TrimsNothing(Angle("RobotRaconteur::RR" + ArrayHolder(t.arr.MultiDim?), NumberType(k) + " "));
    case Text =>
      CharsRead();
      TrimsNothing(Angle("RobotRaconteur::RR" + "Array", "char"));
    case VarValue =>
      ValueReads();
      TrimsNothing("RobotRaconteur::RRValue");
    case Named(Structure(q)) =>
      StructuresRead(q);
      TrimsNothing(FixQualifiedName(q));
    case Named(Enum(_)) =>
      Int32ArrayReads();
      TrimsNothing(Angle("RobotRaconteur::RR" + "Array", "int32_t"));
    case Named(def) =>
      RecordsRead(def.Pod?, t.arr.MultiDim?, def.qname);
      var holder := (if def.Pod? then "Pod" else "Named") + ArrayHolder(t.arr.MultiDim?);
      TrimsNothing(Angle("RobotRaconteur::RR" + holder, FixQualifiedName(def.qname)));
  }

  lemma NumberReads(k: Kind)
    ensures ReadElement(NumberType(k)) == Just(ElementOf(k)) && NameChars(NumberType(k))
  {
    hide ReadElement, NumberType, NameChars;
    NumberChars(k);
    if Integral(k) {
      IntegersRead(k);
    } else {
      OthersRead(k);
    }
  }

  lemma PointerReads(x: string)
    ensures ReadType(Pointer(x)) == ReadPointee(TrimRight(x))
  {
    hide ReadPointee, TrimRight, Head, Body;
    HeadsAreWords();
    AngleReads("RR_INTRUSIVE_PTR", x);
  }

  /** Containers are pointers too. */
  lemma ContainersRead(t: TypeDef)
    requires !t.container.NoContainer? && !t.base.Void? && TypeNameOk(t)
    ensures ReadType(VariableType(t, false)) == Just(MeaningOf(t, false))
    ensures VariableType(t, true) == VariableType(t, false) && MeaningOf(t, true) == MeaningOf(t, false)
  {
    var e := RemoveContainers(t);
    var x := Pointee(e);
    PointerTexts(e);
    PointeeReads(e);
    hide TrimRight, Pointee, ReadPointee, ReadType, MeaningOf, VariableType, RemovePointer, Pointer, ContainerType;
    ContainerTexts(t);
    RemovePointerOfPointer(x);
    ContainerReads(t.container, x);
  }

  lemma ContainerReads(c: Container, x: string)
    requires !c.NoContainer? && TrimRight(x) != ""
    ensures ReadType(ContainerType(c, x)) == Contained(c, ReadPointee(TrimRight(x)))
  {
    hide TrimRight, ReadPointee, ReadType, Angle;
    HolderTexts();
    if c.ListOf? {
      var s := Angle("RobotRaconteur::RR" + "List", x + " ");
      ListReads(x);
      TrimsNothing(s);
      PointerReads(s + " ");
    } else {
      var key := if c.MapInt32? then "int32_t," else "std::string,";
      var s := Angle("RobotRaconteur::RR" + "Map", key + (x + " "));
      MapReads(c.MapInt32?, x);
      TrimsNothing(s);
      PointerReads(s + " ");
    }
  }

  lemma ContainerTexts(t: TypeDef)
    requires !t.container.NoContainer? && !t.base.Void?
    ensures VariableType(t, true) == VariableType(t, false)
    ensures VariableType(t, false)
         == ContainerType(t.container, RemovePointer(VariableType(RemoveContainers(t), false)))
    ensures MeaningOf(t, true) == MeaningOf(t, false) == ContainerOf(t.container, MeaningOf(RemoveContainers(t), false))
  {
    hide ContainerType, RemovePointer;
  }

  // ----- types by value

  lemma WordsThatAreNoNumbers()
    ensures ReadElement("void").Nothing? && ReadElement("std::string").Nothing?
  {
  }

  lemma ShortTexts()
    ensures forall s | s in ["void", "double", "float"] :: Reserved(s) && forall c | c in s :: c != ':'
  {
  }

  lemma IntegersHaveNoColons(s: string)
    requires ReadInteger(s).Just?
    ensures forall c | c in s :: c != ':'
  {
    hide ReadDecimal;
    var u, d := IntegerShape(s);
    WidthTexts(d);
  }

  /** A name is none of the texts without colons that mean something else. */
  lemma NameIsNoWord(q: string, w: string)
    requires NameOk(q) && Reserved(w) && forall c | c in w :: c != ':'
    ensures FixQualifiedName(q) != w
  {
    hide FixQualifiedName, Parts, FirstOf, PartsOk, FixName, Reserved;
    NameText(q);
    FirstPartOk(q);
    ReadsPart(Parts(q)[0]);
    SplitsAtColons(w, "");
  }

  lemma NameIsNoElement(q: string)
    requires NameOk(q)
    ensures var s := FixQualifiedName(q);
            s != "void" && s != "std::string" && ReadElement(s).Nothing?
  {
    hide FixQualifiedName, NameOk, Reserved, ReadInteger;
    var s := FixQualifiedName(q);
    ShortTexts();
    NameIsNoWord(q, "void");
    NameIsNoWord(q, "double");
    NameIsNoWord(q, "float");
    if ReadInteger(s).Just? {
      IntegerTextsAreReserved(s);
      IntegersHaveNoColons(s);
      NameIsNoWord(q, s);
    }
    LibraryTexts();
    FirstPartsDiffer(q, "std", "string");
    FirstPartsDiffer(q, "RobotRaconteur", "cdouble");
    FirstPartsDiffer(q, "RobotRaconteur", "cfloat");
    FirstPartsDiffer(q, "RobotRaconteur", "rr_bool");
  }

  lemma LibraryTexts()
    ensures "std::string" == "std" + "::" + "string"
    ensures "RobotRaconteur::cdouble" == "RobotRaconteur" + "::" + "cdouble"
    ensures "RobotRaconteur::cfloat" == "RobotRaconteur" + "::" + "cfloat"
    ensures "RobotRaconteur::rr_bool" == "RobotRaconteur" + "::" + "rr_bool"
  {
  }

  lemma NamesRead(q: string)
    requires NameOk(q)
    ensures ReadType(FixQualifiedName(q)) == Just(NamedByValue(Parts(q)))
  {
    hide FixQualifiedName, ReadElement, ReadName, Parts, PartsOk, FirstOf, Head, Body, FixName;
    NameText(q);
    NameEnds(FixQualifiedName(q));
    ReadsName(q);
    NameIsNoElement(q);
  }

  lemma NumbersRead(k: Kind)
    ensures ReadType(NumberType(k)) == Just(ByValue(ElementOf(k)))
  {
    hide NumberType, ReadElement, ReadName, Head, Body, NameChars;
    NumberReads(k);
    NameEnds(NumberType(k));
    WordsThatAreNoNumbers();
  }

  lemma {:induction false} PartAppended(q: string, p: string)
    requires '.' !in p
    ensures Parts(q + "." + p) == Parts(q) + [p]
    ensures FixQualifiedName(q + "." + p) == FixQualifiedName(q) + "::" + FixName(p)
    decreases |q|
  {
    hide FixName, Parts, FixQualifiedName, FirstDot;
    var i, all := FirstDot(q), q + "." + p;
    PartsUnfold(q);
    FixedUnfold(q);
    PartsUnfold(all);
    FixedUnfold(all);
    FirstDotOfAppended(q, p);
    if i == |q| {
      assert all[..i] == q && all[i + 1..] == p;
      LastPartAlone(p);
      assert [q] + [p] == [q] + Parts(p);
    } else {
      var rest := q[i + 1..];
      assert all[..i] == q[..i] && all[i + 1..] == rest + "." + p;
      PartAppended(rest, p);
      assert [q[..i]] + (Parts(rest) + [p]) == [q[..i]] + Parts(rest) + [p];
    }
  }

  lemma {:induction false} FirstDotOfAppended(q: string, p: string)
    ensures FirstDot(q + "." + p) == FirstDot(q)
  {
    if q != "" && q[0] != '.' {
      FirstDotOfAppended(q[1..], p);
      assert (q + "." + p)[1..] == q[1..] + "." + p;
    }
  }

  lemma LastPartAlone(p: string)
    requires '.' !in p
    ensures Parts(p) == [p] && FixQualifiedName(p) == FixName(p)
  {
    hide FixName;
  }

  lemma {:induction false} LastPartIs(q: string)
    ensures LastPart(q) == Parts(q)[|Parts(q)| - 1]
    decreases |q|
  {
    hide FirstDot;
    var i := FirstDot(q);
    if i < |q| {
      LastPartIs(q[i + 1..]);
    }
  }

  /** The name of an enum in the namespace of its own name. */
  lemma EnumsRead(q: string)
    requires NameOk(q)
    ensures ReadType(FixQualifiedName(q) + "::" + FixName(LastPart(q)))
         == Just(NamedByValue(Parts(q) + [Parts(q)[|Parts(q)| - 1]]))
  {
    hide FixQualifiedName, Parts, ReadType, FixName, PartOk, LastPart;
    var p := Parts(q)[|Parts(q)| - 1];
    LastPartIs(q);
    assert PartOk(p);
    NoDot(p);
    PartAppended(q, p);
    NamesRead(q + "." + p);
  }

  lemma NoDot(p: string)
    requires PartOk(p)
    ensures '.' !in p
  {
  }

  lemma EnumText(q: string)
    ensures var s := FixQualifiedName(q) + "::" + FixName(LastPart(q));
            s == if '.' !in q then FixName(q) + "::" + FixName(q) else s
  {
    hide FixName;
    if '.' !in q {
      LastPartAlone(q);
    }
  }

  /** Reading the printed form of a type gives back the type: its container, its kind of array, the width and
      sign of its numbers, and the qualified names it is made of. */
  lemma TypesRead(t: TypeDef, scalar: bool)
    requires TypeNameOk(t)
    ensures ReadType(VariableType(t, scalar)) == Just(MeaningOf(t, scalar))
  {
    if t.base.Void? {
      VoidReads();
    } else if !t.container.NoContainer? {
      ContainersRead(t);
    } else if scalar && (t.base.Text? || t.base.Named? || t.arr.NotArray?) && !t.base.VarValue? {
      ByValueReads(t);
    } else {
      hide Pointee, ReadPointee, ReadType, TrimRight, Angle, FixQualifiedName, Parts;
      PointerTexts(t);
      PointeeReads(t);
      PointerReads(Pointee(t));
    }
  }

  lemma VoidReads()
    ensures ReadType("void") == Just(Nothing_)
  {
    hide ReadElement, ReadName;
  }

  lemma StringReads()
    ensures ReadType("std::string") == Just(StdString)
  {
    hide ReadElement, ReadName;
  }

  lemma ByValueReads(t: TypeDef)
    requires t.container.NoContainer? && TypeNameOk(t) && !t.base.Void? && !t.base.VarValue?
    requires t.base.Text? || t.base.Named? || t.arr.NotArray?
    ensures ReadType(VariableType(t, true)) == Just(MeaningOf(t, true))
  {
    hide ReadType, Parts, FixQualifiedName, FixName, NumberType, Angle, NameOk, ReadPointee, TrimRight, Pointee,
         LastPart;
    match t.base
    case Numeric(k) => NumbersRead(k);
    case Text => StringReads();
    case Named(Enum(q)) =>
      EnumsRead(q);
      EnumText(q);
    case Named(Structure(q)) =>
      PointerTexts(t);
      PointeeReads(t);
      PointerReads(Pointee(t));
    case Named(def) =>
      NamesRead(def.qname);
      PointerTexts(t);
      PointeeReads(t);
      PointerReads(Pointee(t));
  }
}
