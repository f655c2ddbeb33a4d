/** `dforc`: turning the in-class declaration of a member into the head of its definition. */
module CppDeclarations {
  import opened Types
  import opened CppTypes

  // ----- searching

  predicate At(s: string, i: nat, pat: string) {
    i + |pat| <= |s| && s[i..i + |pat|] == pat
  }

  lemma Slices(s: string, a: nat, b: nat, c: nat, d: nat)
    requires a <= b <= |s| && c <= d <= b - a
    ensures s[a..b][c..d] == s[a + c..a + d]
  {
    var x, y := s[a..b][c..d], s[a + c..a + d];
    assert forall k | 0 <= k < d - c :: x[k] == s[a + c + k] && y[k] == s[a + c + k];
  }

  function FindFirst(s: string, pat: string): (i: Option<nat>)
    ensures i.Just? ==> At(s, i.value, pat) && forall j | 0 <= j < i.value :: !At(s, j, pat)
    ensures i.Nothing? ==> forall j | 0 <= j <= |s| :: !At(s, j, pat)
  {
    if At(s, 0, pat) then Just(0)
    else if s == "" then Nothing
    else
      var i := FindFirst(s[1..], pat);
      assert forall j | 1 <= j <= |s| :: At(s, j, pat) <==> At(s[1..], j - 1, pat) by { AtTail(s, pat); }
      if i.Nothing? then Nothing else Just(i.value + 1)
  }

  lemma AtTail(s: string, pat: string)
    requires s != ""
    ensures forall j | 1 <= j <= |s| :: At(s, j, pat) <==> At(s[1..], j - 1, pat)
  {
    forall j | 1 <= j <= |s| ensures At(s, j, pat) <==> At(s[1..], j - 1, pat) {
      if j + |pat| <= |s| {
        Slices(s, 1, |s|, j - 1, j - 1 + |pat|);
        assert s[1..|s|] == s[1..];
      }
    }
  }

  function FindLast(s: string, pat: string): (i: Option<nat>)
    ensures i.Just? ==> At(s, i.value, pat)
  {
    if |s| < |pat| then Nothing
    else if s[|s| - |pat|..] == pat then Just(|s| - |pat|)
    else if s == "" then Nothing
    else
      var i := FindLast(s[..|s| - 1], pat);
      if i.Just? then
        AtInit(s, i.value, pat);
        i
      else i
  }

  lemma AtInit(s: string, i: nat, pat: string)
    requires s != "" && At(s[..|s| - 1], i, pat)
    ensures At(s, i, pat)
  {
    Slices(s, 0, |s| - 1, i, i + |pat|);
    assert s[0..|s| - 1] == s[..|s| - 1];
  }

  /** `s` without `n` characters from `i` on. */
  function Cut(s: string, i: nat, n: nat): string
    requires i + n <= |s|
  {
    s[..i] + s[i + n..]
  }

  /** `replace_first_copy(s, pat, "")`. */
  function RemoveFirst(s: string, pat: string): string {
    match FindFirst(s, pat)
    case Just(i) => Cut(s, i, |pat|)
    case Nothing => s
  }

  /** `replace_last_copy(s, pat, "")`. */
  function RemoveLast(s: string, pat: string): string {
    match FindLast(s, pat)
    case Just(i) => Cut(s, i, |pat|)
    case Nothing => s
  }

  // ----- dforc

  /** Where the scan stops: the first blank at bracket depth zero, counted from depth `d`. */
  function OuterBlank(s: string, d: int): (pos: nat)
    ensures pos <= |s|
  {
    if s == "" then 0
    else if d + Delta(s[0]) == 0 && (s[0] == ' ' || s[0] == '\t') then 0
    else 1 + OuterBlank(s[1..], d + Delta(s[0]))
  }

  /** The part before the outer blank, the class, and the part after it; no part after it is an internal
      error. */
  function Split(res: string, cls: string): Option<string> {
    var pos := OuterBlank(res, 0);
    var returnType, function_ := Trim(res[..pos]), Trim(res[pos..]);
    if |function_| == 0 then Nothing else Just(Trim(returnType) + " " + cls + "::" + Trim(function_))
  }

  function Stripped(definition: string): string {
    Trim(RemoveFirst(RemoveLast(RemoveFirst(definition, "virtual"), "RR_OVERRIDE"), "RR_OVIRTUAL"))
  }

  method Dforc(definition: string, cls: string) returns (r: Option<string>)
    ensures r == Split(Stripped(definition), cls)
  {
    hide RemoveFirst, RemoveLast, Trim;
    var res11 := RemoveFirst(definition, "virtual");
    var res12 := RemoveLast(res11, "RR_OVERRIDE");
    var res1 := Trim(RemoveFirst(res12, "RR_OVIRTUAL"));
    var ccount := 0;
    var pos := 0;
    while pos < |res1|
      invariant 0 <= pos <= |res1|
      invariant OuterBlank(res1, 0) == pos + OuterBlank(res1[pos..], ccount)
    {
      ghost var rest := res1[pos..];
      assert rest[0] == res1[pos] && rest[1..] == res1[pos + 1..];
      if res1[pos] == '<' {
        ccount := ccount + 1;
      }
      if res1[pos] == '>' {
        ccount := ccount - 1;
      }
      if ccount == 0 && (res1[pos] == ' ' || res1[pos] == '\t') {
        break;
      }
      pos := pos + 1;
    }
    var returnType, function_ := Trim(res1[..pos]), Trim(res1[pos..]);
    if |function_| == 0 {
      return Nothing;
    }
    return Just(Trim(returnType) + " " + cls + "::" + Trim(function_));
  }

  // ----- what it makes of a declaration

  /** The declaration of a member: return type, name and parameters. */
  function Declaration(returnType: string, name: string, params: string): string {
    "RR_OVIRTUAL " + Middle(returnType, name, params) + " RR_OVERRIDE"
  }

  function Middle(returnType: string, name: string, params: string): string {
    returnType + " " + (name + "(" + params + ")")
  }

  function Definition(returnType: string, cls: string, name: string, params: string): string {
    returnType + " " + cls + "::" + (name + "(" + params + ")")
  }

  lemma AtSuffix(s: string, i: nat, pat: string, mid: string, j: nat)
    requires i + |mid| <= |s| && s[i..i + |mid|] == mid && j + |pat| <= |mid|
    ensures At(s, i + j, pat) <==> At(mid, j, pat)
  {
    Slices(s, i, i + |mid|, j, j + |pat|);
  }

  lemma OnlyInMiddle(a: string, mid: string, b: string, pat: string, i: nat)
    requires pat != "" && pat[0] !in a && pat[|pat| - 1] !in b && At(a + mid + b, i, pat)
    ensures i >= |a| && i + |pat| <= |a| + |mid| && At(mid, i - |a|, pat)
  {
    var s := a + mid + b;
    assert s[i] == s[i..i + |pat|][0] && s[i + |pat| - 1] == s[i..i + |pat|][|pat| - 1];
    assert s[|a|..|a| + |mid|] == mid;
    AtSuffix(s, |a|, pat, mid, i - |a|);
  }

  /** A pattern whose ends do not occur in `a` and `b` is found in `a + mid + b` where it is in `mid`. */
  lemma FoundInMiddle(a: string, mid: string, b: string, pat: string)
    requires pat != "" && pat[0] !in a && pat[|pat| - 1] !in b
    ensures RemoveFirst(a + mid + b, pat) == a + RemoveFirst(mid, pat) + b
    ensures FindFirst(a + mid + b, pat).Just? <==> FindFirst(mid, pat).Just?
  {
    hide At, FindFirst, Cut;
    FirstInMiddle(a, mid, b, pat);
    var inner := FindFirst(mid, pat);
    if inner.Just? {
      InMiddle(a, mid, b, pat, inner.value);
      CutMiddle(a, mid, b, inner.value, |pat|);
    }
  }

  lemma FirstInMiddle(a: string, mid: string, b: string, pat: string)
    requires pat != "" && pat[0] !in a && pat[|pat| - 1] !in b
    ensures var inner := FindFirst(mid, pat);
            FindFirst(a + mid + b, pat) == if inner.Just? then Just(|a| + inner.value) else Nothing
  {
    var s := a + mid + b;
    var found, inner := FindFirst(s, pat), FindFirst(mid, pat);
    hide At, FindFirst;
    if inner.Just? {
      InMiddle(a, mid, b, pat, inner.value);
      OnlyInMiddle(a, mid, b, pat, found.value);
    } else if found.Just? {
      OnlyInMiddle(a, mid, b, pat, found.value);
    }
  }

  lemma InMiddle(a: string, mid: string, b: string, pat: string, j: nat)
    requires At(mid, j, pat)
    ensures At(a + mid + b, |a| + j, pat) && j + |pat| <= |mid|
  {
    var s := a + mid + b;
    assert s[|a|..|a| + |mid|] == mid;
    AtSuffix(s, |a|, pat, mid, j);
  }

  lemma CutMiddle(a: string, mid: string, b: string, j: nat, n: nat)
    requires j + n <= |mid|
    ensures Cut(a + mid + b, |a| + j, n) == a + Cut(mid, j, n) + b
  {
    var s := a + mid + b;
    assert s[..|a| + j] == a + mid[..j] && s[|a| + j + n..] == mid[j + n..] + b;
  }

  lemma RemovedPrefix(pat: string, rest: string)
    ensures RemoveFirst(pat + rest, pat) == rest
  {
    var s := pat + rest;
    assert s[0..|pat|] == pat && At(s, 0, pat);
    assert s[..0] + s[|pat|..] == rest;
  }

  lemma RemovedSuffix(rest: string, pat: string)
    ensures RemoveLast(rest + pat, pat) == rest
  {
    var s := rest + pat;
    assert s[|s| - |pat|..] == pat;
    assert s[..|rest|] + s[|s|..] == rest;
  }

  lemma TrimBlanks(x: string)
    ensures Trim(" " + x + " ") == Trim(x)
  {
    assert (" " + x + " ")[1..] == x + " ";
    assert TrimLeft(" " + x + " ") == TrimLeft(x + " ");
    TrimBlankAfter(x);
  }

  lemma {:induction false} TrimBlankAfter(x: string)
    ensures Trim(x + " ") == Trim(x)
  {
    if x == "" {
      assert "" + " " == " " && " "[1..] == "";
    } else if IsBlank(x[0]) {
      assert (x + " ")[1..] == x[1..] + " ";
      TrimBlankAfter(x[1..]);
    } else {
      assert TrimLeft(x + " ") == x + " ";
      assert (x + " ")[..|x|] == x;
    }
  }

  lemma StrippedMiddle(mid: string)
    ensures Stripped("RR_OVIRTUAL " + mid + " RR_OVERRIDE") == Trim(RemoveFirst(mid, "virtual"))
    ensures FindFirst("RR_OVIRTUAL " + mid + " RR_OVERRIDE", "virtual").Just? <==> FindFirst(mid, "virtual").Just?
  {
    hide RemoveFirst, RemoveLast, Trim;
    var a, b := "RR_OVIRTUAL ", " RR_OVERRIDE";
    NoSmallLetters();
    FoundInMiddle(a, mid, b, "virtual");
    var x := RemoveFirst(mid, "virtual");
    assert a + x + b == (a + x + " ") + "RR_OVERRIDE";
    RemovedSuffix(a + x + " ", "RR_OVERRIDE");
    assert a + x + " " == "RR_OVIRTUAL" + (" " + x + " ");
    RemovedPrefix("RR_OVIRTUAL", " " + x + " ");
    TrimBlanks(x);
  }

  lemma NoSmallLetters()
    ensures 'v' !in "RR_OVIRTUAL " && 'v' !in " RR_OVERRIDE" && 'l' !in " RR_OVERRIDE"
  {
  }

  lemma {:induction false} BlankFound(r: string, rest: string, d: int)
    requires Fits(r, d) && d + Depth(r) == 0 && rest != "" && rest[0] == ' '
    ensures OuterBlank(r + rest, d) == |r|
  {
    if r == "" {
      assert r + rest == rest;
    } else {
      assert (r + rest)[1..] == r[1..] + rest;
      BlankFound(r[1..], rest, d + Delta(r[0]));
    }
  }

  lemma TrimNothing(x: string)
    requires x != "" && !IsBlank(x[0]) && !IsBlank(x[|x| - 1])
    ensures Trim(x) == x
  {
  }

  lemma FirstIsNoBlank(r: string)
    requires r != "" && Fits(r, 0)
    ensures !IsBlank(r[0])
  {
  }

  lemma {:induction false} LastIsNoBlank(r: string, d: int)
    requires r != "" && Fits(r, d) && d + Depth(r) == 0
    ensures !IsBlank(r[|r| - 1])
  {
    if |r| == 1 {
      assert r[1..] == "";
    } else {
      LastIsNoBlank(r[1..], d + Delta(r[0]));
    }
  }

  lemma {:induction false} TrimShortens(s: string)
    ensures |TrimLeft(s)| <= |s| && |TrimRight(s)| <= |s|
    decreases |s|
  {
    if s != "" {
      TrimShortens(s[1..]);
      TrimShortens(s[..|s| - 1]);
    }
  }

  lemma SplitShortens(s: string, cls: string)
    ensures Split(s, cls).Just? ==> |Split(s, cls).value| <= |s| + |cls| + 3
  {
    hide TrimLeft, TrimRight, OuterBlank;
    var pos := OuterBlank(s, 0);
    var a, b := s[..pos], s[pos..];
    TrimIsShorter(a);
    TrimIsShorter(b);
    TrimIsShorter(Trim(a));
    TrimIsShorter(Trim(b));
  }

  lemma TrimIsShorter(s: string)
    ensures |Trim(s)| <= |s|
  {
    TrimShortens(s);
    TrimShortens(TrimLeft(s));
  }

  lemma SplitsMiddle(returnType: string, name: string, params: string, cls: string)
    requires Closed(returnType, 0) && returnType != "" && name != "" && Word(name)
    ensures Trim(Middle(returnType, name, params)) == Middle(returnType, name, params)
    ensures Split(Middle(returnType, name, params), cls) == Just(Definition(returnType, cls, name, params))
  {
    hide OuterBlank, Fits, Depth, TrimRight;
    var m, f := Middle(returnType, name, params), name + "(" + params + ")";
    FirstIsNoBlank(returnType);
    assert !IsBlank(name[0]);
    LastIsNoBlank(returnType, 0);
    assert m[0] == returnType[0] && m[|m| - 1] == ')';
    TrimNothing(m);
    BlankFound(returnType, " " + f, 0);
    assert m == returnType + (" " + f);
    assert m[..|returnType|] == returnType && m[|returnType|..] == " " + f;
    TrimNothing(returnType);
    assert f[0] == name[0] && f[|f| - 1] == ')';
    TrimNothing(f);
    assert (" " + f)[1..] == f && TrimLeft(" " + f) == TrimLeft(f);
  }

  /** For a return type as printed, `dforc` splits a declaration exactly between return type and name when
      the word `virtual` is nowhere in it, and only then. */
  lemma {:induction false} DforcSplitsExactly(returnType: string, name: string, params: string, cls: string)
    requires Closed(returnType, 0) && returnType != "" && name != "" && Word(name)
    ensures Split(Stripped(Declaration(returnType, name, params)), cls)
            == Just(Definition(returnType, cls, name, params))
       <==> FindFirst(Declaration(returnType, name, params), "virtual").Nothing?
  {
    hide Split, Stripped, Trim;
    var mid := Middle(returnType, name, params);
    StrippedMiddle(mid);
    if FindFirst(mid, "virtual").Nothing? {
      SplitsMiddle(returnType, name, params, cls);
    } else {
      var x := RemoveFirst(mid, "virtual");
      assert |x| == |mid| - 7;
      TrimIsShorter(x);
      SplitShortens(Trim(x), cls);
      assert |Definition(returnType, cls, name, params)| == |mid| + |cls| + 2;
    }
  }

  /** A property named `virtual_tool` is one whose setter is not defined under its declared name. */
  lemma VirtualIsDropped(cls: string)
    ensures var name := "set_" + ("virtual" + "_tool");
            Split(Stripped(Declaration("void", name, "double value")), cls)
            != Just(Definition("void", cls, name, "double value"))
  {
    hide Split, Stripped, Declaration, Definition, FindFirst, Word, Closed;
    CallbackWords();
    WordCloses("void", 0);
    ToolWords();
    WordsCat("virtual", "_tool");
    WordsCat("set_", "virtual" + "_tool");
    VirtualInName("void", "set_", "_tool", "double value");
    DforcSplitsExactly("void", "set_" + ("virtual" + "_tool"), "double value", cls);
  }

  lemma VirtualInName(returnType: string, before: string, after: string, params: string)
    ensures FindFirst(Declaration(returnType, before + ("virtual" + after), params), "virtual").Just?
  {
    hide FindFirst, At;
    var a := "RR_OVIRTUAL " + (returnType + " " + before);
    var b := after + "(" + params + ")" + " RR_OVERRIDE";
    assert Declaration(returnType, before + ("virtual" + after), params) == a + "virtual" + b;
    WholePattern("virtual");
    InMiddle(a, "virtual", b, "virtual", 0);
  }

  lemma ToolWords()
    ensures Word("set_") && Word("virtual") && Word("_tool")
  {
  }

  lemma WholePattern(pat: string)
    ensures At(pat, 0, pat)
  {
    assert pat[0..|pat|] == pat;
  }

  // ----- the return types of the declared members

  datatype Member =
    | Getter(t: TypeDef)
    | Setter
    | Function(t: TypeDef)
    | Generator(returned: Option<TypeDef>, taken: Option<TypeDef>)
    | Event(params: seq<TypeDef>)
    | ObjRef(objectType: string)
    | Pipe(t: TypeDef)
    | Callback(result: TypeDef, params: seq<TypeDef>)
    | Wire(t: TypeDef)
    | Memory(kind: string, element: string)

  function TypeList(ts: seq<TypeDef>): string {
    if ts == [] then ""
    else if |ts| == 1 then VariableType(ts[0], true)
    else VariableType(ts[0], true) + (", " + TypeList(ts[1..]))
  }

  /** What the declaration functions put before the member's name. */
  function ReturnType(m: Member): string {
    match m
    case Getter(t) => VariableType(t, true)
    case Setter => "void"
    case Function(t) => VariableType(t, true)
    case Event(ts) => Angle("boost::signals2::signal", "void (" + TypeList(ts) + ")") + "&"
    case ObjRef(o) => Shared(FixQualifiedName(o) + " ")
    case Generator(r, p) =>
      Shared(Angle("RobotRaconteur::Generator", OrVoid(r) + ("," + (OrVoid(p) + " "))) + " ")
    case Pipe(t) => Shared(Angle("RobotRaconteur::Pipe", VariableType(t, true) + " ") + " ")
    case Callback(r, ts) =>
      var f := Angle("boost::function", VariableType(r, true) + ("(" + TypeList(ts) + ")" + " "));
      Shared(Angle("RobotRaconteur::Callback", f + " ") + " ")
    case Wire(t) => Shared(Angle("RobotRaconteur::Wire", VariableType(t, true) + " ") + " ")
    case Memory(k, e) => Shared(Angle("RobotRaconteur::" + k, e + " ") + " ")
  }

  /** What a generator returns or takes in each step, if anything. */
  function OrVoid(t: Option<TypeDef>): string {
    if t.Just? then VariableType(t.value, true) else "void"
  }

  function Shared(x: string): string {
    Angle("RR_SHARED_PTR", x)
  }

  predicate WordsIn(m: Member) {
    match m
    case Getter(t) => Word(TypeString(t))
    case Setter => true
    case Function(t) => Word(TypeString(t))
    case Generator(r, p) => (r.Just? ==> Word(TypeString(r.value))) && (p.Just? ==> Word(TypeString(p.value)))
    case Event(ts) => forall t | t in ts :: Word(TypeString(t))
    case ObjRef(o) => Word(o)
    case Pipe(t) => Word(TypeString(t))
    case Callback(r, ts) => Word(TypeString(r)) && forall t | t in ts :: Word(TypeString(t))
    case Wire(t) => Word(TypeString(t))
    case Memory(k, e) => Word(k) && Word(e)
  }

  lemma {:induction false} TypeListCloses(ts: seq<TypeDef>)
    requires forall t | t in ts :: Word(TypeString(t))
    ensures Closed(TypeList(ts), 1)
  {
    hide VariableType;
    if ts != [] {
      PrintedTypes(ts[0], true);
      FitsDeeper(VariableType(ts[0], true), 0, 1);
      if |ts| > 1 {
        TypeListCloses(ts[1..]);
        WordCloses(",", 0);
        BlankAfter(",");
        assert "," + " " == ", ";
        ClosedConcat(", ", TypeList(ts[1..]), 1);
        ClosedConcat(VariableType(ts[0], true), ", " + TypeList(ts[1..]), 1);
      }
    }
  }

  lemma MoreWords()
    ensures Word("RR_SHARED_PTR") && Word("RobotRaconteur::Pipe") && Word("RobotRaconteur::Wire")
    ensures Word("RobotRaconteur::Generator") && Word(",")
  {
  }

  lemma CallbackWords()
    ensures Word("RobotRaconteur::Callback") && Word("boost::function") && Word("(") && Word(")") && Word("void")
            && Word("&")
  {
  }

  lemma SignalWords()
    ensures Word("boost::signals2::signal") && Word("RobotRaconteur::")
  {
  }

  lemma SharedAngle(head: string, x: string)
    requires Word(head) && Closed(x, 1)
    ensures Closed(Shared(Angle(head, x) + " "), 0) && Shared(Angle(head, x) + " ") != ""
  {
    MoreWords();
    AngleCloses(head, x, 1);
    BlankAfter(Angle(head, x));
    AngleCloses("RR_SHARED_PTR", Angle(head, x) + " ", 0);
  }

  lemma {:induction false} ParametersClose(ts: seq<TypeDef>)
    requires forall t | t in ts :: Word(TypeString(t))
    ensures Closed("(" + TypeList(ts) + ")", 1)
  {
    hide TypeList;
    CallbackWords();
    TypeListCloses(ts);
    WordCloses("(", 1);
    WordCloses(")", 1);
    ClosedConcat("(", TypeList(ts), 1);
    ClosedConcat("(" + TypeList(ts), ")", 1);
  }

  /** Every declared member's return type has balanced brackets and no blank outside of them, so `dforc`
      splits its declaration exactly unless the word `virtual` occurs in it. */
  lemma {:induction false} ReturnTypesSplit(m: Member, name: string, params: string, cls: string)
    requires WordsIn(m) && name != "" && Word(name)
    requires (m.Getter? || m.Function?) && m.t.base.Named? ==> TypeString(m.t) != ""
    ensures Closed(ReturnType(m), 0)
    ensures var d := Declaration(ReturnType(m), name, params);
            Split(Stripped(d), cls) == Just(Definition(ReturnType(m), cls, name, params))
            <==> FindFirst(d, "virtual").Nothing?
  {
    ReturnTypeCloses(m);
    hide ReturnType, Split, Stripped, Declaration, Definition;
    DforcSplitsExactly(ReturnType(m), name, params, cls);
  }

  lemma TypesAreNamed(t: TypeDef)
    requires t.base.Named? ==> TypeString(t) != ""
    ensures VariableType(t, true) != ""
  {
    hide RemovePointer, Reserved, LastPart, FirstDot;
  }

  lemma {:induction false} ReturnTypeCloses(m: Member)
    requires WordsIn(m)
    requires (m.Getter? || m.Function?) && m.t.base.Named? ==> TypeString(m.t) != ""
    ensures Closed(ReturnType(m), 0) && ReturnType(m) != ""
  {
    if m.Getter? || m.Function? {
      TypesAreNamed(m.t);
    }
    hide Closed, Word, Angle, VariableType, TypeList, FixQualifiedName;
    MoreWords();
    CallbackWords();
    SignalWords();
    match m
    case Getter(t) => PrintedTypes(t, true);
    case Function(t) => PrintedTypes(t, true);
    case Setter => WordCloses("void", 0);
    case Generator(r, p) => GeneratorCloses(r, p);
    case Event(ts) => EventCloses(ts);
    case ObjRef(o) => ObjRefCloses(o);
    case Pipe(t) => HolderCloses("RobotRaconteur::Pipe", t);
    case Wire(t) => HolderCloses("RobotRaconteur::Wire", t);
    case Callback(r, ts) => CallbackCloses(r, ts);
    case Memory(k, e) =>
      WordsCat("RobotRaconteur::", k);
      WordCloses(e, 0);
      BlankAfter(e);
      SharedAngle("RobotRaconteur::" + k, e + " ");
  }

  lemma ObjRefCloses(o: string)
    requires Word(o)
    ensures Closed(Shared(FixQualifiedName(o) + " "), 0) && Shared(FixQualifiedName(o) + " ") != ""
  {
    hide Closed, Word, FixQualifiedName, Reserved;
    MoreWords();
    NamesAreWords(o);
    WordCloses(FixQualifiedName(o), 0);
    BlankAfter(FixQualifiedName(o));
    AngleCloses("RR_SHARED_PTR", FixQualifiedName(o) + " ", 0);
    AngleIsText("RR_SHARED_PTR", FixQualifiedName(o) + " ");
  }

  lemma HolderCloses(head: string, t: TypeDef)
    requires Word(head) && Word(TypeString(t))
    ensures var s := Shared(Angle(head, VariableType(t, true) + " ") + " "); Closed(s, 0) && s != ""
  {
    hide Closed, Word, VariableType;
    PrintedTypes(t, true);
    BlankAfter(VariableType(t, true));
    SharedAngle(head, VariableType(t, true) + " ");
  }

  lemma OrVoidCloses(t: Option<TypeDef>)
    requires t.Just? ==> Word(TypeString(t.value))
    ensures Closed(OrVoid(t), 0)
  {
    CallbackWords();
    if t.Just? {
      PrintedTypes(t.value, true);
    } else {
      WordCloses("void", 0);
    }
  }

  lemma GeneratorCloses(r: Option<TypeDef>, p: Option<TypeDef>)
    requires WordsIn(Generator(r, p))
    ensures Closed(ReturnType(Generator(r, p)), 0) && ReturnType(Generator(r, p)) != ""
  {
    OrVoidCloses(r);
    OrVoidCloses(p);
    hide Closed, Word, Angle, OrVoid;
    MoreWords();
    BlankAfter(OrVoid(p));
    WordCloses(",", 1);
    ClosedConcat(",", OrVoid(p) + " ", 1);
    DeeperClosed(OrVoid(r));
    ClosedConcat(OrVoid(r), "," + (OrVoid(p) + " "), 1);
    SharedAngle("RobotRaconteur::Generator", OrVoid(r) + ("," + (OrVoid(p) + " ")));
  }

  lemma AngleIsText(head: string, x: string)
    ensures Angle(head, x) != ""
  {
  }

  lemma EventCloses(ts: seq<TypeDef>)
    requires forall t | t in ts :: Word(TypeString(t))
    ensures Closed(ReturnType(Event(ts)), 0) && ReturnType(Event(ts)) != ""
  {
    hide Closed, Word, Angle, TypeList;
    SignalWords();
    CallbackWords();
    ParametersClose(ts);
    WordCloses("void", 0);
    BlankAfter("void");
    var x := "(" + TypeList(ts) + ")";
    ClosedConcat("void" + " ", x, 1);
    assert "void" + " " + x == "void (" + TypeList(ts) + ")";
    AngleCloses("boost::signals2::signal", "void" + " " + x, 0);
    WordCloses("&", 0);
    ClosedConcat(Angle("boost::signals2::signal", "void" + " " + x), "&", 0);
  }

  lemma CallbackCloses(r: TypeDef, ts: seq<TypeDef>)
    requires Word(TypeString(r)) && forall t | t in ts :: Word(TypeString(t))
    ensures Closed(ReturnType(Callback(r, ts)), 0) && ReturnType(Callback(r, ts)) != ""
  {
    hide Closed, Word, Angle, VariableType, TypeList;
    CallbackWords();
    PrintedTypes(r, true);
    ParametersClose(ts);
    var x := "(" + TypeList(ts) + ")";
    BlankAfter(x);
    DeeperClosed(VariableType(r, true));
    ClosedConcat(VariableType(r, true), x + " ", 1);
    var f := Angle("boost::function", VariableType(r, true) + (x + " "));
    AngleCloses("boost::function", VariableType(r, true) + (x + " "), 1);
    BlankAfter(f);
    SharedAngle("RobotRaconteur::Callback", f + " ");
  }

  lemma DeeperClosed(s: string)
    requires Closed(s, 0)
    ensures Closed(s, 1)
  {
    FitsDeeper(s, 0, 1);
  }
}
