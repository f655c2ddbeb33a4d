/** The service definition text the back ends embed in the generated factories as a string literal. */
module DefString {
  import opened Types
  import opened Unicode
  import opened StringConstants
  import opened LiteralLexers

  const NEWLINE := 10
  const RETURN := 13

  // ----- the string algorithms the back ends call

  /** `boost::split` at every newline. */
  function Lines(t: seq<int>): (ls: seq<seq<int>>)
    ensures |ls| > 0 && forall i | 0 <= i < |ls| :: NEWLINE !in ls[i]
  {
    if t == [] then [[]]
    else
      var rest := Lines(t[1..]);
      if t[0] == NEWLINE then [[]] + rest else [[t[0]] + rest[0]] + rest[1..]
  }

  /** `boost::replace_all` of one character. */
  function ReplaceAll(t: seq<int>, x: int, ys: seq<int>): seq<int> {
    if t == [] then [] else (if t[0] == x then ys else [t[0]]) + ReplaceAll(t[1..], x, ys)
  }

  /** What `trim_if` takes off: line ends for C++, the blanks of `isspace` for C# and Java. */
  predicate Blank(target: Target, c: int) {
    if target.Cpp? then c == RETURN || c == NEWLINE else c == 32 || 9 <= c <= 13
  }

  function TrimLeft(target: Target, t: seq<int>): seq<int> {
    if t == [] || !Blank(target, t[0]) then t else TrimLeft(target, t[1..])
  }

  function TrimRight(target: Target, t: seq<int>): seq<int> {
    if t == [] || !Blank(target, t[|t| - 1]) then t else TrimRight(target, t[..|t| - 1])
  }

  function Trim(target: Target, t: seq<int>): seq<int> {
    TrimRight(target, TrimLeft(target, t))
  }

  // ----- the emitted text

  function EscapeLine(l: seq<int>): seq<int> {
    ReplaceAll(ReplaceAll(l, BACKSLASH, [BACKSLASH, BACKSLASH]), QUOTE, [BACKSLASH, QUOTE])
  }

  /** One line of the definition as the back end writes it. */
  function EmitLine(target: Target, l: seq<int>): seq<int> {
    if target.Cpp? then [QUOTE] + Trim(target, EscapeLine(l)) + [BACKSLASH, LETTER_N, QUOTE, NEWLINE]
    else Trim(target, ReplaceAll(EscapeLine(l), RETURN, [])) + [BACKSLASH, LETTER_N]
  }

  function EmitLines(target: Target, ls: seq<seq<int>>): seq<int> {
    if ls == [] then [] else EmitLine(target, ls[0]) + EmitLines(target, ls[1..])
  }

  lemma {:induction false} EmitOneMore(target: Target, ls: seq<seq<int>>, l: seq<int>)
    ensures EmitLines(target, ls + [l]) == EmitLines(target, ls) + EmitLine(target, l)
  {
    hide EmitLine;
    if ls == [] {
      assert [l][1..] == [];
    } else {
      EmitOneMore(target, ls[1..], l);
      assert (ls + [l])[1..] == ls[1..] + [l];
    }
  }

  lemma EmitNone(target: Target)
    ensures EmitLines(target, []) == []
  {
  }

  /** The loop of `GenerateServiceFactory` over the lines. */
  method EmitDefString(target: Target, defstring: seq<int>) returns (w: seq<int>)
    ensures w == EmitLines(target, Lines(defstring))
  {
    hide Trim, ReplaceAll, EmitLines, Lines, Blank;
    var lines := Lines(defstring);
    w := [];
    EmitNone(target);
    assert lines[..0] == [];
    for e := 0 to |lines|
      invariant w == EmitLines(target, lines[..e])
    {
      var l := ReplaceAll(lines[e], BACKSLASH, [BACKSLASH, BACKSLASH]);
      l := ReplaceAll(l, QUOTE, [BACKSLASH, QUOTE]);
      if target.Cpp? {
        l := Trim(target, l);
        w := w + ([QUOTE] + l + [BACKSLASH, LETTER_N, QUOTE, NEWLINE]);
      } else {
        l := ReplaceAll(l, RETURN, []);
        l := Trim(target, l);
        w := w + (l + [BACKSLASH, LETTER_N]);
      }
      EmitOneMore(target, lines[..e], lines[e]);
      assert lines[..e + 1] == lines[..e] + [lines[e]];
    }
    assert lines[..|lines|] == lines;
  }

  // ----- what the text says

  /** A line without carriage returns, at its ends for C++ and anywhere for the others, and, for these,
      without outer blanks. */
  function NormalLine(target: Target, l: seq<int>): seq<int> {
    if target.Cpp? then Trim(target, l) else Trim(target, ReplaceAll(l, RETURN, []))
  }

  function JoinLines(target: Target, ls: seq<seq<int>>): seq<int> {
    if ls == [] then [] else NormalLine(target, ls[0]) + [NEWLINE] + JoinLines(target, ls[1..])
  }

  /** The definition normalised line by line, each line ended. */
  function Normal(target: Target, t: seq<int>): seq<int> {
    JoinLines(target, Lines(t))
  }

  function Escape(c: int): seq<int> {
    if c == BACKSLASH || c == QUOTE then [BACKSLASH, c] else [c]
  }

  function Escapes(t: seq<int>): seq<int> {
    if t == [] then [] else Escape(t[0]) + Escapes(t[1..])
  }

  lemma {:induction false} ReplaceConcat(a: seq<int>, b: seq<int>, x: int, ys: seq<int>)
    ensures ReplaceAll(a + b, x, ys) == ReplaceAll(a, x, ys) + ReplaceAll(b, x, ys)
  {
    if a == [] {
      assert a + b == b;
    } else {
      assert (a + b)[1..] == a[1..] + b;
      ReplaceConcat(a[1..], b, x, ys);
    }
  }

  /** The second replacement leaves what the first inserted alone. */
  lemma {:induction false} EscapeLineIsEscapes(l: seq<int>)
    ensures EscapeLine(l) == Escapes(l)
  {
    if l != [] {
      EscapeLineIsEscapes(l[1..]);
      var head := if l[0] == BACKSLASH then [BACKSLASH, BACKSLASH] else [l[0]];
      var rest := ReplaceAll(l[1..], BACKSLASH, [BACKSLASH, BACKSLASH]);
      assert ReplaceAll(l, BACKSLASH, [BACKSLASH, BACKSLASH]) == head + rest;
      ReplaceConcat(head, rest, QUOTE, [BACKSLASH, QUOTE]);
      OneReplaced(l[0]);
    }
  }

  lemma OneReplaced(c: int)
    ensures ReplaceAll(if c == BACKSLASH then [BACKSLASH, BACKSLASH] else [c], QUOTE, [BACKSLASH, QUOTE]) == Escape(c)
  {
    assert [c][1..] == [] && [BACKSLASH, BACKSLASH][1..] == [BACKSLASH] && [BACKSLASH][1..] == [];
    assert ReplaceAll([], QUOTE, [BACKSLASH, QUOTE]) == [];
    assert ReplaceAll([BACKSLASH], QUOTE, [BACKSLASH, QUOTE]) == [BACKSLASH];
  }

  lemma {:induction false} EscapesConcat(a: seq<int>, b: seq<int>)
    ensures Escapes(a + b) == Escapes(a) + Escapes(b)
  {
    if a == [] {
      assert a + b == b;
    } else {
      assert (a + b)[1..] == a[1..] + b;
      EscapesConcat(a[1..], b);
    }
  }

  lemma {:induction false} EscapesTrimLeft(target: Target, t: seq<int>)
    ensures TrimLeft(target, Escapes(t)) == Escapes(TrimLeft(target, t))
  {
    if t != [] && Blank(target, t[0]) {
      EscapesTrimLeft(target, t[1..]);
      assert Escapes(t)[1..] == Escapes(t[1..]);
    }
  }

  lemma {:induction false} EscapesTrimRight(target: Target, t: seq<int>)
    ensures TrimRight(target, Escapes(t)) == Escapes(TrimRight(target, t))
  {
    if t != [] {
      var rest, c := t[..|t| - 1], t[|t| - 1];
      assert t == rest + [c] && [c][1..] == [];
      EscapesConcat(rest, [c]);
      assert Escapes([c]) == Escape(c) + Escapes([]) == Escape(c);
      if Blank(target, c) {
        EscapesTrimRight(target, rest);
        assert Escapes(t) == Escapes(rest) + [c];
        assert Escapes(t)[..|Escapes(rest)|] == Escapes(rest);
      } else {
        assert Escapes(t)[|Escapes(t)| - 1] == c;
      }
    }
  }

  lemma {:induction false} EscapesWithoutReturns(t: seq<int>)
    ensures ReplaceAll(Escapes(t), RETURN, []) == Escapes(ReplaceAll(t, RETURN, []))
  {
    if t != [] {
      EscapesWithoutReturns(t[1..]);
      ReplaceConcat(Escape(t[0]), Escapes(t[1..]), RETURN, []);
      var one := if t[0] == RETURN then [] else [t[0]];
      assert ReplaceAll(t, RETURN, []) == one + ReplaceAll(t[1..], RETURN, []);
      EscapesConcat(one, ReplaceAll(t[1..], RETURN, []));
      EscapeWithoutReturns(t[0]);
    }
  }

  lemma EscapeWithoutReturns(c: int)
    ensures ReplaceAll(Escape(c), RETURN, []) == Escapes(if c == RETURN then [] else [c])
  {
    assert [c][1..] == [] && [BACKSLASH, c][1..] == [c];
    assert Escapes([c]) == Escape(c) + [];
    assert ReplaceAll([c], RETURN, []) == if c == RETURN then [] else [c];
  }

  /** Trimming the escaped line is escaping the trimmed line. */
  lemma EmitsNormalLine(target: Target, l: seq<int>)
    ensures var text := Escapes(NormalLine(target, l));
            EmitLine(target, l) == if target.Cpp? then [QUOTE] + text + [BACKSLASH, LETTER_N, QUOTE, NEWLINE]
                                   else text + [BACKSLASH, LETTER_N]
  {
    EscapeLineIsEscapes(l);
    EscapesWithoutReturns(l);
    var m := if target.Cpp? then l else ReplaceAll(l, RETURN, []);
    EscapesTrimLeft(target, m);
    EscapesTrimRight(target, TrimLeft(target, m));
  }

  // ----- reading it back

  lemma {:induction false} TrimOnlyDrops(target: Target, t: seq<int>)
    ensures forall c | c in TrimLeft(target, t) :: c in t
    ensures forall c | c in TrimRight(target, t) :: c in t
    ensures forall c | c in t && !Blank(target, c) :: c in TrimLeft(target, t) && c in TrimRight(target, t)
    decreases |t|
  {
    if t != [] {
      if Blank(target, t[0]) {
        TrimOnlyDrops(target, t[1..]);
        assert t == [t[0]] + t[1..];
      }
      var n := |t| - 1;
      if Blank(target, t[n]) {
        TrimOnlyDrops(target, t[..n]);
        assert t == t[..n] + [t[n]];
      }
    }
  }

  lemma {:induction false} RemovedReturns(t: seq<int>)
    ensures forall c :: c in ReplaceAll(t, RETURN, []) <==> c in t && c != RETURN
  {
    if t != [] {
      RemovedReturns(t[1..]);
      assert t == [t[0]] + t[1..];
    }
  }

  /** A normal line holds no newline, and what is no blank and no carriage return stays. */
  lemma NormalLineHolds(target: Target, l: seq<int>)
    requires NEWLINE !in l
    ensures NEWLINE !in NormalLine(target, l) && (!target.Cpp? ==> RETURN !in NormalLine(target, l))
    ensures forall c | !Blank(target, c) && c != RETURN :: c in l <==> c in NormalLine(target, l)
  {
    RemovedReturns(l);
    var m := if target.Cpp? then l else ReplaceAll(l, RETURN, []);
    TrimOnlyDrops(target, m);
    TrimOnlyDrops(target, TrimLeft(target, m));
  }

  lemma {:induction false} CppReadsEscapes(t: seq<int>, rest: seq<int>)
    requires NEWLINE !in t
    ensures CppBody(Escapes(t) + rest) == Cons(t, CppBody(rest))
  {
    hide CppBody;
    if t == [] {
      assert Escapes(t) + rest == rest;
      ConsNothing(CppBody(rest));
    } else {
      assert t[0] in t;
      CppReadsEscapes(t[1..], rest);
      assert Escapes(t) + rest == Escape(t[0]) + (Escapes(t[1..]) + rest);
      CppReadsOne(t[0], Escapes(t[1..]) + rest);
      ConsTwice([t[0]], t[1..], CppBody(rest));
      assert t == [t[0]] + t[1..];
    }
  }

  lemma CppReadsOne(c: int, rest: seq<int>)
    requires c != NEWLINE
    ensures CppBody(Escape(c) + rest) == Cons([c], CppBody(rest))
    ensures CppBody([BACKSLASH, LETTER_N, QUOTE] + rest) == Just(Lexed([NEWLINE], rest))
  {
    if c == BACKSLASH || c == QUOTE {
      assert ([BACKSLASH, c] + rest)[2..] == rest;
    } else {
      assert ([c] + rest)[1..] == rest;
    }
    var end := [BACKSLASH, LETTER_N, QUOTE] + rest;
    assert end[2..] == [QUOTE] + rest && ([QUOTE] + rest)[1..] == rest;
    assert [NEWLINE] + [] == [NEWLINE];
  }

  /** Adjacent string literals are one literal. */
  function CppLiterals(t: seq<int>): Option<Lexed>
    decreases |t|
  {
    if t == [] then Just(Lexed([], t))
    else if t[0] == NEWLINE || t[0] == 32 then CppLiterals(t[1..])
    else if t[0] != QUOTE then Just(Lexed([], t))
    else
      var one := CppBody(t[1..]);
      if one.Nothing? then Nothing else Cons(one.value.value, CppLiterals(one.value.rest))
  }

  lemma CppReadsOneLine(l: seq<int>, text: seq<int>)
    requires NEWLINE !in l
    ensures CppLiterals([QUOTE] + Escapes(l) + [BACKSLASH, LETTER_N, QUOTE, NEWLINE] + text)
         == Cons(l + [NEWLINE], CppLiterals(text))
  {
    hide CppBody, Escapes;
    var after := [NEWLINE] + text;
    var t := [QUOTE] + Escapes(l) + [BACKSLASH, LETTER_N, QUOTE, NEWLINE] + text;
    assert t[1..] == Escapes(l) + ([BACKSLASH, LETTER_N, QUOTE] + after);
    CppReadsEscapes(l, [BACKSLASH, LETTER_N, QUOTE] + after);
    CppReadsOne(0, after);
    assert after[1..] == text;
    assert CppLiterals(after) == CppLiterals(text);
  }

  lemma NoMoreLiterals(tail: seq<int>)
    requires tail != [] && tail[0] != QUOTE && tail[0] != NEWLINE && tail[0] != 32
    ensures CppLiterals(tail) == Just(Lexed([], tail))
  {
  }

  lemma NothingJoined()
    ensures JoinLines(Cpp, []) == []
  {
  }

  lemma CppEmitsCons(ls: seq<seq<int>>, tail: seq<int>)
    requires ls != []
    ensures EmitLines(Cpp, ls) + tail
         == [QUOTE] + Escapes(NormalLine(Cpp, ls[0])) + [BACKSLASH, LETTER_N, QUOTE, NEWLINE]
            + (EmitLines(Cpp, ls[1..]) + tail)
    ensures JoinLines(Cpp, ls) == NormalLine(Cpp, ls[0]) + [NEWLINE] + JoinLines(Cpp, ls[1..])
  {
    hide NormalLine, EmitLine, Escapes;
    EmitsNormalLine(Cpp, ls[0]);
  }

  lemma {:induction false} CppReadsLines(ls: seq<seq<int>>, tail: seq<int>)
    requires forall i | 0 <= i < |ls| :: NEWLINE !in ls[i]
    requires tail != [] && tail[0] != QUOTE && tail[0] != NEWLINE && tail[0] != 32
    ensures CppLiterals(EmitLines(Cpp, ls) + tail) == Just(Lexed(JoinLines(Cpp, ls), tail))
  {
    hide EmitLine, EmitLines, JoinLines, NormalLine, CppBody, CppLiterals, Escapes;
    if ls == [] {
      EmitNone(Cpp);
      NothingJoined();
      assert EmitLines(Cpp, ls) + tail == tail;
      NoMoreLiterals(tail);
    } else {
      var l, text := NormalLine(Cpp, ls[0]), EmitLines(Cpp, ls[1..]) + tail;
      CppReadsLines(ls[1..], tail);
      NormalLineHolds(Cpp, ls[0]);
      CppEmitsCons(ls, tail);
      CppReadsOneLine(l, text);
    }
  }

  /** C++ reads the literals as the definition normalised line by line. */
  lemma {:induction false} CppReadsDefString(defstring: seq<int>, tail: seq<int>)
    requires tail != [] && tail[0] != QUOTE && tail[0] != NEWLINE && tail[0] != 32
    ensures CppLiterals(EmitLines(Cpp, Lines(defstring)) + tail) == Just(Lexed(Normal(Cpp, defstring), tail))
  {
    CppReadsLines(Lines(defstring), tail);
  }

  lemma {:induction false} TranslateEscapes(t: seq<int>, rest: seq<int>)
    ensures Translate(Escapes(t) + rest, true) == Prepend(Escapes(t), Translate(rest, true))
  {
    hide Translate;
    if t == [] {
      assert Escapes(t) + rest == rest;
      PrependNothing(Translate(rest, true));
    } else {
      TranslateEscapes(t[1..], rest);
      assert Escapes(t) + rest == Escape(t[0]) + (Escapes(t[1..]) + rest);
      TranslateOne(t[0], Escapes(t[1..]) + rest);
      PrependTwice(Escape(t[0]), Escapes(t[1..]), Translate(rest, true));
    }
  }

  /** No escaped character begins a Unicode escape, a backslash before `u` included. */
  lemma TranslateOne(c: int, rest: seq<int>)
    ensures Translate(Escape(c) + rest, true) == Prepend(Escape(c), Translate(rest, true))
    ensures Translate([BACKSLASH, LETTER_N] + rest, true) == Prepend([BACKSLASH, LETTER_N], Translate(rest, true))
  {
    if c == BACKSLASH || c == QUOTE {
      TranslatePair(c, rest);
    } else {
      assert ([c] + rest)[1..] == rest;
    }
    TranslatePair(LETTER_N, rest);
  }

  lemma TranslatePair(d: int, rest: seq<int>)
    requires d != LETTER_U
    ensures Translate([BACKSLASH, d] + rest, true) == Prepend([BACKSLASH, d], Translate(rest, true))
  {
    assert ([BACKSLASH, d] + rest)[1..] == [d] + rest && ([d] + rest)[1..] == rest;
    assert Translate([d] + rest, false) == Prepend([d], Translate(rest, true));
    PrependTwice([BACKSLASH], [d], Translate(rest, true));
    assert [BACKSLASH] + [d] == [BACKSLASH, d];
  }

  lemma {:induction false} JavaReadsEscapes(t: seq<int>, rest: seq<int>)
    requires NEWLINE !in t && RETURN !in t
    ensures JavaBody(Escapes(t) + rest) == Cons(t, JavaBody(rest))
  {
    hide JavaBody;
    if t == [] {
      assert Escapes(t) + rest == rest;
      ConsNothing(JavaBody(rest));
    } else {
      assert t[0] in t;
      JavaReadsEscapes(t[1..], rest);
      assert Escapes(t) + rest == Escape(t[0]) + (Escapes(t[1..]) + rest);
      JavaReadsOne(t[0], Escapes(t[1..]) + rest);
      ConsTwice([t[0]], t[1..], JavaBody(rest));
      assert t == [t[0]] + t[1..];
    }
  }

  lemma JavaReadsOne(c: int, rest: seq<int>)
    requires c != NEWLINE && c != RETURN
    ensures JavaBody(Escape(c) + rest) == Cons([c], JavaBody(rest))
    ensures JavaBody([BACKSLASH, LETTER_N] + rest) == Cons([NEWLINE], JavaBody(rest))
  {
    assert ([BACKSLASH, LETTER_N] + rest)[2..] == rest;
    if c == BACKSLASH || c == QUOTE {
      assert ([BACKSLASH, c] + rest)[2..] == rest;
    } else {
      assert ([c] + rest)[1..] == rest;
    }
  }

  lemma {:induction false} JavaReadsLines(ls: seq<seq<int>>, rest: seq<int>)
    requires forall i | 0 <= i < |ls| :: NEWLINE !in ls[i]
    ensures Translate(EmitLines(Java, ls) + rest, true) == Prepend(EmitLines(Java, ls), Translate(rest, true))
    ensures JavaBody(EmitLines(Java, ls) + rest) == Cons(JoinLines(Java, ls), JavaBody(rest))
  {
    hide EmitLine, NormalLine, JavaBody, Translate, Escapes;
    if ls == [] {
      assert EmitLines(Java, ls) + rest == rest;
      ConsNothing(JavaBody(rest));
      PrependNothing(Translate(rest, true));
    } else {
      var l, text := NormalLine(Java, ls[0]), EmitLines(Java, ls[1..]) + rest;
      JavaReadsLines(ls[1..], rest);
      EmitsNormalLine(Java, ls[0]);
      NormalLineHolds(Java, ls[0]);
      var end := [BACKSLASH, LETTER_N] + text;
      assert EmitLines(Java, ls) + rest == Escapes(l) + end;
      JavaReadsEscapes(l, end);
      JavaReadsOne(0, text);
      ConsTwice(l, [NEWLINE], JavaBody(text));
      ConsTwice(l + [NEWLINE], JoinLines(Java, ls[1..]), JavaBody(rest));
      TranslateEscapes(l, end);
      TranslateOne(0, text);
      PrependTwice(Escapes(l), [BACKSLASH, LETTER_N], Translate(text, true));
      PrependTwice(EmitLine(Java, ls[0]), EmitLines(Java, ls[1..]), Translate(rest, true));
    }
  }

  /** Java reads the literal as the normalised definition, whatever it contains. */
  lemma {:induction false} JavaReadsDefString(defstring: seq<int>, tail: seq<int>)
    requires Translate(tail, true).Just?
    ensures JavaLex([QUOTE] + EmitLines(Java, Lines(defstring)) + [QUOTE] + tail)
         == Just(Lexed(Normal(Java, defstring), Translate(tail, true).value))
  {
    hide JavaBody, Translate, EmitLines, JoinLines;
    var ls, after := Lines(defstring), Translate(tail, true).value;
    var text := EmitLines(Java, ls);
    QuoteStays(tail, after);
    JavaReadsLines(ls, [QUOTE] + tail);
    QuoteStays(text + ([QUOTE] + tail), after);
    assert [QUOTE] + text + [QUOTE] + tail == [QUOTE] + (text + ([QUOTE] + tail));
    var u := text + ([QUOTE] + after);
    assert ([QUOTE] + u)[1..] == u;
    JavaReadsLines(ls, [QUOTE] + after);
    assert JoinLines(Java, ls) + [] == JoinLines(Java, ls);
  }

  /** The line separators of C# that are not blanks for the back end. */
  predicate OtherNewLine(c: int) {
    c == 0x85 || c == 0x2028 || c == 0x2029
  }

  predicate HasOtherNewLine(t: seq<int>) {
    exists c | c in t :: OtherNewLine(c)
  }

  lemma {:induction false} CSharpReadsEscapes(t: seq<int>, rest: seq<int>)
    requires NEWLINE !in t && RETURN !in t
    ensures CSharpBody(Escapes(t) + rest) == if HasOtherNewLine(t) then Nothing else Cons(t, CSharpBody(rest))
  {
    hide CSharpBody;
    if t == [] {
      assert Escapes(t) + rest == rest;
      ConsNothing(CSharpBody(rest));
    } else {
      assert t[0] in t && t == [t[0]] + t[1..];
      CSharpReadsEscapes(t[1..], rest);
      assert Escapes(t) + rest == Escape(t[0]) + (Escapes(t[1..]) + rest);
      CSharpReadsOne(t[0], Escapes(t[1..]) + rest);
      ConsTwice([t[0]], t[1..], CSharpBody(rest));
      assert HasOtherNewLine(t) <==> OtherNewLine(t[0]) || HasOtherNewLine(t[1..]);
    }
  }

  lemma CSharpReadsOne(c: int, rest: seq<int>)
    requires c != NEWLINE && c != RETURN
    ensures CSharpBody(Escape(c) + rest) == if OtherNewLine(c) then Nothing else Cons([c], CSharpBody(rest))
    ensures CSharpBody([BACKSLASH, LETTER_N] + rest) == Cons([NEWLINE], CSharpBody(rest))
    ensures CSharpBody([QUOTE] + rest) == Just(Lexed([], rest))
  {
    CSharpReadsPair(LETTER_N, NEWLINE, rest);
    if c == BACKSLASH || c == QUOTE {
      CSharpReadsPair(c, c, rest);
    } else {
      CSharpReadsPlain(c, rest);
    }
    CSharpEnds(rest);
  }

  lemma CSharpEnds(rest: seq<int>)
    ensures CSharpBody([QUOTE] + rest) == Just(Lexed([], rest))
  {
    hide HexRun, HexNumber, Utf16Of, HexDigits;
    assert ([QUOTE] + rest)[1..] == rest;
  }

  lemma CSharpReadsPair(d: int, c: int, rest: seq<int>)
    requires CSharpEscape(d) == Just(c)
    ensures CSharpBody([BACKSLASH, d] + rest) == Cons([c], CSharpBody(rest))
  {
    hide HexRun, HexNumber, Utf16Of, HexDigits, CSharpEscape;
    assert ([BACKSLASH, d] + rest)[2..] == rest;
  }

  lemma CSharpReadsPlain(c: int, rest: seq<int>)
    requires c != NEWLINE && c != RETURN && c != BACKSLASH && c != QUOTE
    ensures CSharpBody([c] + rest) == if OtherNewLine(c) then Nothing else Cons([c], CSharpBody(rest))
  {
    hide HexRun, HexNumber, Utf16Of, HexDigits;
    assert ([c] + rest)[1..] == rest;
  }

  predicate AnyOtherNewLine(ls: seq<seq<int>>) {
    exists i | 0 <= i < |ls| :: HasOtherNewLine(ls[i])
  }

  lemma {:induction false} CSharpReadsLines(ls: seq<seq<int>>, rest: seq<int>)
    requires forall i | 0 <= i < |ls| :: NEWLINE !in ls[i]
    ensures CSharpBody(EmitLines(CSharp, ls) + rest)
         == if AnyOtherNewLine(ls) then Nothing else Cons(JoinLines(CSharp, ls), CSharpBody(rest))
  {
    hide EmitLine, NormalLine, CSharpBody, HasOtherNewLine, AnyOtherNewLine, Escapes;
    if ls == [] {
      assert EmitLines(CSharp, ls) + rest == rest;
      ConsNothing(CSharpBody(rest));
      NoneOther();
    } else {
      var l, text := NormalLine(CSharp, ls[0]), EmitLines(CSharp, ls[1..]) + rest;
      CSharpReadsLines(ls[1..], rest);
      EmitsNormalLine(CSharp, ls[0]);
      NormalLineHolds(CSharp, ls[0]);
      SameOtherNewLines(ls[0]);
      var end := [BACKSLASH, LETTER_N] + text;
      assert EmitLines(CSharp, ls) + rest == Escapes(l) + end;
      CSharpReadsEscapes(l, end);
      CSharpReadsOne(0, text);
      ConsTwice(l, [NEWLINE], CSharpBody(text));
      ConsTwice(l + [NEWLINE], JoinLines(CSharp, ls[1..]), CSharpBody(rest));
      AnyInHeadOrTail(ls);
    }
  }

  lemma NoneOther()
    ensures !AnyOtherNewLine([])
  {
  }

  lemma AnyInHeadOrTail(ls: seq<seq<int>>)
    requires ls != []
    ensures AnyOtherNewLine(ls) <==> HasOtherNewLine(ls[0]) || AnyOtherNewLine(ls[1..])
  {
    hide HasOtherNewLine;
    if i :| 0 <= i < |ls| && HasOtherNewLine(ls[i]) {
      if i > 0 {
        assert HasOtherNewLine(ls[1..][i - 1]);
      }
    }
    if i :| 0 <= i < |ls[1..]| && HasOtherNewLine(ls[1..][i]) {
      assert HasOtherNewLine(ls[i + 1]);
    }
  }

  lemma SameOtherNewLines(l: seq<int>)
    requires NEWLINE !in l
    ensures HasOtherNewLine(NormalLine(CSharp, l)) <==> HasOtherNewLine(l)
  {
    NormalLineHolds(CSharp, l);
    if c :| c in l && OtherNewLine(c) {
      assert c in NormalLine(CSharp, l);
    }
    if c :| c in NormalLine(CSharp, l) && OtherNewLine(c) {
      assert c in l;
    }
  }

  lemma {:induction false} LinesHold(t: seq<int>)
    ensures AnyOtherNewLine(Lines(t)) <==> HasOtherNewLine(t)
  {
    if t != [] {
      LinesHold(t[1..]);
      var ls, rest := Lines(t), Lines(t[1..]);
      assert t == [t[0]] + t[1..];
      assert HasOtherNewLine(t) <==> OtherNewLine(t[0]) || HasOtherNewLine(t[1..]);
      AnyInHeadOrTail(ls);
      if t[0] == NEWLINE {
        assert ls[1..] == rest;
      } else {
        AnyInHeadOrTail(rest);
        assert ls[0] == [t[0]] + rest[0] && ls[1..] == rest[1..];
        assert HasOtherNewLine(ls[0]) <==> OtherNewLine(t[0]) || HasOtherNewLine(rest[0]);
      }
    } else {
      assert Lines(t)[0] == [];
    }
  }

  /** C# reads the literal as the normalised definition exactly when the definition has no line separator
      of C# other than carriage return and newline; otherwise the literal does not end on its line. */
  lemma {:induction false} CSharpReadsDefStringExactly(defstring: seq<int>, tail: seq<int>)
    ensures var r := CSharpLex([QUOTE] + EmitLines(CSharp, Lines(defstring)) + [QUOTE] + tail);
            if HasOtherNewLine(defstring) then r == Nothing else r == Just(Lexed(Normal(CSharp, defstring), tail))
  {
    hide CSharpBody, EmitLines, JoinLines, HasOtherNewLine, AnyOtherNewLine;
    var ls := Lines(defstring);
    var text := EmitLines(CSharp, ls);
    LinesHold(defstring);
    CSharpReadsLines(ls, [QUOTE] + tail);
    CSharpReadsOne(0, tail);
    assert ([QUOTE] + text + [QUOTE] + tail)[1..] == text + ([QUOTE] + tail);
    assert JoinLines(CSharp, ls) + [] == JoinLines(CSharp, ls);
  }

  /** A definition with U+2028 in a comment is not a string literal of C#, while Java reads it whole. */
  lemma LineSeparatorBreaksLiteral(tail: seq<int>)
    requires Translate(tail, true).Just?
    ensures var defstring := [35, 0x2028, 97];
            && CSharpLex([QUOTE] + EmitLines(CSharp, Lines(defstring)) + [QUOTE] + tail) == Nothing
            && JavaLex([QUOTE] + EmitLines(Java, Lines(defstring)) + [QUOTE] + tail)
               == Just(Lexed(Normal(Java, defstring), Translate(tail, true).value))
  {
    hide CSharpLex, JavaLex, EmitLines, Lines, Normal, Translate;
    var defstring := [35, 0x2028, 97];
    assert defstring[1] in defstring && OtherNewLine(0x2028);
    CSharpReadsDefStringExactly(defstring, tail);
    JavaReadsDefString(defstring, tail);
  }

  // ----- what trimming takes off, character by character

  /** Nothing but carriage returns and newlines for C++, and the blanks of ASCII for C# and Java. */
  predicate OnlyBlanks(target: Target, t: seq<int>) {
    forall c | c in t :: c == 10 || c == 13 || (!target.Cpp? && (c == 32 || c == 9 || c == 11 || c == 12))
  }

  lemma OnlyBlanksCat(target: Target, a: seq<int>, b: seq<int>)
    requires OnlyBlanks(target, a) && OnlyBlanks(target, b)
    ensures OnlyBlanks(target, a + b)
  {
  }

  lemma OnlyBlanksNone(target: Target)
    ensures OnlyBlanks(target, [])
  {
  }

  lemma {:induction false} TrimLeftTakes(target: Target, t: seq<int>) returns (a: seq<int>)
    ensures t == a + TrimLeft(target, t) && OnlyBlanks(target, a)
  {
    hide OnlyBlanks;
    OnlyBlanksNone(target);
    if t == [] || !Blank(target, t[0]) {
      a := [];
    } else {
      var rest := TrimLeftTakes(target, t[1..]);
      NoBlankIsOnly(target, t[0]);
      OnlyBlanksCat(target, [t[0]], rest);
      a := [t[0]] + rest;
      assert t == [t[0]] + t[1..];
    }
  }

  lemma {:induction false} TrimRightTakes(target: Target, t: seq<int>) returns (b: seq<int>)
    ensures t == TrimRight(target, t) + b && OnlyBlanks(target, b)
  {
    hide OnlyBlanks;
    OnlyBlanksNone(target);
    var n := |t| - 1;
    if t == [] || !Blank(target, t[n]) {
      b := [];
    } else {
      var rest := TrimRightTakes(target, t[..n]);
      NoBlankIsOnly(target, t[n]);
      OnlyBlanksCat(target, rest, [t[n]]);
      b := rest + [t[n]];
      assert t == t[..n] + [t[n]];
    }
  }

  /** Trimming takes such characters off both ends and leaves none there. */
  lemma TrimTakes(target: Target, m: seq<int>) returns (a: seq<int>, b: seq<int>)
    ensures m == a + Trim(target, m) + b && OnlyBlanks(target, a) && OnlyBlanks(target, b)
    ensures var r := Trim(target, m);
            r != [] ==> !OnlyBlanks(target, [r[0]]) && !OnlyBlanks(target, [r[|r| - 1]])
  {
    hide OnlyBlanks, TrimLeft, TrimRight, Blank;
    var x := TrimLeft(target, m);
    a := TrimLeftTakes(target, m);
    b := TrimRightTakes(target, x);
    TrimmedEnds(target, m);
    TrimmedEnds(target, x);
    var r := TrimRight(target, x);
    if r != [] {
      NoBlankIsOnly(target, r[0]);
      NoBlankIsOnly(target, r[|r| - 1]);
    }
  }

  lemma NoBlankIsOnly(target: Target, c: int)
    ensures Blank(target, c) <==> OnlyBlanks(target, [c])
  {
    assert c in [c];
  }

  /** A normalised line begins and ends with no such character, and what it lacks of the line are such
      characters at its ends and, for C# and Java, the carriage returns. */
  lemma NormalLineIs(target: Target, l: seq<int>) returns (a: seq<int>, b: seq<int>)
    ensures var r := NormalLine(target, l);
            r != [] ==> !OnlyBlanks(target, [r[0]]) && !OnlyBlanks(target, [r[|r| - 1]])
    ensures OnlyBlanks(target, a) && OnlyBlanks(target, b)
    ensures target.Cpp? ==> l == a + NormalLine(target, l) + b
    ensures !target.Cpp? ==> ReplaceAll(l, 13, []) == a + NormalLine(target, l) + b
  {
    hide OnlyBlanks, Trim;
    a, b := TrimTakes(target, if target.Cpp? then l else ReplaceAll(l, RETURN, []));
  }

  /** Removing the carriage returns keeps everything else, in order. */
  lemma ReturnsRemoved(a: seq<int>, b: seq<int>)
    ensures 13 !in a ==> ReplaceAll(a, 13, []) == a
    ensures ReplaceAll(a + [13] + b, 13, []) == ReplaceAll(a, 13, []) + ReplaceAll(b, 13, [])
  {
    if 13 !in a {
      NoReturnsToRemove(a);
    }
    assert [13][1..] == [] && ReplaceAll([13], 13, []) == [];
    hide ReplaceAll;
    ReplaceConcat(a + [13], b, 13, []);
    ReplaceConcat(a, [13], 13, []);
  }

  // ----- normalising twice

  lemma {:induction false} TrimmedEnds(target: Target, t: seq<int>)
    ensures var r := TrimRight(target, t);
            (r != [] ==> !Blank(target, r[|r| - 1]) && t != [] && r[0] == t[0]) && TrimRight(target, r) == r
    ensures var r := TrimLeft(target, t); r != [] ==> !Blank(target, r[0])
    decreases |t|
  {
    if t != [] {
      TrimmedEnds(target, t[1..]);
      TrimmedEnds(target, t[..|t| - 1]);
    }
  }

  lemma TrimTwice(target: Target, t: seq<int>)
    ensures Trim(target, Trim(target, t)) == Trim(target, t)
  {
    TrimmedEnds(target, t);
    TrimmedEnds(target, TrimLeft(target, t));
    var r := Trim(target, t);
    assert TrimLeft(target, r) == r;
  }

  lemma {:induction false} NoReturnsToRemove(t: seq<int>)
    requires RETURN !in t
    ensures ReplaceAll(t, RETURN, []) == t
  {
    if t != [] {
      assert t[0] in t && forall c | c in t[1..] :: c in t;
      NoReturnsToRemove(t[1..]);
      assert t == [t[0]] + t[1..];
    }
  }

  /** A normal line is left alone. */
  lemma NormalLineTwice(target: Target, l: seq<int>)
    requires NEWLINE !in l
    ensures NormalLine(target, NormalLine(target, l)) == NormalLine(target, l)
  {
    NormalLineHolds(target, l);
    if target.Cpp? {
      TrimTwice(target, l);
    } else {
      TrimTwice(target, ReplaceAll(l, RETURN, []));
      NoReturnsToRemove(NormalLine(target, l));
    }
  }

  lemma {:induction false} LinesOfEnded(l: seq<int>, t: seq<int>)
    requires NEWLINE !in l
    ensures Lines(l + [NEWLINE] + t) == [l] + Lines(t)
  {
    var all := l + [NEWLINE] + t;
    if l == [] {
      assert all[1..] == t;
    } else {
      assert l[0] in l && forall c | c in l[1..] :: c in l;
      LinesOfEnded(l[1..], t);
      assert all[1..] == l[1..] + [NEWLINE] + t;
      assert l == [l[0]] + l[1..];
    }
  }

  /** The lines of the normalised text: those of the text, normalised, and an empty one. */
  lemma {:induction false} LinesOfJoined(target: Target, ls: seq<seq<int>>)
    requires forall i | 0 <= i < |ls| :: NEWLINE !in ls[i]
    ensures |Lines(JoinLines(target, ls))| == |ls| + 1
    ensures forall i | 0 <= i < |ls| :: Lines(JoinLines(target, ls))[i] == NormalLine(target, ls[i])
    ensures Lines(JoinLines(target, ls))[|ls|] == []
  {
    hide NormalLine;
    if ls != [] {
      LinesOfJoined(target, ls[1..]);
      NormalLineHolds(target, ls[0]);
      LinesOfEnded(NormalLine(target, ls[0]), JoinLines(target, ls[1..]));
    }
  }

  lemma {:induction false} JoinNormalLines(target: Target, ls: seq<seq<int>>, ms: seq<seq<int>>)
    requires |ms| == |ls| + 1 && ms[|ls|] == [] && forall i | 0 <= i < |ls| :: NEWLINE !in ls[i]
    requires forall i | 0 <= i < |ls| :: ms[i] == NormalLine(target, ls[i])
    ensures JoinLines(target, ms) == JoinLines(target, ls) + [NEWLINE]
  {
    if ls == [] {
      assert ms == [[]] && ms[1..] == [];
      assert NormalLine(target, []) == [];
    } else {
      JoinNormalLines(target, ls[1..], ms[1..]);
      NormalLineTwice(target, ls[0]);
    }
  }

  /** Normalising again changes no line but always adds one more newline: the text that comes back is
      never a fixed point. */
  lemma {:induction false} NormalTwice(target: Target, t: seq<int>)
    ensures Normal(target, Normal(target, t)) == Normal(target, t) + [NEWLINE]
  {
    LinesOfJoined(target, Lines(t));
    JoinNormalLines(target, Lines(t), Lines(Normal(target, t)));
  }
}
