/** How the three target languages read a string literal, and what they make of the emitted constants. */
module LiteralLexers {
  import opened Types
  import opened Unicode
  import opened StringConstants

  /** The value of a literal and the text after its closing quote. */
  datatype Lexed = Lexed(value: seq<int>, rest: seq<int>)

  function Cons(xs: seq<int>, r: Option<Lexed>): Option<Lexed> {
    if r.Nothing? then Nothing else Just(Lexed(xs + r.value.value, r.value.rest))
  }

  lemma ConsTwice(xs: seq<int>, ys: seq<int>, r: Option<Lexed>)
    ensures Cons(xs, Cons(ys, r)) == Cons(xs + ys, r)
  {
    if r.Just? {
      assert xs + (ys + r.value.value) == xs + ys + r.value.value;
    }
  }

  predicate Octal(d: int) {
    48 <= d <= 55
  }

  /** The digits of an octal escape that starts `t`: up to three, the first of three at most 3 when
      `narrow`. */
  function OctalLength(t: seq<int>, narrow: bool): (n: nat)
    ensures n <= |t| && n <= 3 && forall i | 0 <= i < n :: Octal(t[i])
  {
    if |t| == 0 || !Octal(t[0]) then 0
    else if |t| == 1 || !Octal(t[1]) then 1
    else if |t| == 2 || !Octal(t[2]) || (narrow && t[0] > 51) then 2
    else 3
  }

  function OctalNumber(ds: seq<int>): int {
    if ds == [] then 0 else 8 * OctalNumber(ds[..|ds| - 1]) + (ds[|ds| - 1] - 48)
  }

  // ----- Java, sections 3.3 and 3.10.5 to 3.10.6 of the Java Language Specification

  /** The characters after the `u`s of a Unicode escape. */
  function AfterMarker(t: seq<int>): (r: seq<int>)
    ensures |r| <= |t|
  {
    if t == [] || t[0] != LETTER_U then t else AfterMarker(t[1..])
  }

  /** The translation of Unicode escapes, which precedes everything else. A backslash can begin an escape
      only after an even number of backslashes. */
  function Translate(t: seq<int>, even: bool): Option<seq<int>>
    decreases |t|
  {
    if t == [] then Just([])
    else if t[0] == BACKSLASH && even && |t| > 1 && t[1] == LETTER_U then
      var ds := AfterMarker(t[1..]);
      if |ds| < 4 || !HexDigits(ds[..4]) then Nothing
      else Prepend([HexNumber(ds[..4])], Translate(ds[4..], true))
    else Prepend([t[0]], Translate(t[1..], t[0] != BACKSLASH || !even))
  }

  function Prepend(xs: seq<int>, r: Option<seq<int>>): Option<seq<int>> {
    if r.Nothing? then Nothing else Just(xs + r.value)
  }

  lemma PrependTwice(xs: seq<int>, ys: seq<int>, r: Option<seq<int>>)
    ensures Prepend(xs, Prepend(ys, r)) == Prepend(xs + ys, r)
  {
    if r.Just? {
      assert xs + (ys + r.value) == xs + ys + r.value;
    }
  }

  function JavaEscape(d: int): Option<int> {
    if d == LETTER_B then Just(8)
    else if d == LETTER_T then Just(9)
    else if d == LETTER_N then Just(10)
    else if d == LETTER_F then Just(12)
    else if d == LETTER_R then Just(13)
    else if d == QUOTE || d == 39 || d == BACKSLASH then Just(d)
    else Nothing
  }

  /** The characters up to the closing quote. */
  function JavaBody(t: seq<int>): Option<Lexed> {
    if t == [] || t[0] == 10 || t[0] == 13 then Nothing
    else if t[0] == QUOTE then Just(Lexed([], t[1..]))
    else if t[0] != BACKSLASH then Cons([t[0]], JavaBody(t[1..]))
    else if |t| < 2 then Nothing
    else if JavaEscape(t[1]).Just? then Cons([JavaEscape(t[1]).value], JavaBody(t[2..]))
    else
      var n := OctalLength(t[1..], true);
      if n == 0 then Nothing else Cons([OctalNumber(t[1..][..n])], JavaBody(t[1..][n..]))
  }

  function JavaLex(t: seq<int>): Option<Lexed> {
    var u := Translate(t, true);
    if u.Nothing? || u.value == [] || u.value[0] != QUOTE then Nothing else JavaBody(u.value[1..])
  }

  lemma {:induction false} TranslateUnits(us: seq<int>, rest: seq<int>)
    requires CodeUnits(us)
    ensures Translate(UnitEscapes(us) + rest, true) == Prepend(us, Translate(rest, true))
  {
    hide Translate, Hex4;
    if us == [] {
      assert UnitEscapes(us) + rest == rest;
      PrependNothing(Translate(rest, true));
    } else {
      TranslateUnits(us[1..], rest);
      TranslateUnit(us[0], UnitEscapes(us[1..]) + rest);
      assert UnitEscapes(us) + rest == [BACKSLASH, LETTER_U] + Hex4(us[0]) + (UnitEscapes(us[1..]) + rest);
      PrependTwice([us[0]], us[1..], Translate(rest, true));
      assert us == [us[0]] + us[1..];
    }
  }

  lemma PrependNothing(r: Option<seq<int>>)
    ensures Prepend([], r) == r
  {
    if r.Just? {
      assert [] + r.value == r.value;
    }
  }

  lemma TranslateUnit(u: int, rest: seq<int>)
    requires 0 <= u < 0x10000
    ensures Translate([BACKSLASH, LETTER_U] + Hex4(u) + rest, true) == Prepend([u], Translate(rest, true))
  {
    hide Hex4, HexNumber;
    Hex4Number(u);
    var t := [BACKSLASH, LETTER_U] + Hex4(u) + rest;
    assert t[1..] == [LETTER_U] + (Hex4(u) + rest);
    assert t[1..][1..] == Hex4(u) + rest;
    assert (Hex4(u) + rest)[0] == Hex4(u)[0] && IsHexDigit(Hex4(u)[0]);
    assert AfterMarker(t[1..]) == Hex4(u) + rest;
    assert (Hex4(u) + rest)[..4] == Hex4(u) && (Hex4(u) + rest)[4..] == rest;
  }

  /** What the translation leaves of one emitted scalar value. */
  function Translated(c: int): seq<int>
    requires ScalarValue(c)
  {
    if Short(c) then ShortEscape(c) else Utf16Of(c)
  }

  lemma TranslateScalar(c: int, rest: seq<int>)
    requires ScalarValue(c)
    ensures Translate(Scalar(c) + rest, true) == Prepend(Translated(c), Translate(rest, true))
  {
    if Short(c) {
      var t := ShortEscape(c) + rest;
      var d := ShortEscape(c)[1];
      assert t[1..] == [d] + rest && ([d] + rest)[1..] == rest;
      assert Translate([d] + rest, false) == Prepend([d], Translate(rest, true));
      PrependTwice([BACKSLASH], [d], Translate(rest, true));
      assert [BACKSLASH] + [d] == ShortEscape(c);
    } else if c < 0x20 || c >= 0x7F {
      Utf16Units([c]);
      assert [c][1..] == [] && Utf16([c]) == Utf16Of(c);
      TranslateUnits(Utf16Of(c), rest);
    } else {
      assert ([c] + rest)[1..] == rest;
    }
  }

  /** Units that stand for themselves in a literal. */
  predicate Plain(us: seq<int>) {
    forall i | 0 <= i < |us| :: us[i] != QUOTE && us[i] != BACKSLASH && us[i] != 10 && us[i] != 13
  }

  lemma {:induction false} JavaPlain(us: seq<int>, rest: seq<int>)
    requires Plain(us)
    ensures JavaBody(us + rest) == Cons(us, JavaBody(rest))
  {
    if us == [] {
      assert us + rest == rest;
      ConsNothing(JavaBody(rest));
    } else {
      assert (us + rest)[1..] == us[1..] + rest;
      JavaPlain(us[1..], rest);
      ConsTwice([us[0]], us[1..], JavaBody(rest));
      assert us == [us[0]] + us[1..];
    }
  }

  lemma ConsNothing(r: Option<Lexed>)
    ensures Cons([], r) == r
  {
    if r.Just? {
      assert [] + r.value.value == r.value.value;
    }
  }

  lemma JavaScalar(c: int, rest: seq<int>)
    requires ScalarValue(c)
    ensures JavaBody(Translated(c) + rest) == Cons(Utf16Of(c), JavaBody(rest))
  {
    if Short(c) {
      var t := Translated(c) + rest;
      assert t[2..] == rest;
    } else {
      JavaPlain(Utf16Of(c), rest);
    }
  }

  function AllTranslated(cs: seq<int>): seq<int>
    requires ScalarValues(cs)
  {
    if cs == [] then [] else Translated(cs[0]) + AllTranslated(cs[1..])
  }

  lemma {:induction false} TranslateScalars(cs: seq<int>, rest: seq<int>)
    requires ScalarValues(cs)
    ensures Translate(Scalars(cs) + rest, true) == Prepend(AllTranslated(cs), Translate(rest, true))
  {
    hide Scalar, Translated, Translate;
    if cs == [] {
      assert Scalars(cs) + rest == rest;
      PrependNothing(Translate(rest, true));
    } else {
      assert ScalarValue(cs[0]);
      TranslateScalars(cs[1..], rest);
      TranslateScalar(cs[0], Scalars(cs[1..]) + rest);
      assert Scalars(cs) + rest == Scalar(cs[0]) + (Scalars(cs[1..]) + rest);
      PrependTwice(Translated(cs[0]), AllTranslated(cs[1..]), Translate(rest, true));
    }
  }

  lemma {:induction false} JavaScalars(cs: seq<int>, rest: seq<int>)
    requires ScalarValues(cs)
    ensures JavaBody(AllTranslated(cs) + rest) == Cons(Utf16(cs), JavaBody(rest))
  {
    hide Translated, Utf16Of, JavaBody;
    if cs == [] {
      assert AllTranslated(cs) + rest == rest;
      ConsNothing(JavaBody(rest));
    } else {
      assert ScalarValue(cs[0]);
      JavaScalars(cs[1..], rest);
      JavaScalar(cs[0], AllTranslated(cs[1..]) + rest);
      assert AllTranslated(cs) + rest == Translated(cs[0]) + (AllTranslated(cs[1..]) + rest);
      ConsTwice(Utf16Of(cs[0]), Utf16(cs[1..]), JavaBody(rest));
    }
  }

  /** The code units Java reads in the literal emitted for a valid UTF-8 constant decode to the scalar values
      the constant's bytes decode to, and the literal ends at its closing quote. */
  lemma {:induction false} JavaReadsConstant(bytes: seq<int>, tail: seq<int>)
    requires Decode(bytes).Just? && Translate(tail, true).Just?
    ensures Bytes(bytes) && ScalarValues(Decode(bytes).value)
    ensures var r := JavaLex(Literal(Java, bytes, tail));
            && r.Just? && r.value.rest == Translate(tail, true).value
            && ReadUtf16(r.value.value) == Decode(bytes)
            && r.value.value == Utf16(Decode(bytes).value)
  {
    hide Decode, Scalars, AllTranslated, Utf8, Utf16, Replace, Translate, JavaBody, ReadUtf16;
    Utf8Decode(bytes);
    var cs := Decode(bytes).value;
    ReadsUtf16(cs);
    ReplaceIsScalars(Java, cs);
    var after, end := Translate(tail, true).value, [QUOTE] + tail;
    QuoteStays(tail, after);
    TranslateScalars(cs, end);
    var u := AllTranslated(cs) + ([QUOTE] + after);
    QuoteStays(Scalars(cs) + end, after);
    assert Literal(Java, bytes, tail) == [QUOTE] + (Scalars(cs) + end);
    assert ([QUOTE] + u)[1..] == u;
    JavaScalars(cs, [QUOTE] + after);
    assert Utf16(cs) + [] == Utf16(cs);
  }

  lemma QuoteStays(t: seq<int>, after: seq<int>)
    ensures Translate([QUOTE] + t, true) == Prepend([QUOTE], Translate(t, true))
    ensures JavaBody([QUOTE] + after) == Just(Lexed([], after))
  {
    assert ([QUOTE] + t)[1..] == t && ([QUOTE] + after)[1..] == after;
  }

  // ----- C#, section 6.4.5.6 of ECMA-334

  function CSharpEscape(d: int): Option<int> {
    if d == 39 || d == QUOTE || d == BACKSLASH then Just(d)
    else if d == 48 then Just(0)
    else if d == 97 then Just(7)
    else if d == LETTER_B then Just(8)
    else if d == LETTER_F then Just(12)
    else if d == LETTER_N then Just(10)
    else if d == LETTER_R then Just(13)
    else if d == LETTER_T then Just(9)
    else if d == 118 then Just(11)
    else Nothing
  }

  predicate NewLine(c: int) {
    c == 10 || c == 13 || c == 0x85 || c == 0x2028 || c == 0x2029
  }

  /** The number of hexadecimal digits that start `t`. */
  function HexRun(t: seq<int>): (n: nat)
    ensures n <= |t| && HexDigits(t[..n]) && (n < |t| ==> !IsHexDigit(t[n]))
  {
    if t == [] || !IsHexDigit(t[0]) then 0
    else
      var n := 1 + HexRun(t[1..]);
      assert t[..n] == [t[0]] + t[1..][..n - 1];
      n
  }

  function CSharpBody(t: seq<int>): Option<Lexed>
    decreases |t|
  {
    if t == [] || NewLine(t[0]) then Nothing
    else if t[0] == QUOTE then Just(Lexed([], t[1..]))
    else if t[0] != BACKSLASH then Cons([t[0]], CSharpBody(t[1..]))
    else if |t| < 2 then Nothing
    else if CSharpEscape(t[1]).Just? then Cons([CSharpEscape(t[1]).value], CSharpBody(t[2..]))
    else if t[1] == LETTER_X then
      var n := if HexRun(t[2..]) < 4 then HexRun(t[2..]) else 4;
      if n == 0 then Nothing else Cons([HexNumber(t[2..][..n])], CSharpBody(t[2..][n..]))
    else if t[1] == LETTER_U then
      if |t| < 6 || !HexDigits(t[2..6]) then Nothing else Cons([HexNumber(t[2..6])], CSharpBody(t[6..]))
    else if t[1] == 85 then
      if |t| < 10 || !HexDigits(t[2..10]) || !ScalarValue(HexNumber(t[2..10])) then Nothing
      else Cons(Utf16Of(HexNumber(t[2..10])), CSharpBody(t[10..]))
    else Nothing
  }

  function CSharpLex(t: seq<int>): Option<Lexed> {
    if t == [] || t[0] != QUOTE then Nothing else CSharpBody(t[1..])
  }

  lemma {:induction false} CSharpUnits(us: seq<int>, rest: seq<int>)
    requires CodeUnits(us)
    ensures CSharpBody(UnitEscapes(us) + rest) == Cons(us, CSharpBody(rest))
  {
    hide CSharpBody, Hex4;
    if us == [] {
      assert UnitEscapes(us) + rest == rest;
      ConsNothing(CSharpBody(rest));
    } else {
      CSharpUnits(us[1..], rest);
      CSharpUnit(us[0], UnitEscapes(us[1..]) + rest);
      assert UnitEscapes(us) + rest == [BACKSLASH, LETTER_U] + Hex4(us[0]) + (UnitEscapes(us[1..]) + rest);
      ConsTwice([us[0]], us[1..], CSharpBody(rest));
      assert us == [us[0]] + us[1..];
    }
  }

  lemma CSharpUnit(u: int, rest: seq<int>)
    requires 0 <= u < 0x10000
    ensures CSharpBody([BACKSLASH, LETTER_U] + Hex4(u) + rest) == Cons([u], CSharpBody(rest))
  {
    hide Hex4, HexNumber;
    Hex4Number(u);
    var t := [BACKSLASH, LETTER_U] + Hex4(u) + rest;
    assert t[2..6] == Hex4(u) && t[6..] == rest;
  }

  lemma CSharpScalar(c: int, rest: seq<int>)
    requires ScalarValue(c)
    ensures CSharpBody(Scalar(c) + rest) == Cons(Utf16Of(c), CSharpBody(rest))
  {
    if Short(c) {
      assert (Scalar(c) + rest)[2..] == rest;
    } else if c < 0x20 || c >= 0x7F {
      Utf16Units([c]);
      assert [c][1..] == [] && Utf16([c]) == Utf16Of(c);
      CSharpUnits(Utf16Of(c), rest);
    } else {
      assert ([c] + rest)[1..] == rest;
    }
  }

  lemma {:induction false} CSharpScalars(cs: seq<int>, rest: seq<int>)
    requires ScalarValues(cs)
    ensures CSharpBody(Scalars(cs) + rest) == Cons(Utf16(cs), CSharpBody(rest))
  {
    hide Scalar, Utf16Of, CSharpBody;
    if cs == [] {
      assert Scalars(cs) + rest == rest;
      ConsNothing(CSharpBody(rest));
    } else {
      assert ScalarValue(cs[0]);
      CSharpScalars(cs[1..], rest);
      CSharpScalar(cs[0], Scalars(cs[1..]) + rest);
      assert Scalars(cs) + rest == Scalar(cs[0]) + (Scalars(cs[1..]) + rest);
      ConsTwice(Utf16Of(cs[0]), Utf16(cs[1..]), CSharpBody(rest));
    }
  }

  /** C# reads the same code units. */
  lemma {:induction false} CSharpReadsConstant(bytes: seq<int>, tail: seq<int>)
    requires Decode(bytes).Just?
    ensures Bytes(bytes) && ScalarValues(Decode(bytes).value)
    ensures var r := CSharpLex(Literal(CSharp, bytes, tail));
            && r.Just? && r.value.rest == tail
            && ReadUtf16(r.value.value) == Decode(bytes)
            && r.value.value == Utf16(Decode(bytes).value)
  {
    hide Decode, Scalars, Utf8, Utf16, Replace, ReadUtf16;
    Utf8Decode(bytes);
    var cs := Decode(bytes).value;
    ReadsUtf16(cs);
    ReplaceIsScalars(CSharp, cs);
    var end := [QUOTE] + tail;
    assert Literal(CSharp, bytes, tail)[1..] == Scalars(cs) + end;
    CSharpScalars(cs, end);
    assert end[1..] == tail && Utf16(cs) + [] == Utf16(cs);
    assert CSharpBody(end) == Just(Lexed([], tail));
  }

  // ----- C++, section 5.13.3 of ISO/IEC 14882:2017

  function CppEscape(d: int): Option<int> {
    if d == 39 || d == QUOTE || d == 63 || d == BACKSLASH then Just(d)
    else if d == 97 then Just(7)
    else if d == LETTER_B then Just(8)
    else if d == LETTER_F then Just(12)
    else if d == LETTER_N then Just(10)
    else if d == LETTER_R then Just(13)
    else if d == LETTER_T then Just(9)
    else if d == 118 then Just(11)
    else Nothing
  }

  /** A hexadecimal escape takes every hexadecimal digit that follows; a value that does not fit a
      character has no meaning here. */
  function CppBody(t: seq<int>): (r: Option<Lexed>)
    ensures r.Just? ==> |r.value.rest| < |t|
    decreases |t|
  {
    if t == [] || t[0] == 10 then Nothing
    else if t[0] == QUOTE then Just(Lexed([], t[1..]))
    else if t[0] != BACKSLASH then Cons([t[0]], CppBody(t[1..]))
    else if |t| < 2 then Nothing
    else if CppEscape(t[1]).Just? then Cons([CppEscape(t[1]).value], CppBody(t[2..]))
    else if t[1] == LETTER_X then
      var n := HexRun(t[2..]);
      if n == 0 || HexNumber(t[2..][..n]) >= 0x100 then Nothing
      else Cons([HexNumber(t[2..][..n])], CppBody(t[2..][n..]))
    else
      var n := OctalLength(t[1..], false);
      if n == 0 || OctalNumber(t[1..][..n]) >= 0x100 then Nothing
      else Cons([OctalNumber(t[1..][..n])], CppBody(t[1..][n..]))
  }

  function CppLex(t: seq<int>): Option<Lexed> {
    if t == [] || t[0] != QUOTE then Nothing else CppBody(t[1..])
  }

  /** Bytes emitted as `\xHH`: those that are not printable ASCII and have no escape of one letter. */
  predicate HexEscaped(b: int) {
    (b < 0x20 && b !in [8, 9, 10, 12, 13]) || b >= 0x7F
  }

  /** Some byte emitted as `\xHH` is directly followed by a literal hexadecimal digit. */
  predicate DigitAfterEscape(bytes: seq<int>) {
    exists i | 0 <= i < |bytes| - 1 :: HexEscaped(bytes[i]) && IsHexDigit(bytes[i + 1])
  }

  function CppByte(b: int): seq<int>
    requires 0 <= b < 0x100
  {
    if Short(b) then ShortEscape(b) else if HexEscaped(b) then [BACKSLASH, LETTER_X] + Hex2(b) else [b]
  }

  function CppBytes(bs: seq<int>): seq<int>
    requires Bytes(bs)
  {
    if bs == [] then [] else CppByte(bs[0]) + CppBytes(bs[1..])
  }

  lemma ByteEscapesCons(b: int, bs: seq<int>)
    requires Bytes(bs) && 0 <= b < 0x100
    ensures Bytes([b] + bs) && ByteEscapes([b] + bs) == [BACKSLASH, LETTER_X] + Hex2(b) + ByteEscapes(bs)
    ensures CppBytes([b] + bs) == CppByte(b) + CppBytes(bs)
  {
    hide Hex2, CppByte;
    assert ([b] + bs)[1..] == bs;
  }

  lemma NoBytes()
    ensures Bytes([]) && ByteEscapes([]) == [] && CppBytes([]) == []
  {
  }

  lemma RunParts(bs: seq<int>, n: nat)
    requires Bytes(bs) && n <= Run(bs)
    ensures Bytes(bs[..n]) && Bytes(bs[n..])
    ensures n > 0 ==> 0x80 <= bs[0] < 0x100 && Bytes(bs[1..]) && n - 1 <= Run(bs[1..])
    ensures n > 0 ==> bs == [bs[0]] + bs[1..] && bs[..n] == [bs[0]] + bs[1..][..n - 1] && bs[n..] == bs[1..][n - 1..]
  {
    hide Run;
    BytesParts(bs, n);
    if n > 0 {
      BytesParts(bs, 1);
      RunStarts(bs);
      assert bs[..n] == [bs[0]] + bs[1..][..n - 1];
      assert bs[n..] == bs[1..][n - 1..];
    }
  }

  lemma BytesParts(bs: seq<int>, n: nat)
    requires Bytes(bs) && n <= |bs|
    ensures Bytes(bs[..n]) && Bytes(bs[n..])
  {
    assert forall i | 0 <= i < |bs[n..]| :: bs[n..][i] == bs[n + i];
  }

  lemma RunStarts(bs: seq<int>)
    requires Run(bs) > 0
    ensures bs[0] >= 0x80 && Run(bs) == 1 + Run(bs[1..])
  {
  }

  lemma {:induction false} RunAsBytes(bs: seq<int>, n: nat)
    requires Bytes(bs) && n <= Run(bs)
    ensures CppBytes(bs) == ByteEscapes(bs[..n]) + CppBytes(bs[n..])
  {
    hide CppByte, CppBytes, ByteEscapes, Hex2, Run;
    RunParts(bs, n);
    if n == 0 {
      NoBytes();
      assert bs[..0] == [] && bs[0..] == bs;
    } else {
      var b, rest := bs[0], bs[1..];
      RunParts(rest, n - 1);
      RunAsBytes(rest, n - 1);
      ByteEscapesCons(b, rest);
      ByteEscapesCons(b, rest[..n - 1]);
      HighByte(b);
    }
  }

  lemma HighByte(b: int)
    requires 0x80 <= b < 0x100
    ensures CppByte(b) == [BACKSLASH, LETTER_X] + Hex2(b)
  {
  }

  lemma OneByteReplaced(b: int)
    requires 0 <= b < 0x80
    ensures CppByte(b) == if Matched(Cpp, b) then Formatter(Cpp, [b]) else [b]
  {
    hide Hex2;
    var hex := [BACKSLASH, LETTER_X] + Hex2(b);
    assert [b][1..] == [] && ByteEscapes([]) == [];
    assert ByteEscapes([b]) == hex + [] == hex;
  }

  lemma {:induction false} ReplaceIsBytes(bs: seq<int>)
    requires Bytes(bs)
    ensures Replace(Cpp, bs) == CppBytes(bs)
    decreases |bs|
  {
    hide CppByte, Hex2, Formatter, ByteEscapes;
    if bs != [] {
      if bs[0] < 0x80 {
        ReplaceIsBytes(bs[1..]);
        OneByteReplaced(bs[0]);
        assert bs[..1] == [bs[0]];
      } else {
        var n := Run(bs);
        ReplaceIsBytes(bs[n..]);
        RunAsBytes(bs, n);
        RunReplacedByBytes(bs[..n]);
      }
    }
  }

  lemma RunReplacedByBytes(m: seq<int>)
    requires Bytes(m) && m != [] && m[0] >= 0x80
    ensures Formatter(Cpp, m) == ByteEscapes(m)
  {
  }

  lemma {:induction false} HexRunOf(ds: seq<int>, rest: seq<int>)
    requires HexDigits(ds) && (rest != [] ==> !IsHexDigit(rest[0]))
    ensures HexRun(ds + rest) == |ds|
  {
    if ds == [] {
      assert ds + rest == rest;
    } else {
      assert (ds + rest)[1..] == ds[1..] + rest;
      HexRunOf(ds[1..], rest);
    }
  }

  lemma CppByteHead(b: int)
    requires 0 <= b < 0x100
    ensures IsHexDigit(b) ==> CppByte(b) == [b]
    ensures |CppByte(b)| > 0 && (!IsHexDigit(b) ==> !IsHexDigit(CppByte(b)[0]))
  {
  }

  /** The hexadecimal digits that start `bs` start its text, and no other digit follows them. */
  lemma {:induction false} DigitsOfText(bs: seq<int>, tail: seq<int>)
    requires Bytes(bs)
    ensures var k := HexRun(bs);
            var rest := CppBytes(bs[k..]) + [QUOTE] + tail;
            CppBytes(bs) + [QUOTE] + tail == bs[..k] + rest && !IsHexDigit(rest[0])
  {
    hide CppByte;
    if bs != [] {
      CppByteHead(bs[0]);
      if IsHexDigit(bs[0]) {
        DigitsOfText(bs[1..], tail);
        var k := HexRun(bs);
        assert bs[..k] == [bs[0]] + bs[1..][..k - 1] && bs[k..] == bs[1..][k - 1..];
        var rest := CppBytes(bs[k..]) + [QUOTE] + tail;
        calc {
          CppBytes(bs) + [QUOTE] + tail;
          [bs[0]] + (CppBytes(bs[1..]) + [QUOTE] + tail);
          [bs[0]] + (bs[1..][..k - 1] + rest);
          bs[..k] + rest;
        }
      } else {
        assert bs[0..] == bs && CppBytes(bs) == CppByte(bs[0]) + CppBytes(bs[1..]);
      }
    }
  }

  /** The escape of one byte and the digits after it. */
  lemma HexEscapeTakes(b: int, bs: seq<int>, tail: seq<int>)
    requires Bytes(bs) && 0 <= b < 0x100
    ensures var k := HexRun(bs);
            var ds := Hex2(b) + bs[..k];
            var r := CppBody([BACKSLASH, LETTER_X] + Hex2(b) + (CppBytes(bs) + [QUOTE] + tail));
            && HexDigits(ds)
            && r == if HexNumber(ds) >= 0x100 then Nothing
                    else Cons([HexNumber(ds)], CppBody(CppBytes(bs[k..]) + [QUOTE] + tail))
  {
    hide HexNumber, CppBytes, Hex2, HexRun;
    var k := HexRun(bs);
    Hex2Number(b);
    DigitsOfText(bs, tail);
    var ds, rest := Hex2(b) + bs[..k], CppBytes(bs[k..]) + [QUOTE] + tail;
    assert [BACKSLASH, LETTER_X] + Hex2(b) + (CppBytes(bs) + [QUOTE] + tail) == [BACKSLASH, LETTER_X] + (ds + rest);
    HexRunOf(ds, rest);
    assert |Hex2(b)| > 0 by { Hex2Length(b); }
    HexBody(ds, rest);
  }

  lemma Hex2Length(b: int)
    requires 0 <= b < 0x100
    ensures |Hex2(b)| == 2
  {
  }

  lemma HexBody(ds: seq<int>, rest: seq<int>)
    requires HexDigits(ds) && |ds| > 0 && HexRun(ds + rest) == |ds|
    ensures CppBody([BACKSLASH, LETTER_X] + (ds + rest))
         == if HexNumber(ds) >= 0x100 then Nothing else Cons([HexNumber(ds)], CppBody(rest))
  {
    hide HexNumber, HexRun;
    var t := [BACKSLASH, LETTER_X] + (ds + rest);
    assert t[2..] == ds + rest && (ds + rest)[..|ds|] == ds && (ds + rest)[|ds|..] == rest;
  }

  lemma DigitAfterEscapeTail(b: int, bs: seq<int>)
    ensures DigitAfterEscape([b] + bs)
       <==> (HexEscaped(b) && bs != [] && IsHexDigit(bs[0])) || DigitAfterEscape(bs)
  {
    var all := [b] + bs;
    if i :| 0 <= i < |all| - 1 && HexEscaped(all[i]) && IsHexDigit(all[i + 1]) {
      if i > 0 {
        assert HexEscaped(bs[i - 1]) && IsHexDigit(bs[i - 1 + 1]);
      }
    }
    if i :| 0 <= i < |bs| - 1 && HexEscaped(bs[i]) && IsHexDigit(bs[i + 1]) {
      assert HexEscaped(all[i + 1]) && IsHexDigit(all[i + 1 + 1]);
    }
    if HexEscaped(b) && bs != [] && IsHexDigit(bs[0]) {
      assert HexEscaped(all[0]) && IsHexDigit(all[0 + 1]);
    }
  }

  lemma {:induction false} CppReads(bs: seq<int>, tail: seq<int>)
    requires Bytes(bs)
    ensures var r := CppBody(CppBytes(bs) + [QUOTE] + tail);
            if DigitAfterEscape(bs) then r.Nothing? || |r.value.value| < |bs| else r == Just(Lexed(bs, tail))
    decreases |bs|
  {
    hide DigitAfterEscape, CppBody, HexNumber;
    if bs == [] {
      NothingToRead(tail);
    } else {
      var b, rest := bs[0], bs[1..];
      var text := CppBytes(rest) + [QUOTE] + tail;
      assert bs == [b] + rest;
      DigitAfterEscapeTail(b, rest);
      assert CppBytes(bs) + [QUOTE] + tail == CppByte(b) + text;
      if HexEscaped(b) {
        var k := HexRun(rest);
        HexEscapeTakes(b, rest, tail);
        CppReads(rest[k..], tail);
        assert CppByte(b) + text == [BACKSLASH, LETTER_X] + Hex2(b) + text;
        if k == 0 {
          Hex2Number(b);
          assert rest[..0] == [] && Hex2(b) + [] == Hex2(b) && rest[0..] == rest;
        }
      } else {
        CppReads(rest, tail);
        CppLiteralByte(b, text);
      }
    }
  }

  lemma NothingToRead(tail: seq<int>)
    ensures CppBody(CppBytes([]) + [QUOTE] + tail) == Just(Lexed([], tail)) && !DigitAfterEscape([])
  {
    var t := CppBytes([]) + [QUOTE] + tail;
    assert t[0] == QUOTE && t[1..] == tail;
  }

  lemma CppLiteralByte(b: int, text: seq<int>)
    requires 0 <= b < 0x100 && !HexEscaped(b)
    ensures CppBody(CppByte(b) + text) == Cons([b], CppBody(text))
  {
    var t := CppByte(b) + text;
    if Short(b) {
      assert t[2..] == text;
    } else {
      assert t[1..] == text;
    }
  }

  /** C++ reads the literal back as the bytes of the constant exactly when no escaped byte is directly
      followed by a hexadecimal digit. */
  lemma {:induction false} CppReadsConstantExactly(bytes: seq<int>, tail: seq<int>)
    requires Bytes(bytes)
    ensures CppLex(Literal(Cpp, bytes, tail)) == Just(Lexed(bytes, tail)) <==> !DigitAfterEscape(bytes)
  {
    hide CppBody, Replace, CppBytes;
    ReplaceIsBytes(bytes);
    CppReads(bytes, tail);
    assert Literal(Cpp, bytes, tail)[1..] == CppBytes(bytes) + [QUOTE] + tail;
  }

  predicate Printable(c: int) {
    0x20 <= c < 0x7F
  }

  predicate PlainAscii(bs: seq<int>) {
    forall i | 0 <= i < |bs| :: Printable(bs[i]) && bs[i] != QUOTE && bs[i] != BACKSLASH
  }

  /** What is emitted between the quotes is printable ASCII, whatever the constant holds, and printable
      characters other than the quote and the backslash stand for themselves. */
  lemma {:induction false} EmitsPrintable(t: Target, bytes: seq<int>)
    requires Bytes(bytes) && (!t.Cpp? ==> Decode(bytes).Just?)
    ensures forall c | c in Replace(t, bytes) :: Printable(c)
    ensures PlainAscii(if t.Cpp? then bytes else Decode(bytes).value) ==>
              Replace(t, bytes) == if t.Cpp? then bytes else Decode(bytes).value
  {
    hide Replace, Decode, Utf8, PlainAscii;
    if t.Cpp? {
      ReplaceIsBytes(bytes);
      BytesArePrintable(bytes);
    } else {
      Utf8Decode(bytes);
      ReplaceIsScalars(t, Decode(bytes).value);
      ScalarsArePrintable(Decode(bytes).value);
    }
  }

  lemma {:induction false} BytesArePrintable(bs: seq<int>)
    requires Bytes(bs)
    ensures forall c | c in CppBytes(bs) :: Printable(c)
    ensures PlainAscii(bs) ==> CppBytes(bs) == bs
  {
    hide CppByte;
    if bs != [] {
      BytesArePrintable(bs[1..]);
      ByteIsPrintable(bs[0]);
      assert bs == [bs[0]] + bs[1..];
      assert PlainAscii(bs) ==> PlainAscii(bs[1..]);
    }
  }

  lemma ByteIsPrintable(b: int)
    requires 0 <= b < 0x100
    ensures forall c | c in CppByte(b) :: Printable(c)
    ensures Printable(b) && b != QUOTE && b != BACKSLASH ==> CppByte(b) == [b]
  {
  }

  lemma {:induction false} ScalarsArePrintable(cs: seq<int>)
    requires ScalarValues(cs)
    ensures forall c | c in Scalars(cs) :: Printable(c)
    ensures PlainAscii(cs) ==> Scalars(cs) == cs
  {
    hide Scalar;
    if cs != [] {
      assert ScalarValue(cs[0]);
      ScalarsArePrintable(cs[1..]);
      ScalarIsPrintable(cs[0]);
      assert cs == [cs[0]] + cs[1..];
      assert PlainAscii(cs) ==> PlainAscii(cs[1..]);
    }
  }

  lemma ScalarIsPrintable(c: int)
    requires ScalarValue(c)
    ensures forall d | d in Scalar(c) :: Printable(d)
    ensures Printable(c) && c != QUOTE && c != BACKSLASH ==> Scalar(c) == [c]
  {
    if !Short(c) && (c < 0x20 || c >= 0x7F) {
      Utf16Units([c]);
      EscapesArePrintable(Utf16([c]));
    }
  }

  lemma {:induction false} EscapesArePrintable(us: seq<int>)
    requires CodeUnits(us)
    ensures forall d | d in UnitEscapes(us) :: Printable(d)
  {
    if us != [] {
      EscapesArePrintable(us[1..]);
      assert forall d | d in Hex4(us[0]) :: Printable(d);
    }
  }

  /** The text `e-acute, a` in UTF-8 is one C++ reads differently. */
  lemma AccentThenDigit(tail: seq<int>)
    ensures CppLex(Literal(Cpp, [0xC3, 0xA9, 97], tail)) != Just(Lexed([0xC3, 0xA9, 97], tail))
  {
    var bytes := [0xC3, 0xA9, 97];
    assert HexEscaped(bytes[1]) && IsHexDigit(bytes[1 + 1]);
    CppReadsConstantExactly(bytes, tail);
  }
}
