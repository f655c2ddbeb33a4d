/** String constants in the generated sources: the escaping the three back ends apply to the UTF-8 bytes
    of a constant. Text is a sequence of character codes. */
module StringConstants {
  import opened Unicode

  const QUOTE := 34
  const BACKSLASH := 92
  const SLASH := 47
  const LETTER_B := 98
  const LETTER_F := 102
  const LETTER_N := 110
  const LETTER_R := 114
  const LETTER_T := 116
  const LETTER_U := 117
  const LETTER_X := 120

  lemma CharacterCodes()
    ensures QUOTE == '"' as int && BACKSLASH == '\\' as int && SLASH == '/' as int
    ensures LETTER_B == 'b' as int && LETTER_F == 'f' as int && LETTER_N == 'n' as int && LETTER_R == 'r' as int
    ensures LETTER_T == 't' as int && LETTER_U == 'u' as int && LETTER_X == 'x' as int
  {
  }

  datatype Target = Java | CSharp | Cpp

  // ----- numbers in hexadecimal

  /** A lower-case digit. */
  function HexDigit(n: int): (d: int)
    requires 0 <= n < 16
  {
    if n < 10 then 48 + n else 87 + n
  }

  lemma LowerCaseDigits(n: int)
    requires 0 <= n < 16
    ensures HexDigit(n) == "0123456789abcdef"[n] as int
  {
  }

  predicate IsHexDigit(d: int) {
    48 <= d <= 57 || 65 <= d <= 70 || 97 <= d <= 102
  }

  function HexValue(d: int): (n: int)
    requires IsHexDigit(d)
    ensures 0 <= n < 16
  {
    if d <= 57 then d - 48 else if d <= 70 then d - 55 else d - 87
  }

  predicate HexDigits(ds: seq<int>) {
    forall i | 0 <= i < |ds| :: IsHexDigit(ds[i])
  }

  /** The number written by `ds`, most significant digit first. */
  function HexNumber(ds: seq<int>): (n: int)
    requires HexDigits(ds)
    ensures n >= 0
  {
    if ds == [] then 0 else 16 * HexNumber(ds[..|ds| - 1]) + HexValue(ds[|ds| - 1])
  }

  function Hex2(b: int): seq<int>
    requires 0 <= b < 0x100
  {
    [HexDigit(b / 16), HexDigit(b % 16)]
  }

  function Hex4(u: int): seq<int>
    requires 0 <= u < 0x10000
  {
    Hex2(u / 256) + Hex2(u % 256)
  }

  lemma HexDigitValue(n: int)
    requires 0 <= n < 16
    ensures IsHexDigit(HexDigit(n)) && HexValue(HexDigit(n)) == n
  {
  }

  lemma Hex2Number(b: int)
    requires 0 <= b < 0x100
    ensures HexDigits(Hex2(b)) && HexNumber(Hex2(b)) == b
  {
    HexDigitValue(b / 16);
    HexDigitValue(b % 16);
    HexNumberOf2(HexDigit(b / 16), HexDigit(b % 16));
  }

  lemma HexNumberOf2(a: int, b: int)
    requires IsHexDigit(a) && IsHexDigit(b)
    ensures HexNumber([a, b]) == 16 * HexValue(a) + HexValue(b)
  {
    assert [a, b][..1] == [a] && [a][..0] == [];
    assert HexNumber([a]) == HexValue(a);
  }

  lemma Hex4Number(u: int)
    requires 0 <= u < 0x10000
    ensures |Hex4(u)| == 4 && HexDigits(Hex4(u)) && HexNumber(Hex4(u)) == u
  {
    Hex2Number(u / 256);
    Hex2Number(u % 256);
    var hi, lo := Hex2(u / 256), Hex2(u % 256);
    HexNumberOf2(lo[0], lo[1]);
    var ds := hi + lo;
    assert ds[..3] == hi + [lo[0]] && (hi + [lo[0]])[..2] == hi;
    assert HexNumber(ds) == 16 * HexNumber(hi + [lo[0]]) + HexValue(lo[1]);
    assert HexNumber(hi + [lo[0]]) == 16 * HexNumber(hi) + HexValue(lo[0]);
  }

  // ----- the replacement

  /** The characters the regular expression matches; a run of bytes from 80 to FF is one match. */
  predicate Matched(t: Target, b: int) {
    b == QUOTE || b == BACKSLASH || (!t.Cpp? && b == SLASH) || b < 0x20 || b == 0x7F || b >= 0x80
  }

  function Run(bytes: seq<int>): (n: nat)
    ensures n <= |bytes|
  {
    if bytes == [] || bytes[0] < 0x80 then 0 else 1 + Run(bytes[1..])
  }

  /** Characters with a one-letter escape. */
  predicate Short(b: int) {
    b == QUOTE || b == BACKSLASH || b == 8 || b == 12 || b == 10 || b == 13 || b == 9
  }

  function ShortEscape(b: int): seq<int>
    requires Short(b)
  {
    if b == QUOTE then [BACKSLASH, QUOTE]
    else if b == BACKSLASH then [BACKSLASH, BACKSLASH]
    else if b == 8 then [BACKSLASH, LETTER_B]
    else if b == 12 then [BACKSLASH, LETTER_F]
    else if b == 10 then [BACKSLASH, LETTER_N]
    else if b == 13 then [BACKSLASH, LETTER_R]
    else [BACKSLASH, LETTER_T]
  }

  predicate CodeUnits(us: seq<int>) {
    forall i | 0 <= i < |us| :: 0 <= us[i] < 0x10000
  }

  /** `\uXXXX` for each UTF-16 code unit. */
  function UnitEscapes(us: seq<int>): seq<int>
    requires CodeUnits(us)
  {
    if us == [] then [] else [BACKSLASH, LETTER_U] + Hex4(us[0]) + UnitEscapes(us[1..])
  }

  /** `\xXX` for each byte. */
  function ByteEscapes(bs: seq<int>): seq<int>
    requires Bytes(bs)
  {
    if bs == [] then [] else [BACKSLASH, LETTER_X] + Hex2(bs[0]) + ByteEscapes(bs[1..])
  }

  predicate Bytes(bs: seq<int>) {
    forall i | 0 <= i < |bs| :: 0 <= bs[i] < 0x100
  }

  /** `utf_to_utf`; of no concern for bytes that are not UTF-8. */
  function Units(m: seq<int>): (us: seq<int>)
    ensures CodeUnits(us)
  {
    if Decode(m).Nothing? then []
    else
      Utf8Decode(m);
      Utf16Units(Decode(m).value);
      Utf16(Decode(m).value)
  }

  lemma {:induction false} Utf16Units(cs: seq<int>)
    requires ScalarValues(cs)
    ensures CodeUnits(Utf16(cs))
  {
    if cs != [] {
      Utf16Units(cs[1..]);
    }
  }

  /** The escape string formatters. */
  function Formatter(t: Target, m: seq<int>): seq<int>
    requires Bytes(m)
  {
    if |m| == 1 && Short(m[0]) then ShortEscape(m[0])
    else if !t.Cpp? && m == [SLASH] then [SLASH]
    else if t.Cpp? then ByteEscapes(m)
    else UnitEscapes(Units(m))
  }

  /** `regex_replace` over the bytes of the constant. */
  function Replace(t: Target, bytes: seq<int>): seq<int>
    requires Bytes(bytes)
    decreases |bytes|
  {
    if bytes == [] then []
    else if !Matched(t, bytes[0]) then [bytes[0]] + Replace(t, bytes[1..])
    else
      var n := if bytes[0] < 0x80 then 1 else Run(bytes);
      Formatter(t, bytes[..n]) + Replace(t, bytes[n..])
  }

  /** The emitted literal and what follows it on its line. */
  function Literal(t: Target, bytes: seq<int>, tail: seq<int>): seq<int>
    requires Bytes(bytes)
  {
    [QUOTE] + Replace(t, bytes) + [QUOTE] + tail
  }

  // ----- Java and C#: the replacement scalar value by scalar value

  function Scalar(c: int): seq<int>
    requires ScalarValue(c)
  {
    if Short(c) then ShortEscape(c)
    else if c < 0x20 || c >= 0x7F then
      Utf16Units([c]);
      UnitEscapes(Utf16([c]))
    else [c]
  }

  function Scalars(cs: seq<int>): seq<int>
    requires ScalarValues(cs)
  {
    if cs == [] then [] else Scalar(cs[0]) + Scalars(cs[1..])
  }

  lemma CodeUnitsConcat(xs: seq<int>, ys: seq<int>)
    requires CodeUnits(xs + ys)
    ensures CodeUnits(xs) && CodeUnits(ys)
    ensures xs != [] ==> CodeUnits(xs[1..] + ys) && xs + ys == [xs[0]] + (xs[1..] + ys)
  {
    assert forall i | 0 <= i < |xs| :: xs[i] == (xs + ys)[i];
    assert forall i | 0 <= i < |ys| :: ys[i] == (xs + ys)[|xs| + i];
    if xs != [] {
      var rest := xs[1..] + ys;
      assert xs + ys == [xs[0]] + rest;
      assert forall i | 0 <= i < |rest| :: rest[i] == (xs + ys)[i + 1];
    }
  }

  lemma UnitEscapesCons(x: int, xs: seq<int>)
    requires 0 <= x < 0x10000 && CodeUnits(xs)
    ensures CodeUnits([x] + xs)
    ensures UnitEscapes([x] + xs) == [BACKSLASH, LETTER_U] + Hex4(x) + UnitEscapes(xs)
  {
    hide Hex4;
    assert ([x] + xs)[1..] == xs;
  }

  lemma NoUnitEscapes()
    ensures CodeUnits([]) && UnitEscapes([]) == []
  {
  }

  lemma {:induction false} UnitEscapesConcat(xs: seq<int>, ys: seq<int>)
    requires CodeUnits(xs + ys)
    ensures CodeUnits(xs) && CodeUnits(ys)
    ensures UnitEscapes(xs + ys) == UnitEscapes(xs) + UnitEscapes(ys)
  {
    hide UnitEscapes, Hex4;
    CodeUnitsConcat(xs, ys);
    if xs == [] {
      NoUnitEscapes();
      assert xs + ys == ys;
    } else {
      var x, rest := xs[0], xs[1..];
      UnitEscapesConcat(rest, ys);
      UnitEscapesCons(x, rest);
      UnitEscapesCons(x, rest + ys);
      assert [x] + rest == xs;
    }
  }

  predicate HighScalars(cs: seq<int>) {
    forall i | 0 <= i < |cs| :: cs[i] >= 0x80
  }

  lemma {:induction false} HighScalarsEscape(cs: seq<int>)
    requires ScalarValues(cs) && HighScalars(cs)
    ensures Units(Utf8(cs)) == Utf16(cs) && UnitEscapes(Units(Utf8(cs))) == Scalars(cs)
    ensures Run(Utf8(cs)) == |Utf8(cs)|
  {
    hide Utf8Of, UnitEscapes;
    DecodeUtf8(cs);
    if cs == [] {
      NoUnits();
    } else {
      HighScalarsEscape(cs[1..]);
      DecodeUtf8(cs[1..]);
      Utf16Units(cs);
      assert [cs[0]][1..] == [] && Utf16([cs[0]]) == Utf16Of(cs[0]);
      UnitEscapesConcat(Utf16Of(cs[0]), Utf16(cs[1..]));
      RunGrows(Utf8Of(cs[0]), Utf8(cs[1..]));
    }
  }

  lemma NoUnits()
    ensures UnitEscapes([]) == []
  {
  }

  lemma {:induction false} RunGrows(xs: seq<int>, ys: seq<int>)
    requires forall i | 0 <= i < |xs| :: xs[i] >= 0x80
    ensures Run(xs + ys) == |xs| + Run(ys)
  {
    if xs == [] {
      assert xs + ys == ys;
    } else {
      assert (xs + ys)[1..] == xs[1..] + ys;
      RunGrows(xs[1..], ys);
    }
  }

  /** The number of scalar values in the leading run. */
  function HighRun(cs: seq<int>): (n: nat)
    ensures n <= |cs| && HighScalars(cs[..n]) && (n < |cs| ==> cs[n] < 0x80)
  {
    if cs == [] || cs[0] < 0x80 then 0
    else
      var n := 1 + HighRun(cs[1..]);
      assert cs[..n] == [cs[0]] + cs[1..][..n - 1];
      n
  }

  lemma {:induction false} Utf8Bytes(cs: seq<int>)
    requires ScalarValues(cs)
    ensures Bytes(Utf8(cs))
  {
    hide Utf8Of;
    if cs != [] {
      assert ScalarValue(cs[0]);
      Utf8Bytes(cs[1..]);
    }
  }

  lemma {:induction false} ScalarsConcat(xs: seq<int>, ys: seq<int>)
    requires ScalarValues(xs) && ScalarValues(ys)
    ensures ScalarValues(xs + ys) && Scalars(xs + ys) == Scalars(xs) + Scalars(ys)
  {
    hide Scalar, ScalarValue;
    if xs == [] {
      assert xs + ys == ys;
    } else {
      assert (xs + ys)[1..] == xs[1..] + ys && (xs + ys)[0] == xs[0];
      ScalarsConcat(xs[1..], ys);
    }
  }

  lemma {:induction false} ReplaceIsScalars(t: Target, cs: seq<int>)
    requires ScalarValues(cs) && !t.Cpp?
    ensures Bytes(Utf8(cs)) && Replace(t, Utf8(cs)) == Scalars(cs)
    decreases |cs|
  {
    Utf8Bytes(cs);
    if cs != [] {
      var bytes := Utf8(cs);
      assert ScalarValue(cs[0]);
      if cs[0] < 0x80 {
        LowScalarReplaced(t, cs);
        ReplaceIsScalars(t, cs[1..]);
      } else {
        var k := HighRun(cs);
        assert cs == cs[..k] + cs[k..];
        Utf8Concat(cs[..k], cs[k..]);
        ScalarsConcat(cs[..k], cs[k..]);
        HighScalarsEscape(cs[..k]);
        RunStops(cs[k..]);
        HighRunBytes(cs[..k]);
        RunGrows(Utf8(cs[..k]), Utf8(cs[k..]));
        var n := Run(bytes);
        assert bytes[..n] == Utf8(cs[..k]) && bytes[n..] == Utf8(cs[k..]);
        ReplaceIsScalars(t, cs[k..]);
        RunReplaced(t, bytes, cs[..k]);
      }
    }
  }

  lemma {:induction false} HighRunBytes(cs: seq<int>)
    requires ScalarValues(cs) && HighScalars(cs)
    ensures forall i | 0 <= i < |Utf8(cs)| :: Utf8(cs)[i] >= 0x80
    ensures cs != [] ==> Utf8(cs) != []
  {
    hide Utf8Of;
    if cs != [] {
      assert ScalarValue(cs[0]) && cs[0] >= 0x80;
      HighRunBytes(cs[1..]);
    }
  }

  lemma RunStops(cs: seq<int>)
    requires ScalarValues(cs) && (cs != [] ==> cs[0] < 0x80)
    ensures Run(Utf8(cs)) == 0
  {
    if cs != [] {
      assert ScalarValue(cs[0]) && Utf8Of(cs[0]) == [cs[0]];
    }
  }

  lemma LowScalarReplaced(t: Target, cs: seq<int>)
    requires ScalarValues(cs) && cs != [] && cs[0] < 0x80 && !t.Cpp? && Bytes(Utf8(cs))
    ensures Bytes(Utf8(cs[1..])) && Replace(t, Utf8(cs)) == Scalar(cs[0]) + Replace(t, Utf8(cs[1..]))
  {
    hide UnitEscapes, Decode;
    var c, bytes := cs[0], Utf8(cs);
    assert ScalarValue(c) && Utf8Of(c) == [c];
    Utf8Bytes(cs[1..]);
    assert bytes == [c] + Utf8(cs[1..]);
    assert bytes[..1] == [c] && bytes[1..] == Utf8(cs[1..]);
    DecodeUtf8([c]);
    assert [c][1..] == [] && Utf8([c]) == [c] && Utf16([c]) == [c];
  }

  lemma RunReplaced(t: Target, bytes: seq<int>, cs: seq<int>)
    requires Bytes(bytes) && ScalarValues(cs) && HighScalars(cs) && cs != [] && !t.Cpp?
    requires Run(bytes) == |Utf8(cs)| && bytes[..Run(bytes)] == Utf8(cs)
    requires UnitEscapes(Units(Utf8(cs))) == Scalars(cs)
    ensures Replace(t, bytes) == Scalars(cs) + Replace(t, bytes[Run(bytes)..])
  {
    hide UnitEscapes, Units, Scalars, Utf8, Run;
    HighRunBytes(cs);
    assert bytes[0] == bytes[..Run(bytes)][0];
  }
}
