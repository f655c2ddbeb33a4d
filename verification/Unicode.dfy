/** UTF-8 (section 3 and the byte syntax of section 4 of RFC 3629) and UTF-16 (section 2 of RFC 2781). */
module Unicode {
  import opened Types

  predicate ScalarValue(c: int) {
    0 <= c <= 0x10FFFF && !(0xD800 <= c <= 0xDFFF)
  }

  predicate ScalarValues(cs: seq<int>) {
    forall i | 0 <= i < |cs| :: ScalarValue(cs[i])
  }

  function Utf8Of(c: int): (r: seq<int>)
    requires ScalarValue(c)
    ensures 1 <= |r| <= 4 && forall i | 0 <= i < |r| :: 0 <= r[i] < 0x100 && (r[i] < 0x80 <==> c < 0x80)
  {
    if c < 0x80 then [c]
    else if c < 0x800 then [0xC0 + c / 64, 0x80 + c % 64]
    else if c < 0x10000 then [0xE0 + c / 64 / 64, 0x80 + c / 64 % 64, 0x80 + c % 64]
    else [0xF0 + c / 64 / 64 / 64, 0x80 + c / 64 / 64 % 64, 0x80 + c / 64 % 64, 0x80 + c % 64]
  }

  function Utf8(cs: seq<int>): seq<int>
    requires ScalarValues(cs)
  {
    if cs == [] then [] else Utf8Of(cs[0]) + Utf8(cs[1..])
  }

  /** One code unit, or a surrogate pair. */
  function Utf16Of(c: int): seq<int>
    requires ScalarValue(c)
  {
    if c < 0x10000 then [c] else [0xD800 + (c - 0x10000) / 1024, 0xDC00 + (c - 0x10000) % 1024]
  }

  function Utf16(cs: seq<int>): seq<int>
    requires ScalarValues(cs)
  {
    if cs == [] then [] else Utf16Of(cs[0]) + Utf16(cs[1..])
  }

  /** The code points `us` encodes: a high unit from D800 to DBFF has to be followed by a low unit from DC00
      to DFFF, ten bits of the code point less 10000 each; a low unit alone is an error. */
  function ReadUtf16(us: seq<int>): Option<seq<int>> {
    if us == [] then Just([])
    else if 0xD800 <= us[0] < 0xDC00 then
      if |us| < 2 || !(0xDC00 <= us[1] < 0xE000) then Nothing
      else
        var rest := ReadUtf16(us[2..]);
        if rest.Nothing? then Nothing
        else Just([0x10000 + 0x400 * (us[0] - 0xD800) + (us[1] - 0xDC00)] + rest.value)
    else if 0xDC00 <= us[0] < 0xE000 then Nothing
    else
      var rest := ReadUtf16(us[1..]);
      if rest.Nothing? then Nothing else Just([us[0]] + rest.value)
  }

  lemma ReadsOneUtf16(c: int, rest: seq<int>)
    requires ScalarValue(c)
    ensures ReadUtf16(Utf16Of(c) + rest)
         == if ReadUtf16(rest).Nothing? then Nothing else Just([c] + ReadUtf16(rest).value)
  {
    var us := Utf16Of(c) + rest;
    if c < 0x10000 {
      assert us[1..] == rest;
    } else {
      assert us[2..] == rest;
    }
  }

  /** Reading inverts encoding: the code units of a text stand for that text. */
  lemma {:induction false} ReadsUtf16(cs: seq<int>)
    requires ScalarValues(cs)
    ensures ReadUtf16(Utf16(cs)) == Just(cs)
  {
    hide ReadUtf16, Utf16Of;
    if cs == [] {
      ReadsNothing();
    } else {
      assert ScalarValue(cs[0]);
      ReadsUtf16(cs[1..]);
      ReadsOneUtf16(cs[0], Utf16(cs[1..]));
      assert [cs[0]] + cs[1..] == cs;
    }
  }

  lemma ReadsNothing()
    ensures ReadUtf16([]) == Just([])
  {
  }

  predicate Tail(b: int) {
    0x80 <= b <= 0xBF
  }

  /** Six more bits, from a tail byte. */
  function Join(high: int, tail: int): int {
    high * 64 + (tail - 0x80)
  }

  lemma JoinSplits(c: int, high: int, tail: int)
    requires Tail(tail) && high >= 0
    ensures c == Join(high, tail) <==> c / 64 == high && c % 64 == tail - 0x80
  {
  }

  /** The code point at the start of `b` and the number of its bytes, if they follow the syntax. */
  function DecodeOne(b: seq<int>): Option<(int, nat)> {
    if |b| >= 1 && 0 <= b[0] <= 0x7F then Just((b[0], 1))
    else if |b| >= 2 && 0xC2 <= b[0] <= 0xDF && Tail(b[1]) then
      Just((Join(b[0] - 0xC0, b[1]), 2))
    else if |b| >= 3 && 0xE0 <= b[0] <= 0xEF && Tail(b[1]) && Tail(b[2])
            && (b[0] == 0xE0 ==> b[1] >= 0xA0) && (b[0] == 0xED ==> b[1] <= 0x9F) then
      Just((Join(Join(b[0] - 0xE0, b[1]), b[2]), 3))
    else if |b| >= 4 && 0xF0 <= b[0] <= 0xF4 && Tail(b[1]) && Tail(b[2]) && Tail(b[3])
            && (b[0] == 0xF0 ==> b[1] >= 0x90) && (b[0] == 0xF4 ==> b[1] <= 0x8F) then
      Just((Join(Join(Join(b[0] - 0xF0, b[1]), b[2]), b[3]), 4))
    else Nothing
  }

  function Decode(b: seq<int>): Option<seq<int>> {
    if b == [] then Just([])
    else
      var one := DecodeOne(b);
      if one.Nothing? then Nothing
      else
        var rest := Decode(b[one.value.1..]);
        if rest.Nothing? then Nothing else Just([one.value.0] + rest.value)
  }

  lemma DecodeOneReads(c: int, rest: seq<int>)
    requires ScalarValue(c)
    ensures DecodeOne(Utf8Of(c) + rest) == Just((c, |Utf8Of(c)|))
  {
    hide Join;
    var b := Utf8Of(c) + rest;
    assert forall i | 0 <= i < |Utf8Of(c)| :: b[i] == Utf8Of(c)[i];
    JoinSplits(c, c / 64, 0x80 + c % 64);
    if c >= 0x800 {
      JoinSplits(c / 64, c / 64 / 64, 0x80 + c / 64 % 64);
    }
    if c >= 0x10000 {
      JoinSplits(c / 64 / 64, c / 64 / 64 / 64, 0x80 + c / 64 / 64 % 64);
    }
  }

  lemma DecodeOneIsUtf8(b: seq<int>)
    requires DecodeOne(b).Just?
    ensures var (c, n) := DecodeOne(b).value;
            ScalarValue(c) && n <= |b| && b[..n] == Utf8Of(c)
  {
    if b[0] <= 0x7F {
    } else if b[0] <= 0xDF {
      TwoBytes(b[0], b[1]);
      assert b[..2] == [b[0], b[1]];
    } else if b[0] <= 0xEF {
      ThreeBytes(b[0], b[1], b[2]);
      assert b[..3] == [b[0], b[1], b[2]];
    } else {
      FourBytes(b[0], b[1], b[2], b[3]);
      assert b[..4] == [b[0], b[1], b[2], b[3]];
    }
  }

  lemma TwoBytes(x: int, y: int)
    requires 0xC2 <= x <= 0xDF && Tail(y)
    ensures var c := Join(x - 0xC0, y); ScalarValue(c) && Utf8Of(c) == [x, y]
  {
    JoinSplits(Join(x - 0xC0, y), x - 0xC0, y);
  }

  lemma ThreeBytes(x: int, y: int, z: int)
    requires 0xE0 <= x <= 0xEF && Tail(y) && Tail(z) && (x == 0xE0 ==> y >= 0xA0) && (x == 0xED ==> y <= 0x9F)
    ensures var c := Join(Join(x - 0xE0, y), z); ScalarValue(c) && Utf8Of(c) == [x, y, z]
  {
    var h := Join(x - 0xE0, y);
    JoinSplits(h, x - 0xE0, y);
    JoinSplits(Join(h, z), h, z);
  }

  lemma FourBytes(x: int, y: int, z: int, w: int)
    requires 0xF0 <= x <= 0xF4 && Tail(y) && Tail(z) && Tail(w) && (x == 0xF0 ==> y >= 0x90)
             && (x == 0xF4 ==> y <= 0x8F)
    ensures var c := Join(Join(Join(x - 0xF0, y), z), w); ScalarValue(c) && Utf8Of(c) == [x, y, z, w]
  {
    var g := Join(x - 0xF0, y);
    var h := Join(g, z);
    JoinSplits(g, x - 0xF0, y);
    JoinSplits(h, g, z);
    JoinSplits(Join(h, w), h, w);
  }

  /** The valid byte strings are exactly the encodings, and decoding inverts encoding. */
  lemma {:induction false} DecodeUtf8(cs: seq<int>)
    requires ScalarValues(cs)
    ensures Decode(Utf8(cs)) == Just(cs)
  {
    hide DecodeOne, Utf8Of;
    if cs != [] {
      assert ScalarValue(cs[0]);
      DecodeUtf8(cs[1..]);
      DecodeOneReads(cs[0], Utf8(cs[1..]));
      assert [cs[0]] + cs[1..] == cs;
      assert Utf8(cs)[|Utf8Of(cs[0])|..] == Utf8(cs[1..]);
    }
  }

  lemma {:induction false} Utf8Decode(b: seq<int>)
    requires Decode(b).Just?
    ensures ScalarValues(Decode(b).value) && Utf8(Decode(b).value) == b
    decreases |b|
  {
    hide DecodeOne, Utf8Of;
    if b != [] {
      DecodeOneIsUtf8(b);
      var (c, n) := DecodeOne(b).value;
      Utf8Decode(b[n..]);
      assert b == b[..n] + b[n..];
    }
  }

  lemma {:induction false} Utf8Concat(xs: seq<int>, ys: seq<int>)
    requires ScalarValues(xs) && ScalarValues(ys)
    ensures ScalarValues(xs + ys) && Utf8(xs + ys) == Utf8(xs) + Utf8(ys)
    ensures Utf16(xs + ys) == Utf16(xs) + Utf16(ys)
  {
    hide Utf8Of, Utf16Of, ScalarValue;
    if xs == [] {
      assert xs + ys == ys;
    } else {
      Utf8Concat(xs[1..], ys);
      assert (xs + ys)[1..] == xs[1..] + ys && (xs + ys)[0] == xs[0];
    }
  }
}
