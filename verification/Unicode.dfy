/** UTF-8 (section 3 of RFC 3629) and UTF-16 (section 2 of RFC 2781), as far as the strict conversions
    of src/common/Utf8.h promise them. */
module Unicode {
  import opened Text
  import opened Wrappers

  const INT_MAX: nat := 0x7FFF_FFFF

  predicate IsSurrogate(u: int) {
    0xD800 <= u <= 0xDFFF
  }

  predicate IsHigh(u: int) {
    0xD800 <= u <= 0xDBFF
  }

  predicate IsLow(u: int) {
    0xDC00 <= u <= 0xDFFF
  }

  /** A code point that is not a surrogate. */
  type Scalar = c: int | 0 <= c <= 0x10FFFF && !IsSurrogate(c)

  function Utf8Of(c: Scalar): (b: Bytes)
    ensures 1 <= |b| <= 4
  {
    if c < 0x80 then [c]
    else if c < 0x800 then [0xC0 + c / 0x40, 0x80 + c % 0x40]
    else if c < 0x1_0000 then [0xE0 + c / 0x40 / 0x40, 0x80 + c / 0x40 % 0x40, 0x80 + c % 0x40]
    else [0xF0 + c / 0x40 / 0x40 / 0x40, 0x80 + c / 0x40 / 0x40 % 0x40, 0x80 + c / 0x40 % 0x40, 0x80 + c % 0x40]
  }

  function Utf16Of(c: Scalar): (w: Wide)
    ensures 1 <= |w| <= 2
  {
    if c < 0x1_0000 then [c] else [0xD800 + (c - 0x1_0000) / 0x400, 0xDC00 + (c - 0x1_0000) % 0x400]
  }

  /** The code point of a surrogate pair. */
  function Pair(high: int, low: int): Scalar
    requires IsHigh(high) && IsLow(low)
  {
    0x1_0000 + (high - 0xD800) * 0x400 + (low - 0xDC00)
  }

  function Utf8(cs: seq<Scalar>): Bytes {
    if cs == [] then [] else Utf8Of(cs[0]) + Utf8(cs[1..])
  }

  function Utf16(cs: seq<Scalar>): Wide {
    if cs == [] then [] else Utf16Of(cs[0]) + Utf16(cs[1..])
  }

  // ---- UTF-16 ----

  predicate WellFormed(w: Wide) {
    || w == []
    || (!IsSurrogate(w[0]) && WellFormed(w[1..]))
    || (|w| >= 2 && IsHigh(w[0]) && IsLow(w[1]) && WellFormed(w[2..]))
  }

  function Scalars(w: Wide): seq<Scalar>
    requires WellFormed(w)
  {
    if w == [] then []
    else if !IsSurrogate(w[0]) then [w[0]] + Scalars(w[1..])
    else [Pair(w[0], w[1])] + Scalars(w[2..])
  }

  lemma PairSplits(c: Scalar)
    requires c >= 0x1_0000
    ensures IsHigh(Utf16Of(c)[0]) && IsLow(Utf16Of(c)[1]) && Pair(Utf16Of(c)[0], Utf16Of(c)[1]) == c
  {
  }

  lemma {:induction false} Utf16Scalars(w: Wide)
    requires WellFormed(w)
    ensures Utf16(Scalars(w)) == w
  {
    if w != [] {
      if !IsSurrogate(w[0]) {
        Utf16Scalars(w[1..]);
        assert Scalars(w)[1..] == Scalars(w[1..]);
        assert w == [w[0]] + w[1..];
      } else {
        Utf16Scalars(w[2..]);
        assert Scalars(w)[1..] == Scalars(w[2..]);
        assert w == [w[0], w[1]] + w[2..];
      }
    }
  }

  lemma {:induction false} ScalarsUtf16(cs: seq<Scalar>)
    ensures WellFormed(Utf16(cs)) && Scalars(Utf16(cs)) == cs
  {
    if cs != [] {
      ScalarsUtf16(cs[1..]);
      var w := Utf16(cs);
      assert cs == [cs[0]] + cs[1..];
      assert w[|Utf16Of(cs[0])|..] == Utf16(cs[1..]);
      assert w[0] == Utf16Of(cs[0])[0];
      if cs[0] >= 0x1_0000 {
        assert w[1] == Utf16Of(cs[0])[1];
        PairSplits(cs[0]);
      }
    }
  }

  /** `IsValidUtf16`: the platform's strict conversion also bounds the length. */
  predicate IsValidUtf16(w: Wide) {
    |w| <= INT_MAX && WellFormed(w)
  }

  // ---- UTF-8 ----

  predicate IsTail(b: int) {
    0x80 <= b <= 0xBF
  }

  function Two(b0: int, b1: int): int {
    (b0 - 0xC0) * 0x40 + (b1 - 0x80)
  }

  function Three(b0: int, b1: int, b2: int): int {
    ((b0 - 0xE0) * 0x40 + (b1 - 0x80)) * 0x40 + (b2 - 0x80)
  }

  function Four(b0: int, b1: int, b2: int, b3: int): int {
    (((b0 - 0xF0) * 0x40 + (b1 - 0x80)) * 0x40 + (b2 - 0x80)) * 0x40 + (b3 - 0x80)
  }

  /** The first character of strict UTF-8, with its length: no overlong form, no surrogate, nothing
      above U+10FFFF. */
  function FirstScalar(b: Bytes): (r: Option<(Scalar, nat)>)
    ensures r.Some? ==> 1 <= r.value.1 <= |b|
  {
    if b == [] then None
    else if b[0] < 0x80 then Some((b[0], 1))
    else if 0xC2 <= b[0] <= 0xDF && |b| >= 2 && IsTail(b[1]) then
      Some((Two(b[0], b[1]), 2))
    else if 0xE0 <= b[0] <= 0xEF && |b| >= 3 && IsTail(b[1]) && IsTail(b[2]) then
      var c := Three(b[0], b[1], b[2]);
      if c < 0x800 || IsSurrogate(c) then None else Some((c, 3))
    else if 0xF0 <= b[0] <= 0xF4 && |b| >= 4 && IsTail(b[1]) && IsTail(b[2]) && IsTail(b[3]) then
      var c := Four(b[0], b[1], b[2], b[3]);
      if c < 0x1_0000 || c > 0x10_FFFF then None else Some((c, 4))
    else None
  }

  function DecodeUtf8(b: Bytes): Option<seq<Scalar>> {
    if b == [] then Some([])
    else
      var first := FirstScalar(b);
      if first.None? then None
      else
        var more := DecodeUtf8(b[first.value.1..]);
        if more.None? then None else Some([first.value.0] + more.value)
  }

  lemma Digits(high: int, low: int)
    requires 0 <= low < 0x40
    ensures (high * 0x40 + low) / 0x40 == high && (high * 0x40 + low) % 0x40 == low
  {
  }

  lemma TwoBytes(c: Scalar, b0: Byte, b1: Byte)
    requires 0x80 <= c < 0x800
    ensures Utf8Of(c) == [b0, b1] <==> 0xC2 <= b0 <= 0xDF && IsTail(b1) && c == Two(b0, b1)
  {
    if IsTail(b1) && c == Two(b0, b1) {
      Digits(b0 - 0xC0, b1 - 0x80);
    }
  }

  lemma ThreeBytes(c: Scalar, b0: Byte, b1: Byte, b2: Byte)
    requires 0x800 <= c < 0x1_0000
    ensures Utf8Of(c) == [b0, b1, b2] <==> 0xE0 <= b0 <= 0xEF && IsTail(b1) && IsTail(b2) && c == Three(b0, b1, b2)
  {
    if IsTail(b1) && IsTail(b2) && c == Three(b0, b1, b2) {
      Digits((b0 - 0xE0) * 0x40 + (b1 - 0x80), b2 - 0x80);
      Digits(b0 - 0xE0, b1 - 0x80);
    }
  }

  lemma SameDigits(high: int, low: int, otherHigh: int, otherLow: int)
    requires 0 <= low < 0x40 && 0 <= otherLow < 0x40
    requires high * 0x40 + low == otherHigh * 0x40 + otherLow
    ensures high == otherHigh && low == otherLow
  {
  }

  lemma FourDigits(c: int, q1: int, q2: int, q3: int, r0: int, r1: int, r2: int, b0: int, b1: int, b2: int, b3: int)
    requires c == q1 * 0x40 + r0 && q1 == q2 * 0x40 + r1 && q2 == q3 * 0x40 + r2
    requires 0 <= r0 < 0x40 && 0 <= r1 < 0x40 && 0 <= r2 < 0x40
    ensures b0 == 0xF0 + q3 && b1 == 0x80 + r2 && b2 == 0x80 + r1 && b3 == 0x80 + r0 <==>
            IsTail(b1) && IsTail(b2) && IsTail(b3) && c == Four(b0, b1, b2, b3)
  {
    if IsTail(b1) && IsTail(b2) && IsTail(b3) && c == Four(b0, b1, b2, b3) {
      SameDigits(q1, r0, ((b0 - 0xF0) * 0x40 + (b1 - 0x80)) * 0x40 + (b2 - 0x80), b3 - 0x80);
      SameDigits(q2, r1, (b0 - 0xF0) * 0x40 + (b1 - 0x80), b2 - 0x80);
      SameDigits(q3, r2, b0 - 0xF0, b1 - 0x80);
    }
  }

  lemma FourBytes(c: Scalar, b0: Byte, b1: Byte, b2: Byte, b3: Byte)
    requires 0x1_0000 <= c
    ensures Utf8Of(c) == [b0, b1, b2, b3] <==>
            0xF0 <= b0 <= 0xF4 && IsTail(b1) && IsTail(b2) && IsTail(b3) && c == Four(b0, b1, b2, b3)
  {
    var q1 := c / 0x40;
    var q2 := q1 / 0x40;
    FourDigits(c, q1, q2, q2 / 0x40, c % 0x40, q1 % 0x40, q2 % 0x40, b0, b1, b2, b3);
  }

  lemma FirstScalarOf(c: Scalar, rest: Bytes)
    ensures FirstScalar(Utf8Of(c) + rest) == Some((c, |Utf8Of(c)|))
  {
    var e := Utf8Of(c);
    var b := e + rest;
    assert forall i :: 0 <= i < |e| ==> b[i] == e[i];
    if 0x80 <= c < 0x800 {
      TwoBytes(c, e[0], e[1]);
    } else if 0x800 <= c < 0x1_0000 {
      ThreeBytes(c, e[0], e[1], e[2]);
    } else if c >= 0x1_0000 {
      FourBytes(c, e[0], e[1], e[2], e[3]);
    }
  }

  lemma FirstScalarBytes(b: Bytes)
    requires FirstScalar(b).Some?
    ensures b[..FirstScalar(b).value.1] == Utf8Of(FirstScalar(b).value.0)
  {
    var (c, n) := FirstScalar(b).value;
    if n == 2 {
      TwoBytes(c, b[0], b[1]);
      assert b[..2] == [b[0], b[1]];
    } else if n == 3 {
      ThreeBytes(c, b[0], b[1], b[2]);
      assert b[..3] == [b[0], b[1], b[2]];
    } else if n == 4 {
      FourBytes(c, b[0], b[1], b[2], b[3]);
      assert b[..4] == [b[0], b[1], b[2], b[3]];
    }
  }

  lemma {:induction false} DecodeOfUtf8(cs: seq<Scalar>)
    ensures DecodeUtf8(Utf8(cs)) == Some(cs)
  {
    if cs != [] {
      FirstScalarOf(cs[0], Utf8(cs[1..]));
      assert Utf8(cs)[|Utf8Of(cs[0])|..] == Utf8(cs[1..]);
      DecodeOfUtf8(cs[1..]);
      assert cs == [cs[0]] + cs[1..];
    }
  }

  lemma Utf8Prepended(c: Scalar, cs: seq<Scalar>)
    ensures Utf8([c] + cs) == Utf8Of(c) + Utf8(cs)
  {
    assert ([c] + cs)[1..] == cs;
  }

  lemma FirstDecoded(b: Bytes) returns (first: Bytes, rest: Bytes)
    requires b != [] && DecodeUtf8(b).Some?
    ensures first + rest == b && |rest| < |b| && DecodeUtf8(rest).Some?
    ensures Utf8(DecodeUtf8(b).value) == first + Utf8(DecodeUtf8(rest).value)
  {
    var (c, n) := FirstScalar(b).value;
    first, rest := b[..n], b[n..];
    FirstScalarBytes(b);
    Utf8Prepended(c, DecodeUtf8(rest).value);
  }

  lemma {:induction false} Utf8OfDecoded(b: Bytes)
    requires DecodeUtf8(b).Some?
    ensures Utf8(DecodeUtf8(b).value) == b
    decreases |b|
  {
    if b == [] {
      assert DecodeUtf8(b) == Some([]);
    } else {
      var first, rest := FirstDecoded(b);
      Utf8OfDecoded(rest);
    }
  }

  /** `Utf8ToWide`. */
  function Utf8ToWide(b: Bytes): Option<Wide> {
    if |b| > INT_MAX || DecodeUtf8(b).None? then None else Some(Utf16(DecodeUtf8(b).value))
  }

  /** The UTF-8 form of well-formed UTF-16. */
  function ToUtf8(w: Wide): Bytes
    requires WellFormed(w)
  {
    Utf8(Scalars(w))
  }

  /** The strict conversion accepts exactly the UTF-8 forms of well-formed UTF-16, and inverts them. */
  lemma Utf8ToWideIff(b: Bytes, w: Wide)
    ensures Utf8ToWide(b) == Some(w) <==> WellFormed(w) && b == ToUtf8(w) && |b| <= INT_MAX
  {
    if Utf8ToWide(b) == Some(w) {
      Utf8OfDecoded(b);
      ScalarsUtf16(DecodeUtf8(b).value);
    }
    if WellFormed(w) && b == ToUtf8(w) {
      DecodeOfUtf8(Scalars(w));
      Utf16Scalars(w);
    }
  }
}
