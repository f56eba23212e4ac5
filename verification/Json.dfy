/** JSON strings and tokens (section 7 of RFC 8259): the reader and printer of
    src/protocol/BrokerProtocol.cpp. */
module Json {
  import opened Text
  import opened Wrappers
  import opened Unicode

  const QUOTE: Byte := 0x22
  const SLASH: Byte := 0x2F
  const LOWER_U: Byte := 0x75

  predicate Blank(c: Byte) {
    c == 0x20 || c == 0x0A || c == 0x0D || c == 0x09
  }

  function SkipBlank(s: Bytes): (r: Bytes)
    ensures |r| <= |s|
    ensures r != [] ==> !Blank(r[0])
  {
    if s != [] && Blank(s[0]) then SkipBlank(s[1..]) else s
  }

  // ---- reading a string ----

  function HexDigit(c: Byte): (r: Option<nat>)
    ensures r.Some? ==> r.value < 16
  {
    if 0x30 <= c <= 0x39 then Some(c - 0x30)
    else if 0x61 <= c <= 0x66 then Some(c - 0x61 + 10)
    else if 0x41 <= c <= 0x46 then Some(c - 0x41 + 10)
    else None
  }

  /** The value of the first n digits, in base 16. */
  function HexPrefix(s: Bytes, n: nat): (r: Option<nat>)
    requires n <= |s|
  {
    if n == 0 then Some(0)
    else if HexPrefix(s, n - 1).None? || HexDigit(s[n - 1]).None? then None
    else Some(HexPrefix(s, n - 1).value * 16 + HexDigit(s[n - 1]).value)
  }

  lemma {:induction false} HexPrefixBound(s: Bytes, n: nat)
    requires n <= |s| && n <= 4 && HexPrefix(s, n).Some?
    ensures HexPrefix(s, n).value < [1, 0x10, 0x100, 0x1000, 0x1_0000][n]
  {
    if n > 0 {
      HexPrefixBound(s, n - 1);
    }
  }

  lemma {:induction false} HexPrefixNone(s: Bytes, n: nat, m: nat)
    requires n <= m <= |s| && HexPrefix(s, n).None?
    ensures HexPrefix(s, m).None?
  {
    if n < m {
      HexPrefixNone(s, n, m - 1);
    }
  }

  /** The four digits of a `\u` escape, and the text after them. */
  function Hex4(s: Bytes): (r: Option<(Unit, Bytes)>)
    ensures r.Some? ==> |s| >= 4 && r.value.1 == s[4..]
  {
    if |s| < 4 || HexPrefix(s, 4).None? then None
    else
      HexPrefixBound(s, 4);
      Some((HexPrefix(s, 4).value, s[4..]))
  }

  /** A `\u` escape from its digits on: a scalar, possibly as a pair of escapes. */
  function Escape(s: Bytes): (r: Option<(Scalar, Bytes)>)
    ensures r.Some? ==> |r.value.1| < |s|
  {
    var first := Hex4(s);
    if first.None? then None
    else
      var (value, t) := first.value;
      if IsHigh(value) then
        if |t| < 2 || t[0] != BACKSLASH || t[1] != LOWER_U then None
        else
          var second := Hex4(t[2..]);
          if second.None? || !IsLow(second.value.0) then None
          else Some((Pair(value, second.value.0), second.value.1))
      else if IsLow(value) then None
      else Some((value, t))
  }

  function SimpleEscape(c: Byte): Option<Byte> {
    if c == QUOTE || c == BACKSLASH || c == SLASH then Some(c)
    else if c == 0x62 then Some(0x08)
    else if c == 0x66 then Some(0x0C)
    else if c == 0x6E then Some(0x0A)
    else if c == 0x72 then Some(0x0D)
    else if c == 0x74 then Some(0x09)
    else None
  }

  function Prepend(utf8: Bytes, r: Option<(Bytes, Bytes)>): (p: Option<(Bytes, Bytes)>)
    ensures p.Some? <==> r.Some?
    ensures p.Some? ==> p.value.1 == r.value.1
  {
    if r.None? then None else Some((utf8 + r.value.0, r.value.1))
  }

  lemma PrependTwice(a: Bytes, b: Bytes, r: Option<(Bytes, Bytes)>)
    ensures Prepend(a, Prepend(b, r)) == Prepend(a + b, r)
    ensures Prepend([], r) == r
  {
    if r.Some? {
      assert a + (b + r.value.0) == (a + b) + r.value.0;
      assert [] + r.value.0 == r.value.0;
    }
  }

  /** A string from after its opening quote: its UTF-8 bytes, and the text after the closing quote. */
  function Body(s: Bytes): (r: Option<(Bytes, Bytes)>)
    ensures r.Some? ==> |r.value.1| < |s|
    decreases |s|
  {
    if s == [] then None
    else if s[0] == QUOTE then Some(([], s[1..]))
    else if s[0] < 0x20 then None
    else if s[0] != BACKSLASH then Prepend([s[0]], Body(s[1..]))
    else if |s| < 2 then None
    else if s[1] == LOWER_U then
      var e := Escape(s[2..]);
      if e.None? then None else Prepend(Utf8Of(e.value.0), Body(e.value.1))
    else
      var e := SimpleEscape(s[1]);
      if e.None? then None else Prepend([e.value], Body(s[2..]))
  }

  /** `String` from after the opening quote. */
  function StringBody(s: Bytes): (r: Option<(Wide, Bytes)>)
    ensures r.Some? ==> |r.value.1| < |s|
  {
    var r := Body(s);
    if r.None? || Utf8ToWide(r.value.0).None? then None
    else Some((Utf8ToWide(r.value.0).value, r.value.1))
  }

  // ---- printing a string ----

  function HexUpper(d: nat): Byte
    requires d < 16
  {
    if d < 10 then 0x30 + d else 0x41 + (d - 10)
  }

  predicate IsPlain(u: Unit) {
    0x20 <= u <= 0x7E && u != QUOTE && u != BACKSLASH
  }

  function HexText(u: Unit): Bytes {
    [HexUpper(u / 0x1000), HexUpper(u / 0x100 % 16), HexUpper(u / 0x10 % 16), HexUpper(u % 16)]
  }

  function PrintedUnit(u: Unit): Bytes {
    if u == QUOTE || u == BACKSLASH then [BACKSLASH, u]
    else if IsPlain(u) then [u]
    else [BACKSLASH, LOWER_U] + HexText(u)
  }

  function PrintedUnits(w: Wide): Bytes {
    if w == [] then [] else PrintedUnit(w[0]) + PrintedUnits(w[1..])
  }

  function Printed(w: Wide): Bytes {
    [QUOTE] + PrintedUnits(w) + [QUOTE]
  }

  lemma {:induction false} PrintedMore(w: Wide, i: nat)
    requires i < |w|
    ensures PrintedUnits(w[..i + 1]) == PrintedUnits(w[..i]) + PrintedUnit(w[i])
  {
    if i == 0 {
      assert w[..1] == [w[0]] && PrintedUnits([w[0]]) == PrintedUnit(w[0]) + PrintedUnits([]);
    } else {
      PrintedMore(w[1..], i - 1);
      assert w[1..][..i] == w[..i + 1][1..] && w[1..][..i - 1] == w[..i][1..];
      Regroup(PrintedUnit(w[0]), PrintedUnits(w[1..][..i - 1]), PrintedUnit(w[i]));
    }
  }

  method AppendJsonString(output: Bytes, value: Wide) returns (r: Bytes)
    ensures r == output + Printed(value)
  {
    r := output + [QUOTE];
    ghost var start := r;
    for i := 0 to |value|
      invariant r == start + PrintedUnits(value[..i])
    {
      PrintedMore(value, i);
      Regroup(start, PrintedUnits(value[..i]), PrintedUnit(value[i]));
      r := AppendUnit(r, value[i]);
    }
    assert value[..|value|] == value;
    r := r + [QUOTE];
    Regroup(output, [QUOTE], PrintedUnits(value));
    Regroup(output, [QUOTE] + PrintedUnits(value), [QUOTE]);
  }

  lemma Regroup(a: Bytes, b: Bytes, c: Bytes)
    ensures a + b + c == a + (b + c)
  {
  }

  /** The body of the printing loop. */
  method AppendUnit(output: Bytes, character: Unit) returns (r: Bytes)
    ensures r == output + PrintedUnit(character)
  {
    r := output;
    if character == QUOTE || character == BACKSLASH {
      r := r + [BACKSLASH];
      r := r + [character];
    } else if 0x20 <= character <= 0x7E {
      r := r + [character];
    } else {
      r := r + [BACKSLASH, LOWER_U];
      r := r + [HexUpper(character / 0x1000)];
      r := r + [HexUpper(character / 0x100 % 16)];
      r := r + [HexUpper(character / 0x10 % 16)];
      r := r + [HexUpper(character % 16)];
    }
  }

  // ---- the reader inverts the printer ----

  lemma HexMore(s: Bytes, n: nat, high: nat, d: nat)
    requires n < |s| && HexPrefix(s, n) == Some(high) && d < 16 && s[n] == HexUpper(d)
    ensures HexPrefix(s, n + 1) == Some(high * 16 + d)
  {
  }

  lemma Nibbles(u: Unit)
    ensures u / 0x1000 < 16 && u == ((u / 0x1000 * 16 + u / 0x100 % 16) * 16 + u / 0x10 % 16) * 16 + u % 16
  {
    assert u / 0x100 == u / 0x1000 * 16 + u / 0x100 % 16;
    assert u / 0x10 == u / 0x100 * 16 + u / 0x10 % 16;
  }

  lemma DigitsRead(a: nat, b: nat, c: nat, d: nat, rest: Bytes)
    requires a < 16 && b < 16 && c < 16 && d < 16
    ensures Hex4([HexUpper(a), HexUpper(b), HexUpper(c), HexUpper(d)] + rest) ==
            Some((((a * 16 + b) * 16 + c) * 16 + d, rest))
  {
    var s := [HexUpper(a), HexUpper(b), HexUpper(c), HexUpper(d)] + rest;
    assert s[4..] == rest && HexPrefix(s, 0) == Some(0);
    HexMore(s, 0, 0, a);
    HexMore(s, 1, a, b);
    HexMore(s, 2, a * 16 + b, c);
    HexMore(s, 3, (a * 16 + b) * 16 + c, d);
  }

  lemma HexTextRead(u: Unit, rest: Bytes)
    ensures Hex4(HexText(u) + rest) == Some((u, rest))
  {
    Nibbles(u);
    DigitsRead(u / 0x1000, u / 0x100 % 16, u / 0x10 % 16, u % 16, rest);
  }

  /** A unit printed as an escape is read back as its own UTF-8, unless it is a surrogate. */
  lemma BodyOfEscape(u: Unit, rest: Bytes)
    requires u != QUOTE && u != BACKSLASH && !IsPlain(u) && !IsSurrogate(u)
    ensures Body(PrintedUnit(u) + rest) == Prepend(Utf8Of(u), Body(rest))
  {
    var s := PrintedUnit(u) + rest;
    assert s[2..] == HexText(u) + rest;
    HexTextRead(u, rest);
  }

  /** Any character but a surrogate may be spelled as an escape, also one the printer writes plainly. */
  lemma EscapedUnitRead(u: Unit, rest: Bytes)
    requires !IsSurrogate(u)
    ensures Body([BACKSLASH, LOWER_U] + (HexText(u) + rest)) == Prepend(Utf8Of(u), Body(rest))
  {
    var s := [BACKSLASH, LOWER_U] + (HexText(u) + rest);
    assert s[2..] == HexText(u) + rest;
    HexTextRead(u, rest);
  }

  lemma BodyOfPlain(u: Unit, rest: Bytes)
    requires u == QUOTE || u == BACKSLASH || IsPlain(u)
    ensures Body(PrintedUnit(u) + rest) == Prepend(Utf8Of(u), Body(rest))
  {
    assert (PrintedUnit(u) + rest)[|PrintedUnit(u)|..] == rest;
  }

  lemma BodyOfPair(high: Unit, low: Unit, rest: Bytes)
    requires IsHigh(high) && IsLow(low)
    ensures Body(PrintedUnit(high) + (PrintedUnit(low) + rest)) == Prepend(Utf8Of(Pair(high, low)), Body(rest))
  {
    var t := PrintedUnit(low) + rest;
    var s := PrintedUnit(high) + t;
    assert s[2..] == HexText(high) + t;
    HexTextRead(high, t);
    assert t[2..] == HexText(low) + rest;
    HexTextRead(low, rest);
  }

  lemma NoLowFollows(w: Wide, rest: Bytes)
    requires w == [] || !IsLow(w[0])
    ensures var t := PrintedUnits(w) + ([QUOTE] + rest);
            |t| < 2 || t[0] != BACKSLASH || t[1] != LOWER_U || Hex4(t[2..]).None? || !IsLow(Hex4(t[2..]).value.0)
  {
    var t := PrintedUnits(w) + ([QUOTE] + rest);
    if w == [] {
      assert t[0] == QUOTE;
    } else {
      var more := PrintedUnits(w[1..]) + ([QUOTE] + rest);
      assert t == PrintedUnit(w[0]) + more;
      if w[0] != QUOTE && w[0] != BACKSLASH && !IsPlain(w[0]) {
        assert t[2..] == HexText(w[0]) + more;
        HexTextRead(w[0], more);
      }
    }
  }

  /** A surrogate that its neighbour does not complete stops the reader. */
  lemma BodyOfLone(u: Unit, w: Wide, rest: Bytes)
    requires IsSurrogate(u) && (IsLow(u) || w == [] || !IsLow(w[0]))
    ensures Body(PrintedUnit(u) + (PrintedUnits(w) + ([QUOTE] + rest))).None?
  {
    var t := PrintedUnits(w) + ([QUOTE] + rest);
    var s := PrintedUnit(u) + t;
    assert s[2..] == HexText(u) + t;
    HexTextRead(u, t);
    if IsHigh(u) {
      NoLowFollows(w, rest);
    }
  }

  lemma BodyOfUnit(u: Unit, rest: Bytes)
    requires !IsSurrogate(u)
    ensures Body(PrintedUnit(u) + rest) == Prepend(Utf8Of(u), Body(rest))
  {
    if u == QUOTE || u == BACKSLASH || IsPlain(u) {
      BodyOfPlain(u, rest);
    } else {
      BodyOfEscape(u, rest);
    }
  }

  lemma {:induction false} BodyOfPrinted(w: Wide, rest: Bytes)
    ensures Body(PrintedUnits(w) + ([QUOTE] + rest)) == if WellFormed(w) then Some((ToUtf8(w), rest)) else None
    decreases |w|
  {
    var end := [QUOTE] + rest;
    if w == [] {
      assert PrintedUnits(w) + end == end;
      assert end[1..] == rest;
    } else {
      Regroup(PrintedUnit(w[0]), PrintedUnits(w[1..]), end);
      if !IsSurrogate(w[0]) {
        BodyOfPrinted(w[1..], rest);
        BodyOfUnit(w[0], PrintedUnits(w[1..]) + end);
      } else if IsLow(w[0]) || |w| == 1 || !IsLow(w[1]) {
        BodyOfLone(w[0], w[1..], rest);
      } else {
        Regroup(PrintedUnit(w[1]), PrintedUnits(w[2..]), end);
        BodyOfPair(w[0], w[1], PrintedUnits(w[2..]) + end);
        BodyOfPrinted(w[2..], rest);
      }
    }
  }

  /** What the platform's conversions can hold. */
  predicate Printable(w: Wide) {
    WellFormed(w) && |ToUtf8(w)| <= INT_MAX
  }

  /** The reader, on a printed string and any text after it, returns the string and stops right after
      the closing quote if the string is well-formed UTF-16, and fails otherwise. */
  lemma StringCodec(w: Wide, rest: Bytes)
    ensures StringBody((Printed(w) + rest)[1..]) == if Printable(w) then Some((w, rest)) else None
  {
    assert (Printed(w) + rest)[1..] == PrintedUnits(w) + ([QUOTE] + rest);
    BodyOfPrinted(w, rest);
    if WellFormed(w) {
      Utf8ToWideIff(ToUtf8(w), w);
    }
  }

  /** Every string the reader accepts is well-formed, however it was spelled; so printing it and
      reading it back gives it again. */
  lemma AcceptedIsPrintable(s: Bytes)
    requires StringBody(s).Some?
    ensures Printable(StringBody(s).value.0)
    ensures forall rest ::
              StringBody((Printed(StringBody(s).value.0) + rest)[1..]) == Some((StringBody(s).value.0, rest))
  {
    var w := StringBody(s).value.0;
    Utf8ToWideIff(Body(s).value.0, w);
    forall rest
      ensures StringBody((Printed(w) + rest)[1..]) == Some((w, rest))
    {
      StringCodec(w, rest);
    }
  }
}
