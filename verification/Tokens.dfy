/** The token stream behind `JsonReader`, and messages as renderings of tokens with free whitespace
    between them. */
module Tokens {
  import opened Text
  import opened Json

  const DWORD_END: nat := 0x1_0000_0000

  datatype Token =
    | Punct(c: Byte)
    | Str(w: Wide)
    | Num(n: nat)
    | Bool(b: bool)
    | Eof
    | Bad

  const OPEN: Byte := 0x7B
  const CLOSE: Byte := 0x7D
  const OPEN_LIST: Byte := 0x5B
  const CLOSE_LIST: Byte := 0x5D
  const COLON: Byte := 0x3A
  const COMMA: Byte := 0x2C

  /** true */
  const TRUE: Bytes := [0x74, 0x72, 0x75, 0x65]
  /** false */
  const FALSE: Bytes := [0x66, 0x61, 0x6C, 0x73, 0x65]

  predicate IsPunct(c: Byte) {
    c == OPEN || c == CLOSE || c == OPEN_LIST || c == CLOSE_LIST || c == COLON || c == COMMA
  }

  predicate IsDigit(c: Byte) {
    0x30 <= c <= 0x39
  }

  function DigitCount(s: Bytes): (n: nat)
    ensures n <= |s|
    ensures n < |s| ==> !IsDigit(s[n])
    ensures forall i :: 0 <= i < n ==> IsDigit(s[i])
  {
    if s != [] && IsDigit(s[0]) then 1 + DigitCount(s[1..]) else 0
  }

  function DigitValue(c: int): (d: nat)
    requires 0x30 <= c <= 0x39
    ensures d < 10
  {
    c - 0x30
  }

  function Decimal(digits: Bytes): nat
    requires forall i :: 0 <= i < |digits| ==> IsDigit(digits[i])
  {
    if digits == [] then 0
    else
      assert IsDigit(digits[|digits| - 1]);
      Decimal(digits[..|digits| - 1]) * 10 + DigitValue(digits[|digits| - 1])
  }

  /** The token at the start of a text without leading whitespace. */
  function First(s: Bytes): (r: (Token, Bytes))
    ensures |r.1| <= |s|
    ensures !r.0.Eof? && !r.0.Bad? ==> |r.1| < |s|
  {
    if s == [] then (Eof, s)
    else if s[0] == QUOTE then
      var r := StringBody(s[1..]);
      if r.None? then (Bad, s) else (Str(r.value.0), r.value.1)
    else if IsPunct(s[0]) then (Punct(s[0]), s[1..])
    else if IsDigit(s[0]) then
      var n := DigitCount(s);
      var value := Decimal(s[..n]);
      if value >= DWORD_END then (Bad, s) else (Num(value), s[n..])
    else if TRUE <= s then (Bool(true), s[|TRUE|..])
    else if FALSE <= s then (Bool(false), s[|FALSE|..])
    else (Bad, s)
  }

  function Next(s: Bytes): (r: (Token, Bytes))
    ensures |r.1| <= |s|
    ensures !r.0.Eof? && !r.0.Bad? ==> |r.1| < |s|
  {
    First(SkipBlank(s))
  }

  /** The tokens of a text, up to its end or to the first thing that is no token. */
  function TokensOf(s: Bytes): (ts: seq<Token>)
    ensures ts != []
    decreases |s|
  {
    var (t, rest) := Next(s);
    if t.Eof? || t.Bad? then [t] else [t] + TokensOf(rest)
  }

  lemma {:induction false} SkipBlankTwice(s: Bytes)
    ensures SkipBlank(SkipBlank(s)) == SkipBlank(s)
    ensures Next(SkipBlank(s)) == Next(s) && TokensOf(SkipBlank(s)) == TokensOf(s)
  {
    if s != [] && Blank(s[0]) {
      SkipBlankTwice(s[1..]);
    }
  }

  /** A punctuation token is its own character. */
  lemma PunctAhead(s: Bytes, c: Byte)
    requires s == [] || !Blank(s[0])
    requires IsPunct(c)
    ensures TokensOf(s)[0] == Punct(c) <==> s != [] && s[0] == c
    ensures s != [] && s[0] == c ==> TokensOf(s)[1..] == TokensOf(s[1..])
  {
    assert SkipBlank(s) == s;
  }

  lemma NumberAhead(s: Bytes)
    requires s == [] || !Blank(s[0])
    ensures var n := DigitCount(s);
            && (TokensOf(s)[0].Num? <==> n > 0 && Decimal(s[..n]) < DWORD_END)
            && (TokensOf(s)[0].Num? ==> TokensOf(s)[0].n == Decimal(s[..n]) && TokensOf(s)[1..] == TokensOf(s[n..]))
  {
    assert SkipBlank(s) == s;
    assert DigitCount(s) > 0 <==> s != [] && IsDigit(s[0]);
  }

  // ---- renderings ----

  function DecimalText(n: nat): (digits: Bytes)
    ensures digits != [] && forall i :: 0 <= i < |digits| ==> IsDigit(digits[i])
  {
    if n < 10 then [0x30 + n] else DecimalText(n / 10) + [0x30 + n % 10]
  }

  lemma {:induction false} DecimalOfText(n: nat)
    ensures Decimal(DecimalText(n)) == n
  {
    if n >= 10 {
      DecimalOfText(n / 10);
      assert DecimalText(n)[..|DecimalText(n)| - 1] == DecimalText(n / 10);
    } else {
      assert DecimalText(n)[..0] == [];
    }
  }

  /** A number may have leading zeros. */
  lemma {:induction false} LeadingZero(digits: Bytes)
    requires forall i :: 0 <= i < |digits| ==> IsDigit(digits[i])
    ensures Decimal([0x30] + digits) == Decimal(digits)
  {
    if digits == [] {
      assert ([0x30] + digits)[..0] == [];
    } else {
      assert ([0x30] + digits)[..|digits|] == [0x30] + digits[..|digits| - 1];
      LeadingZero(digits[..|digits| - 1]);
    }
  }

  function Lexeme(t: Token): Bytes {
    match t
    case Punct(c) => [c]
    case Str(w) => Printed(w)
    case Num(n) => DecimalText(n)
    case Bool(b) => if b then TRUE else FALSE
    case _ => []
  }

  /** Tokens a message can be printed from. */
  predicate Writable(t: Token) {
    match t
    case Punct(c) => IsPunct(c)
    case Str(w) => Printable(w)
    case Num(n) => n < DWORD_END
    case Bool(_) => true
    case _ => false
  }

  predicate AllWritable(ts: seq<Token>) {
    forall i :: 0 <= i < |ts| ==> Writable(ts[i])
  }

  predicate AllBlank(s: Bytes) {
    forall i :: 0 <= i < |s| ==> Blank(s[i])
  }

  /** The tokens with whitespace before each of them and at the end. */
  function Render(ts: seq<Token>, gaps: seq<Bytes>): Bytes
    requires |gaps| == |ts| + 1
  {
    if ts == [] then gaps[0] else gaps[0] + (Lexeme(ts[0]) + Render(ts[1..], gaps[1..]))
  }

  /** Whitespace only, and some of it between two adjacent numbers. */
  predicate Spacing(ts: seq<Token>, gaps: seq<Bytes>) {
    && |gaps| == |ts| + 1
    && (forall i :: 0 <= i < |gaps| ==> AllBlank(gaps[i]))
    && (forall i :: 0 <= i < |ts| - 1 && ts[i].Num? && ts[i + 1].Num? ==> gaps[i + 1] != [])
  }

  lemma {:induction false} SkipGap(gap: Bytes, s: Bytes)
    requires AllBlank(gap) && (s == [] || !Blank(s[0]))
    ensures SkipBlank(gap + s) == s
  {
    if gap == [] {
      assert gap + s == s;
    } else {
      assert (gap + s)[1..] == gap[1..] + s;
      SkipGap(gap[1..], s);
    }
  }

  lemma {:induction false} DigitCountOf(digits: Bytes, rest: Bytes)
    requires forall i :: 0 <= i < |digits| ==> IsDigit(digits[i])
    requires rest == [] || !IsDigit(rest[0])
    ensures DigitCount(digits + rest) == |digits|
  {
    if digits == [] {
      assert digits + rest == rest;
    } else {
      assert (digits + rest)[1..] == digits[1..] + rest;
      DigitCountOf(digits[1..], rest);
    }
  }

  lemma FirstOfNum(n: nat, rest: Bytes)
    requires n < DWORD_END && (rest != [] ==> !IsDigit(rest[0]))
    ensures First(DecimalText(n) + rest) == (Num(n), rest)
  {
    var s := DecimalText(n) + rest;
    DigitCountOf(DecimalText(n), rest);
    DecimalOfText(n);
    assert s[..|DecimalText(n)|] == DecimalText(n) && s[|DecimalText(n)|..] == rest;
    assert IsDigit(s[0]);
  }

  lemma FirstOfStr(w: Wide, rest: Bytes)
    requires Printable(w)
    ensures First(Printed(w) + rest) == (Str(w), rest)
  {
    StringCodec(w, rest);
  }

  lemma FirstOfBool(b: bool, rest: Bytes)
    ensures var s := (if b then TRUE else FALSE) + rest;
            First(s) == (Bool(b), rest) && !Blank(s[0])
  {
    var word := if b then TRUE else FALSE;
    var s := word + rest;
    assert s[0] == word[0];
    assert s[|word|..] == rest;
  }

  lemma FirstOfLexeme(t: Token, rest: Bytes)
    requires Writable(t)
    requires t.Num? && rest != [] ==> !IsDigit(rest[0])
    ensures First(Lexeme(t) + rest) == (t, rest)
    ensures !Blank((Lexeme(t) + rest)[0])
  {
    match t
    case Str(w) => FirstOfStr(w, rest);
    case Num(n) => FirstOfNum(n, rest);
    case Bool(b) => FirstOfBool(b, rest);
    case Punct(c) => assert ([c] + rest)[1..] == rest;
  }

  lemma RenderStart(ts: seq<Token>, gaps: seq<Bytes>)
    requires AllWritable(ts) && Spacing(ts, gaps)
    requires ts != [] && ts[0].Num? ==> gaps[0] != []
    ensures var s := Render(ts, gaps); s != [] ==> !IsDigit(s[0])
  {
    var s := Render(ts, gaps);
    if gaps[0] != [] {
      assert s[0] == gaps[0][0];
    } else if ts != [] {
      assert s == Lexeme(ts[0]) + Render(ts[1..], gaps[1..]);
    }
  }

  lemma SpacingTail(ts: seq<Token>, gaps: seq<Bytes>)
    requires ts != [] && AllWritable(ts) && Spacing(ts, gaps)
    ensures AllWritable(ts[1..]) && Spacing(ts[1..], gaps[1..])
    ensures |ts| > 1 && ts[0].Num? && ts[1..][0].Num? ==> gaps[1..][0] != []
  {
    assert forall i :: 0 <= i < |ts| - 1 ==> ts[1..][i] == ts[i + 1];
    assert forall i :: 0 <= i < |gaps| - 1 ==> gaps[1..][i] == gaps[i + 1];
  }

  lemma NextOfRender(ts: seq<Token>, gaps: seq<Bytes>)
    requires ts != [] && AllWritable(ts) && Spacing(ts, gaps)
    ensures Next(Render(ts, gaps)) == (ts[0], Render(ts[1..], gaps[1..]))
  {
    var more := Render(ts[1..], gaps[1..]);
    SpacingTail(ts, gaps);
    if ts[0].Num? {
      RenderStart(ts[1..], gaps[1..]);
    }
    FirstOfLexeme(ts[0], more);
    SkipGap(gaps[0], Lexeme(ts[0]) + more);
  }

  /** Any whitespace between the tokens leaves the stream the same: exactly the tokens rendered. */
  lemma {:induction false} TokensOfRender(ts: seq<Token>, gaps: seq<Bytes>)
    requires AllWritable(ts) && Spacing(ts, gaps)
    ensures TokensOf(Render(ts, gaps)) == ts + [Eof]
    decreases |ts|
  {
    if ts == [] {
      assert gaps[0] + [] == gaps[0];
      SkipGap(gaps[0], []);
    } else {
      NextOfRender(ts, gaps);
      SpacingTail(ts, gaps);
      TokensOfRender(ts[1..], gaps[1..]);
      assert ts == [ts[0]] + ts[1..];
    }
  }

  /** The rendering without any whitespace. */
  function Flat(ts: seq<Token>): Bytes {
    if ts == [] then [] else Lexeme(ts[0]) + Flat(ts[1..])
  }

  function NoGaps(n: nat): (gaps: seq<Bytes>)
    ensures |gaps| == n && forall i :: 0 <= i < n ==> gaps[i] == []
  {
    seq(n, _ => [])
  }

  lemma {:induction false} FlatIsRender(ts: seq<Token>)
    ensures Flat(ts) == Render(ts, NoGaps(|ts| + 1))
  {
    if ts != [] {
      FlatIsRender(ts[1..]);
      assert NoGaps(|ts| + 1)[1..] == NoGaps(|ts|);
      assert [] + (Lexeme(ts[0]) + Flat(ts[1..])) == Lexeme(ts[0]) + Flat(ts[1..]);
    }
  }

  lemma {:induction false} FlatJoin(a: seq<Token>, b: seq<Token>)
    ensures Flat(a + b) == Flat(a) + Flat(b)
  {
    if a == [] {
      assert a + b == b;
    } else {
      assert (a + b)[1..] == a[1..] + b;
      FlatJoin(a[1..], b);
    }
  }
}
