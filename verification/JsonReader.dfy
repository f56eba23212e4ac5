/** `JsonReader` (src/protocol/BrokerProtocol.cpp): a position moving over the message. Each method is
    specified by the token stream that is left. */
module JsonReaders {
  import opened Text
  import opened Wrappers
  import opened Unicode
  import opened Json
  import opened Tokens

  class JsonReader {
    const input: Bytes
    var position: nat

    constructor (input: Bytes)
      ensures this.input == input && Valid() && Rest() == input
    {
      this.input, position := input, 0;
    }

    ghost predicate Valid()
      reads this
    {
      position <= |input|
    }

    /** What is left to read. */
    ghost function Rest(): Bytes
      requires Valid()
      reads this
    {
      input[position..]
    }

    ghost function Stream(): seq<Token>
      requires Valid()
      reads this
    {
      TokensOf(Rest())
    }

    method SkipWhitespace()
      requires Valid()
      modifies this
      ensures Valid() && Rest() == SkipBlank(old(Rest()))
    {
      while position < |input| && Blank(input[position])
        invariant Valid() && SkipBlank(Rest()) == SkipBlank(old(Rest()))
      {
        assert Rest()[1..] == input[position + 1..];
        position := position + 1;
      }
    }

    method End() returns (ok: bool)
      requires Valid()
      modifies this
      ensures Valid() && Stream() == old(Stream())
      ensures ok <==> Stream()[0] == Eof
    {
      SkipBlankTwice(Rest());
      SkipWhitespace();
      ok := position == |input|;
    }

    method Consume(expected: Byte) returns (ok: bool)
      requires Valid() && IsPunct(expected)
      modifies this
      ensures Valid()
      ensures ok <==> old(Stream())[0] == Punct(expected)
      ensures Stream() == if ok then old(Stream())[1..] else old(Stream())
    {
      SkipBlankTwice(Rest());
      SkipWhitespace();
      PunctAhead(Rest(), expected);
      if position == |input| || input[position] != expected {
        return false;
      }
      assert Rest()[1..] == input[position + 1..];
      position := position + 1;
      return true;
    }

    method ReadUnicodeEscape() returns (ok: bool, value: nat)
      requires Valid()
      modifies this
      ensures Valid() && position >= old(position)
      ensures ok <==> Hex4(old(Rest())).Some?
      ensures ok ==> Hex4(old(Rest())) == Some((value, Rest()))
    {
      value := 0;
      if position + 4 > |input| {
        return false, value;
      }
      ghost var start := position;
      for index := 0 to 4
        invariant position == start + index <= |input|
        invariant HexPrefix(old(Rest()), index) == Some(value)
      {
        var character := input[position];
        assert character == old(Rest())[index];
        position := position + 1;
        var digit := HexDigit(character);
        if digit.None? {
          HexPrefixNone(old(Rest()), index + 1, 4);
          return false, value;
        }
        value := value * 16 + digit.value;
      }
      assert Rest() == old(Rest())[4..];
      return true, value;
    }

    method UnicodeEscape(utf8: Bytes) returns (ok: bool, output: Bytes)
      requires Valid()
      modifies this
      ensures Valid() && position >= old(position)
      ensures ok <==> Escape(old(Rest())).Some?
      ensures ok ==> output == utf8 + Utf8Of(Escape(old(Rest())).value.0) && Rest() == Escape(old(Rest())).value.1
    {
      output := utf8;
      var value;
      ok, value := ReadUnicodeEscape();
      if !ok {
        return;
      }
      if IsHigh(value) {
        if position + 2 > |input| || input[position] != BACKSLASH || input[position + 1] != LOWER_U {
          return false, output;
        }
        assert Rest()[2..] == input[position + 2..];
        position := position + 2;
        var lowSurrogate;
        ok, lowSurrogate := ReadUnicodeEscape();
        if !ok || !IsLow(lowSurrogate) {
          return false, output;
        }
        output := output + Utf8Of(Pair(value, lowSurrogate));
      } else if IsLow(value) {
        return false, output;
      } else {
        output := output + Utf8Of(value);
      }
    }

    /** The reading loop, after the opening quote. */
    method ReadBody() returns (ok: bool, utf8: Bytes)
      requires Valid()
      modifies this
      ensures Valid()
      ensures ok <==> Body(old(Rest())).Some?
      ensures ok ==> Body(old(Rest())) == Some((utf8, Rest()))
    {
      utf8 := [];
      PrependTwice([], [], Body(Rest()));
      while position < |input|
        invariant Valid()
        invariant Body(old(Rest())) == Prepend(utf8, Body(Rest()))
      {
        var character := input[position];
        assert Rest()[1..] == input[position + 1..];
        ghost var rest := Rest();
        position := position + 1;
        if character == QUOTE {
          assert utf8 + [] == utf8;
          return true, utf8;
        }
        if character < 0x20 {
          return false, utf8;
        }
        if character != BACKSLASH {
          PrependTwice(utf8, [character], Body(Rest()));
          utf8 := utf8 + [character];
          continue;
        }
        if position == |input| {
          return false, utf8;
        }
        assert rest[2..] == input[position + 1..];
        var escaped := input[position];
        position := position + 1;
        if escaped == LOWER_U {
          var e;
          ghost var before := utf8;
          ok, e := UnicodeEscape(utf8);
          if !ok {
            return false, utf8;
          }
          PrependTwice(before, Utf8Of(Escape(rest[2..]).value.0), Body(Rest()));
          utf8 := e;
        } else {
          var simple := SimpleEscape(escaped);
          if simple.None? {
            return false, utf8;
          }
          PrependTwice(utf8, [simple.value], Body(Rest()));
          utf8 := utf8 + [simple.value];
        }
      }
      return false, utf8;
    }

    method String() returns (ok: bool, output: Wide)
      requires Valid()
      modifies this
      ensures Valid()
      ensures ok <==> old(Stream())[0].Str?
      ensures ok ==> output == old(Stream())[0].w && Stream() == old(Stream())[1..]
    {
      SkipBlankTwice(Rest());
      SkipWhitespace();
      output := [];
      if position == |input| || input[position] != QUOTE {
        return false, output;
      }
      assert Rest()[1..] == input[position + 1..];
      position := position + 1;
      var utf8;
      ok, utf8 := ReadBody();
      if !ok {
        return;
      }
      var wide := Utf8ToWide(utf8);
      if wide.None? {
        return false, output;
      }
      return true, wide.value;
    }

    /** The loop of `Unsigned`. */
    method SkipDigits()
      requires Valid()
      modifies this
      ensures Valid() && position == old(position) + DigitCount(old(Rest()))
      ensures input[old(position)..position] == old(Rest())[..DigitCount(old(Rest()))]
      ensures Rest() == old(Rest())[DigitCount(old(Rest()))..]
    {
      ghost var start, rest := position, Rest();
      while position < |input| && IsDigit(input[position])
        invariant start <= position <= |input|
        invariant DigitCount(rest) == position - start + DigitCount(Rest())
      {
        assert Rest()[1..] == input[position + 1..];
        position := position + 1;
      }
      assert DigitCount(rest) == position - start;
      assert input[start..position] == rest[..DigitCount(rest)];
      assert Rest() == rest[DigitCount(rest)..];
    }

    method Unsigned() returns (ok: bool, output: nat)
      requires Valid()
      modifies this
      ensures Valid()
      ensures ok <==> old(Stream())[0].Num?
      ensures ok ==> output == old(Stream())[0].n && Stream() == old(Stream())[1..]
    {
      SkipBlankTwice(Rest());
      SkipWhitespace();
      NumberAhead(Rest());
      var start := position;
      output := 0;
      SkipDigits();
      if start == position {
        return false, output;
      }
      var value := Decimal(input[start..position]);
      if value >= DWORD_END {
        return false, output;
      }
      return true, value;
    }

    method Boolean() returns (ok: bool, output: bool)
      requires Valid()
      modifies this
      ensures Valid()
      ensures ok <==> old(Stream())[0].Bool?
      ensures ok ==> output == old(Stream())[0].b && Stream() == old(Stream())[1..]
    {
      SkipBlankTwice(Rest());
      SkipWhitespace();
      ghost var rest := Rest();
      output := false;
      if TRUE <= input[position..] {
        assert rest[0] == TRUE[0];
        position := position + 4;
        assert Rest() == rest[4..];
        return true, true;
      }
      if FALSE <= input[position..] {
        assert rest[0] == FALSE[0];
        position := position + 5;
        assert Rest() == rest[5..];
        return true, false;
      }
      return false, output;
    }
  }
}
