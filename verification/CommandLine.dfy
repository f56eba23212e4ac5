/** Windows command lines: the broker's quoting and joining (src/common/WindowsCommandLine.cpp) and,
    as their reference, the argument rules of the Microsoft C runtime. */
module CommandLine {
  import opened Text
  import opened Wrappers

  const NUL: Unit := 0
  const TAB: Unit := 0x09
  const LINE_FEED: Unit := 0x0A
  const VERTICAL_TAB: Unit := 0x0B
  const SPACE: Unit := 0x20
  const QUOTE: Unit := 0x22

  function Repeat(c: Unit, n: nat): (s: Wide)
    ensures |s| == n && forall i :: 0 <= i < n ==> s[i] == c
  {
    seq(n, _ => c)
  }

  predicate NulFree(s: Wide) {
    NUL !in s
  }

  predicate AllNulFree(args: seq<Wide>) {
    forall i :: 0 <= i < |args| ==> NulFree(args[i])
  }

  // ---- the C runtime's rules ----

  predicate Blank(c: Unit) {
    c == SPACE || c == TAB
  }

  /** The backslashes a text starts with. */
  function Slashes(s: Wide): (n: nat)
    ensures n <= |s| && s[..n] == Repeat(BACKSLASH, n)
    ensures n < |s| ==> s[n] != BACKSLASH
  {
    if |s| > 0 && s[0] == BACKSLASH then
      assert s[..1 + Slashes(s[1..])] == [s[0]] + s[1..][..Slashes(s[1..])];
      1 + Slashes(s[1..])
    else 0
  }

  /** One argument and the text after it. 2n backslashes and a quote stand for n backslashes, and the
      quote opens or closes a quoted part; 2n+1 stand for n backslashes and a quote; other backslashes
      stand for themselves; two quotes inside a quoted part stand for one. */
  function Scan(s: Wide, quoted: bool): (r: (Wide, Wide))
    ensures |r.1| <= |s|
    ensures !quoted && |s| > 0 && !Blank(s[0]) ==> |r.1| < |s|
    decreases |s|, 1
  {
    ScanAfter(Slashes(s), s[Slashes(s)..], quoted)
  }

  /** The same after n backslashes. */
  function ScanAfter(n: nat, t: Wide, quoted: bool): (r: (Wide, Wide))
    ensures |r.1| <= |t|
    ensures !quoted && |t| > 0 && !Blank(t[0]) ==> |r.1| < |t|
    decreases |t|, 0
  {
    if t == [] then
      (Repeat(BACKSLASH, n), [])
    else if t[0] == QUOTE then
      if n % 2 == 1 then
        var r := Scan(t[1..], quoted);
        (Repeat(BACKSLASH, n / 2) + [QUOTE] + r.0, r.1)
      else if quoted && |t| > 1 && t[1] == QUOTE then
        var r := Scan(t[2..], quoted);
        (Repeat(BACKSLASH, n / 2) + [QUOTE] + r.0, r.1)
      else
        var r := Scan(t[1..], !quoted);
        (Repeat(BACKSLASH, n / 2) + r.0, r.1)
    else if !quoted && Blank(t[0]) then
      (Repeat(BACKSLASH, n), t)
    else
      var r := Scan(t[1..], quoted);
      (Repeat(BACKSLASH, n) + [t[0]] + r.0, r.1)
  }

  /** The arguments after the program name. */
  function SplitRest(s: Wide): seq<Wide>
    decreases |s|
  {
    if s == [] then []
    else if Blank(s[0]) then SplitRest(s[1..])
    else
      var r := Scan(s, false);
      [r.0] + SplitRest(r.1)
  }

  /** The program name and the text after it: backslashes are literal and a quote only toggles. */
  function ScanProgram(s: Wide, quoted: bool): (r: (Wide, Wide))
    ensures |r.1| <= |s|
  {
    if s == [] then ([], [])
    else if s[0] == QUOTE then ScanProgram(s[1..], !quoted)
    else if !quoted && Blank(s[0]) then ([], s[1..])
    else
      var r := ScanProgram(s[1..], quoted);
      ([s[0]] + r.0, r.1)
  }

  /** A command line is read up to its first NUL. */
  function UntilNul(s: Wide): (r: Wide)
    ensures NulFree(r)
    ensures NulFree(s) ==> r == s
  {
    if s == [] || s[0] == NUL then [] else [s[0]] + UntilNul(s[1..])
  }

  function Split(line: Wide): seq<Wide> {
    var r := ScanProgram(UntilNul(line), false);
    [r.0] + SplitRest(r.1)
  }

  // ---- quoting ----

  predicate NeedsQuotes(argument: Wide) {
    exists i :: 0 <= i < |argument| && argument[i] in [SPACE, TAB, LINE_FEED, VERTICAL_TAB, QUOTE]
  }

  /** What the quoting loop still appends, with `pending` backslashes held back. */
  function Body(argument: Wide, pending: nat): Wide {
    if argument == [] then Repeat(BACKSLASH, 2 * pending)
    else if argument[0] == BACKSLASH then Body(argument[1..], pending + 1)
    else if argument[0] == QUOTE then Repeat(BACKSLASH, 2 * pending + 1) + [QUOTE] + Body(argument[1..], 0)
    else Repeat(BACKSLASH, pending) + [argument[0]] + Body(argument[1..], 0)
  }

  function Quoted(argument: Wide): Wide {
    if argument == [] then [QUOTE, QUOTE]
    else if !NeedsQuotes(argument) then argument
    else [QUOTE] + Body(argument, 0) + [QUOTE]
  }

  function Joined(args: seq<Wide>): Wide {
    if args == [] then [] else [SPACE] + Quoted(args[0]) + Joined(args[1..])
  }

  /** `BuildWindowsCommandLine`; None stands for the exception on a quote in the executable. */
  function CommandLineOf(executable: Wide, args: seq<Wide>): Option<Wide> {
    if QUOTE in executable then None else Some([QUOTE] + executable + [QUOTE] + Joined(args))
  }

  method QuoteWindowsCommandLineArgument(argument: Wide) returns (quoted: Wide)
    ensures quoted == Quoted(argument)
    ensures forall rest :: Delimited(rest) ==> Scan(quoted + rest, false) == (argument, rest)
  {
    forall rest | Delimited(rest)
      ensures Scan(Quoted(argument) + rest, false) == (argument, rest)
    {
      ScanQuoted(argument, rest);
    }
    if |argument| == 0 {
      return [QUOTE, QUOTE];
    }
    if !NeedsQuotes(argument) {
      return argument;
    }
    quoted := [QUOTE];
    var backslashes := 0;
    for i := 0 to |argument|
      invariant quoted + Body(argument[i..], backslashes) == [QUOTE] + Body(argument, 0)
    {
      var character := argument[i];
      assert argument[i..][1..] == argument[i + 1..];
      if character == BACKSLASH {
        backslashes := backslashes + 1;
        continue;
      }
      if character == QUOTE {
        quoted := quoted + Repeat(BACKSLASH, backslashes * 2 + 1);
        quoted := quoted + [QUOTE];
        backslashes := 0;
        continue;
      }
      quoted := quoted + Repeat(BACKSLASH, backslashes);
      backslashes := 0;
      quoted := quoted + [character];
    }
    quoted := quoted + Repeat(BACKSLASH, backslashes * 2);
    quoted := quoted + [QUOTE];
  }

  /** The C runtime splits the result back into exactly the executable and the arguments if and only
      if none of them holds a NUL. */
  method BuildWindowsCommandLine(executable: Wide, args: seq<Wide>) returns (line: Option<Wide>)
    ensures line == CommandLineOf(executable, args)
    ensures line.None? <==> QUOTE in executable
    ensures line.Some? ==> (Split(line.value) == [executable] + args <==> NulFree(executable) && AllNulFree(args))
  {
    if QUOTE in executable {
      return None;
    }
    var commandLine := [];
    commandLine := commandLine + [QUOTE];
    commandLine := commandLine + executable;
    commandLine := commandLine + [QUOTE];
    ghost var start := [QUOTE] + executable + [QUOTE];
    assert commandLine == start;
    for i := 0 to |args|
      invariant Appended(commandLine, args[i..]) == Appended(start, args)
    {
      assert args[i..][1..] == args[i + 1..];
      commandLine := commandLine + [SPACE];
      var quoted := QuoteWindowsCommandLineArgument(args[i]);
      commandLine := commandLine + quoted;
    }
    AppendedIsJoined(start, args);
    SplitInvertsBuild(executable, args);
    return Some(commandLine);
  }

  /** The joining loop from a command line so far. */
  ghost function Appended(line: Wide, args: seq<Wide>): Wide
    decreases |args|
  {
    if args == [] then line else Appended(line + [SPACE] + Quoted(args[0]), args[1..])
  }

  lemma {:induction false} AppendedIsJoined(line: Wide, args: seq<Wide>)
    ensures Appended(line, args) == line + Joined(args)
    decreases |args|
  {
    if args != [] {
      AppendedIsJoined(line + [SPACE] + Quoted(args[0]), args[1..]);
      Regroup(line, [SPACE], Quoted(args[0]), Joined(args[1..]));
      Regroup([], [SPACE], Quoted(args[0]), Joined(args[1..]));
    }
  }

  // ---- splitting undoes quoting ----

  /** What may follow a joined argument: the end, or the space before the next one. */
  predicate Delimited(rest: Wide) {
    rest == [] || rest[0] == SPACE
  }

  lemma Regroup(a: Wide, b: Wide, c: Wide, d: Wide)
    ensures a + b + c + d == a + (b + (c + d))
    ensures a + b + c == a + (b + c)
  {
  }

  lemma {:induction false} SlashesOf(n: nat, t: Wide)
    requires t == [] || t[0] != BACKSLASH
    ensures Slashes(Repeat(BACKSLASH, n) + t) == n
  {
    if n > 0 {
      assert (Repeat(BACKSLASH, n) + t)[1..] == Repeat(BACKSLASH, n - 1) + t;
      SlashesOf(n - 1, t);
    }
  }

  lemma ScanPast(n: nat, t: Wide, quoted: bool)
    requires t == [] || t[0] != BACKSLASH
    ensures Scan(Repeat(BACKSLASH, n) + t, quoted) == ScanAfter(n, t, quoted)
  {
    SlashesOf(n, t);
    assert (Repeat(BACKSLASH, n) + t)[n..] == t;
  }

  /** One character of a plain argument, or of a quoted one as the quoting loop writes it. */
  lemma ScanCharacter(c: Unit, pending: nat, next: Wide, quoted: bool)
    requires c != BACKSLASH && (!quoted ==> !Blank(c) && c != QUOTE)
    ensures var n := if c == QUOTE then 2 * pending + 1 else pending;
            var r := Scan(next, quoted);
            Scan(Repeat(BACKSLASH, n) + ([c] + next), quoted) == (Repeat(BACKSLASH, pending) + [c] + r.0, r.1)
  {
    ScanPast(if c == QUOTE then 2 * pending + 1 else pending, [c] + next, quoted);
    assert ([c] + next)[1..] == next;
  }

  lemma {:induction false} ScanPlain(argument: Wide, rest: Wide)
    requires !NeedsQuotes(argument) && Delimited(rest)
    ensures Scan(argument + rest, false) == (argument, rest)
    decreases |argument|
  {
    var n := Slashes(argument);
    var t := argument[n..];
    assert argument == argument[..n] + t;
    if t == [] {
      assert argument == argument[..n];
      ScanPast(n, rest, false);
    } else {
      assert argument[n] == t[0];
      assert t == [t[0]] + t[1..];
      Regroup(Repeat(BACKSLASH, n), [t[0]], t[1..], rest);
      ScanCharacter(t[0], n, t[1..] + rest, false);
      ScanPlain(t[1..], rest);
    }
  }

  lemma {:induction false} ScanBody(argument: Wide, pending: nat, rest: Wide)
    requires Delimited(rest)
    ensures Scan(Body(argument, pending) + ([QUOTE] + rest), true) == (Repeat(BACKSLASH, pending) + argument, rest)
    decreases |argument|
  {
    var after := [QUOTE] + rest;
    if argument == [] {
      ScanPast(2 * pending, after, true);
      assert after[1..] == rest;
      ScanPlain([], rest);
      assert [] + rest == rest;
    } else if argument[0] == BACKSLASH {
      ScanBody(argument[1..], pending + 1, rest);
      assert Repeat(BACKSLASH, pending + 1) + argument[1..] == Repeat(BACKSLASH, pending) + argument;
    } else {
      ScanBodyCharacter(argument, pending, rest);
    }
  }

  lemma {:induction false} ScanBodyCharacter(argument: Wide, pending: nat, rest: Wide)
    requires Delimited(rest) && argument != [] && argument[0] != BACKSLASH
    ensures Scan(Body(argument, pending) + ([QUOTE] + rest), true) == (Repeat(BACKSLASH, pending) + argument, rest)
    decreases |argument|, 0
  {
    var c, tail := argument[0], argument[1..];
    var next := Body(tail, 0) + ([QUOTE] + rest);
    BodyCharacter(argument, pending, [QUOTE] + rest);
    ScanCharacter(c, pending, next, true);
    ScanBody(tail, 0, rest);
    Prefixed(pending, argument);
  }

  lemma BodyCharacter(argument: Wide, pending: nat, rest: Wide)
    requires argument != [] && argument[0] != BACKSLASH
    ensures var n := if argument[0] == QUOTE then 2 * pending + 1 else pending;
            Body(argument, pending) + rest ==
            Repeat(BACKSLASH, n) + ([argument[0]] + (Body(argument[1..], 0) + rest))
  {
    Regroup(Repeat(BACKSLASH, if argument[0] == QUOTE then 2 * pending + 1 else pending), [argument[0]],
            Body(argument[1..], 0), rest);
  }

  lemma Prefixed(pending: nat, argument: Wide)
    requires argument != []
    ensures Repeat(BACKSLASH, pending) + [argument[0]] + (Repeat(BACKSLASH, 0) + argument[1..]) ==
            Repeat(BACKSLASH, pending) + argument
  {
    assert argument == [argument[0]] + argument[1..];
  }

  lemma OpeningQuote(next: Wide)
    ensures Scan([QUOTE] + next, false) == Scan(next, true)
  {
    var text := [QUOTE] + next;
    ScanPast(0, text, false);
    assert Repeat(BACKSLASH, 0) + text == text && text[1..] == next;
    assert Repeat(BACKSLASH, 0) + Scan(next, true).0 == Scan(next, true).0;
  }

  /** One quoted argument is read back exactly, whatever backslashes and quotes it holds. */
  lemma ScanQuoted(argument: Wide, rest: Wide)
    requires Delimited(rest)
    ensures Scan(Quoted(argument) + rest, false) == (argument, rest)
  {
    if argument != [] && !NeedsQuotes(argument) {
      ScanPlain(argument, rest);
    } else {
      var next := Body(argument, 0) + ([QUOTE] + rest);
      OpeningQuote(next);
      assert Quoted(argument) == [QUOTE] + Body(argument, 0) + [QUOTE];
      Regroup([QUOTE], Body(argument, 0), [QUOTE], rest);
      ScanBody(argument, 0, rest);
      assert Repeat(BACKSLASH, 0) + argument == argument;
    }
  }

  lemma JoinedDelimited(args: seq<Wide>)
    ensures Delimited(Joined(args))
  {
  }

  lemma {:induction false} SplitJoined(args: seq<Wide>)
    ensures SplitRest(Joined(args)) == args
  {
    if args != [] {
      var rest := Joined(args[1..]);
      Regroup([SPACE], Quoted(args[0]), rest, []);
      assert Joined(args)[1..] == Quoted(args[0]) + rest;
      SplitFirst(args[0], rest);
      SplitJoined(args[1..]);
      assert args == [args[0]] + args[1..];
    }
  }

  lemma SplitFirst(argument: Wide, rest: Wide)
    requires Delimited(rest)
    ensures SplitRest(Quoted(argument) + rest) == [argument] + SplitRest(rest)
  {
    ScanQuoted(argument, rest);
    QuotedStart(argument);
    assert (Quoted(argument) + rest)[0] == Quoted(argument)[0];
  }

  lemma QuotedStart(argument: Wide)
    ensures |Quoted(argument)| > 0 && !Blank(Quoted(argument)[0])
  {
    if argument != [] && !NeedsQuotes(argument) {
      assert argument[0] in argument;
    }
  }

  lemma {:induction false} ScanProgramQuoted(executable: Wide, rest: Wide)
    requires QUOTE !in executable && Delimited(rest)
    ensures ScanProgram(executable + [QUOTE] + rest, true) == (executable, if rest == [] then [] else rest[1..])
  {
    var text := executable + [QUOTE] + rest;
    if executable == [] {
      assert text[1..] == rest;
    } else {
      assert text[1..] == executable[1..] + [QUOTE] + rest;
      ScanProgramQuoted(executable[1..], rest);
      assert executable == [executable[0]] + executable[1..];
    }
  }

  lemma {:induction false} BodyNulFree(argument: Wide, pending: nat)
    requires NulFree(argument)
    ensures NulFree(Body(argument, pending))
    decreases |argument|
  {
    if argument != [] {
      BodyNulFree(argument[1..], if argument[0] == BACKSLASH then pending + 1 else 0);
    }
  }

  lemma {:induction false} JoinedNulFree(args: seq<Wide>)
    requires AllNulFree(args)
    ensures NulFree(Joined(args))
  {
    if args != [] {
      BodyNulFree(args[0], 0);
      JoinedNulFree(args[1..]);
    }
  }

  lemma {:induction false} ScanNulFree(s: Wide, quoted: bool)
    requires NulFree(s)
    ensures NulFree(Scan(s, quoted).0) && NulFree(Scan(s, quoted).1)
    decreases |s|
  {
    var t := s[Slashes(s)..];
    if t != [] {
      if t[0] == QUOTE {
        if Slashes(s) % 2 == 0 && quoted && |t| > 1 && t[1] == QUOTE {
          ScanNulFree(t[2..], quoted);
        } else {
          ScanNulFree(t[1..], if Slashes(s) % 2 == 1 then quoted else !quoted);
        }
      } else if quoted || !Blank(t[0]) {
        ScanNulFree(t[1..], quoted);
      }
    }
  }

  lemma {:induction false} SplitRestNulFree(s: Wide)
    requires NulFree(s)
    ensures AllNulFree(SplitRest(s))
    decreases |s|
  {
    if s != [] {
      if Blank(s[0]) {
        SplitRestNulFree(s[1..]);
      } else {
        ScanNulFree(s, false);
        SplitRestNulFree(Scan(s, false).1);
      }
    }
  }

  lemma {:induction false} ScanProgramNulFree(s: Wide, quoted: bool)
    requires NulFree(s)
    ensures NulFree(ScanProgram(s, quoted).0) && NulFree(ScanProgram(s, quoted).1)
  {
    if s != [] {
      ScanProgramNulFree(s[1..], if s[0] == QUOTE then !quoted else quoted);
    }
  }

  /** No argument a program receives holds a NUL. */
  lemma SplitNulFree(line: Wide)
    ensures AllNulFree(Split(line))
  {
    var text := UntilNul(line);
    ScanProgramNulFree(text, false);
    SplitRestNulFree(ScanProgram(text, false).1);
  }

  /** Splitting inverts building, for exactly the NUL-free lists. */
  lemma SplitInvertsBuild(executable: Wide, args: seq<Wide>)
    requires QUOTE !in executable
    ensures var line := CommandLineOf(executable, args).value;
            Split(line) == [executable] + args <==> NulFree(executable) && AllNulFree(args)
  {
    var line := CommandLineOf(executable, args).value;
    if NulFree(executable) && AllNulFree(args) {
      JoinedNulFree(args);
      var rest := Joined(args);
      assert line[1..] == executable + [QUOTE] + rest;
      JoinedDelimited(args);
      ScanProgramQuoted(executable, rest);
      SplitJoined(args);
      if args != [] {
        assert Blank(rest[0]);
      }
    } else {
      SplitNulFree(line);
      var all := [executable] + args;
      if !NulFree(executable) {
        assert all[0] == executable;
      } else {
        var i :| 0 <= i < |args| && !NulFree(args[i]);
        assert all[i + 1] == args[i];
      }
    }
  }
}
