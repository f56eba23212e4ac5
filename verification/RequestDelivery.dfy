/** From the accepted message to the target: what `BrokerApplication::Launch` makes of a console request
    (src/broker/BrokerApplication.cpp) reaches conhost and the target. */
module RequestDelivery {
  import opened Text
  import opened Wrappers
  import opened CommandLine
  import opened Names
  import opened Members
  import opened Tokens
  import opened RequestRules
  import opened RequestValidity
  import Json
  import Invocation
  import Delivery
  import RequestBuilder
  import RequestRoundTrip

  /** The launch conhost is to perform. */
  function HostRequestOf(r: BrokerRequest): Delivery.HostRequest {
    Delivery.HostRequest(
      Invocation.Options(r.console.inheritCursor, r.appContainer, r.console.pipeIn, r.console.pipeOut,
                         r.console.pipeResize),
      r.arguments)
  }

  predicate PipesNulFree(c: ConsoleRequest) {
    NulFree(c.pipeIn) && NulFree(c.pipeOut) && NulFree(c.pipeResize)
  }

  /** For every accepted console launch: conhost gets exactly the requested options, and the target
      exactly the requested arguments, if and only if there is an executable, without a quote, and neither
      the arguments nor the pipe names hold a NUL. */
  lemma AcceptedDelivered(conhost: Wide, message: Bytes)
    requires QUOTE !in conhost && NulFree(conhost)
    requires ParsedRequest(message).Some? && ParsedRequest(message).value.operation == ConsoleLaunch
    ensures var r := ParsedRequest(message).value;
            var h := HostRequestOf(r);
            Delivery.Delivered(conhost, h) == Some((h.options, h.arguments)) <==>
            r.arguments != [] && QUOTE !in r.arguments[0] && AllNulFree(r.arguments) && PipesNulFree(r.console)
  {
    var r := ParsedRequest(message).value;
    AcceptedIsValid(message);
    assert ValidPipe(r.console.pipeIn) && ValidPipe(r.console.pipeOut) && ValidPipe(r.console.pipeResize);
    Delivery.DeliveredIff(conhost, HostRequestOf(r));
  }

  // ---- a message that is accepted and not delivered ----

  lemma {:induction false} PrintedSize(w: Wide)
    ensures |Json.PrintedUnits(w)| <= 6 * |w|
  {
    if w != [] {
      PrintedSize(w[1..]);
    }
  }

  /** The bytes of a member. */
  function Size(m: Member): nat {
    |Flat(MemberTokens(m))|
  }

  lemma ValueSize(m: Member)
    ensures Size(m) <= 99 + |Flat(ValueTokens(m.value))|
  {
    var name := TextOf(m.name);
    FlatJoin([Str(name), Punct(COLON)], ValueTokens(m.value));
    FlatJoin([Str(name)], [Punct(COLON)]);
    assert Flat([Str(name)]) == Json.Printed(name) + Flat([]) && Flat([Punct(COLON)]) == [COLON] + Flat([]);
    PrintedSize(name);
    TextIsPlain(m.name);
  }

  lemma TextSize(name: Name, w: Wide)
    requires |w| <= 40
    ensures Size(Member(name, Text(w))) <= 400
  {
    ValueSize(Member(name, Text(w)));
    assert Flat([Str(w)]) == Json.Printed(w) + Flat([]);
    PrintedSize(w);
  }

  lemma PlainFlat(v: Value)
    requires v == Number(1) || v == Flag(false)
    ensures |Flat(ValueTokens(v))| <= 5
  {
    var t := ValueTokens(v)[0];
    assert Flat([t]) == Lexeme(t) + Flat([]);
    assert |Lexeme(t)| <= 5;
  }

  lemma PlainSize(name: Name, v: Value)
    requires v == Number(1) || v == Flag(false)
    ensures Size(Member(name, v)) <= 400
  {
    ValueSize(Member(name, v));
    PlainFlat(v);
  }

  lemma TextsSize(name: Name, w: Wide)
    requires |w| <= 40
    ensures Size(Member(name, Texts([w]))) <= 400
  {
    ValueSize(Member(name, Texts([w])));
    RequestBuilder.ListFlat([], [w]);
    assert Flat([Str(w)]) == Json.Printed(w) + Flat([]);
    PrintedSize(w);
  }

  predicate AllWithin(ms: seq<Member>, k: nat) {
    forall i :: 0 <= i < |ms| ==> Size(ms[i]) <= k
  }

  lemma Within(ms: seq<Member>, m: Member, k: nat)
    requires AllWithin(ms, k) && Size(m) <= k
    ensures AllWithin(ms + [m], k) && |ms + [m]| == |ms| + 1
  {
  }

  lemma FirstSize(m: Member, rest: seq<Token>)
    ensures |Flat(MemberTokens(m) + [Punct(COMMA)] + rest)| == Size(m) + 1 + |Flat(rest)|
  {
    FlatJoin(MemberTokens(m) + [Punct(COMMA)], rest);
    FlatJoin(MemberTokens(m), [Punct(COMMA)]);
    assert Flat([Punct(COMMA)]) == [COMMA] + Flat([]);
  }

  lemma OneMore(k: nat, n: nat)
    ensures (k + 1) * n + k + 1 == (k + 1) * (n + 1)
  {
  }

  lemma {:induction false} MembersSize(ms: seq<Member>, k: nat)
    requires AllWithin(ms, k)
    ensures |Flat(MembersTokens(ms))| <= (k + 1) * |ms|
  {
    if |ms| == 1 {
      assert Size(ms[0]) <= k;
      OneMore(k, 0);
    } else if |ms| > 1 {
      FirstSize(ms[0], MembersTokens(ms[1..]));
      MembersSize(ms[1..], k);
      OneMore(k, |ms| - 1);
    }
  }

  lemma ObjectSize(ms: seq<Member>, k: nat)
    requires AllWithin(ms, k)
    ensures |Flat(ObjectTokens(ms))| <= (k + 1) * |ms| + 2
  {
    MembersSize(ms, k);
    FlatJoin([Punct(OPEN)] + MembersTokens(ms), [Punct(CLOSE)]);
    FlatJoin([Punct(OPEN)], MembersTokens(ms));
    assert Flat([Punct(OPEN)]) == [OPEN] + Flat([]) && Flat([Punct(CLOSE)]) == [CLOSE] + Flat([]);
  }

  /** 00000000-0000-0000-0000-000000000000 */
  const ZERO_ID: Wide := [
    0x30, 0x30, 0x30, 0x30, 0x30, 0x30, 0x30, 0x30, 0x2D, 0x30, 0x30, 0x30, 0x30, 0x2D, 0x30, 0x30, 0x30, 0x30,
    0x2D, 0x30, 0x30, 0x30, 0x30, 0x2D, 0x30, 0x30, 0x30, 0x30, 0x30, 0x30, 0x30, 0x30, 0x30, 0x30, 0x30, 0x30]

  /** A launch of `a` whose first pipe name ends in a NUL. */
  function NulPipeRequest(): BrokerRequest {
    BrokerRequest(ConsoleLaunch, ZERO_ID, [0x61], false, false, false, false, NO_CONTAINER, [[0x61]], [0x61],
                  ConsoleRequest(CONSOLE_PIPE + [0], CONSOLE_PIPE + [0x61], CONSOLE_PIPE + [0x62], false),
                  NO_INTERACTIVE)
  }

  lemma PipeIsValid(u: Unit)
    requires u < 0x80 && u != 0x5C && u != 0x2F
    ensures ValidPipe(CONSOLE_PIPE + [u])
  {
    RequestRoundTrip.AsciiPrintable(CONSOLE_PIPE + [u]);
  }

  lemma NulPipeConsole()
    ensures ValidConsole(NulPipeRequest().console)
  {
    var c := NulPipeRequest().console;
    PipeIsValid(0);
    PipeIsValid(0x61);
    PipeIsValid(0x62);
    assert c.pipeIn[|CONSOLE_PIPE|] == 0 && c.pipeOut[|CONSOLE_PIPE|] == 0x61 && c.pipeResize[|CONSOLE_PIPE|] == 0x62;
  }

  lemma ZeroIdIsRequestId()
    ensures IsRequestId(ZERO_ID) && |ZERO_ID| == 36
  {
  }

  lemma OneLetter(w: Wide)
    requires w == [0x61]
    ensures IsValidProfileId(w) && Json.Printable(w)
  {
    RequestRoundTrip.AsciiPrintable(w);
  }

  lemma NulPipeIsValid()
    ensures ValidRequest(NulPipeRequest())
  {
    var r := NulPipeRequest();
    OneLetter([0x61]);
    NulPipeConsole();
    ZeroIdIsRequestId();
    PlainLaunchIsValid(r);
  }

  lemma PlainLaunchIsValid(r: BrokerRequest)
    requires r.operation == ConsoleLaunch && IsRequestId(r.requestId) && ValidConsole(r.console)
    requires r.appContainer == NO_CONTAINER && r.interactive == NO_INTERACTIVE && !r.force
    requires IsValidProfileId(r.profileId) && Json.Printable(r.profileId)
    requires r.arguments == [r.profileId] && r.workingDirectory == r.profileId
    ensures ValidRequest(r)
  {
  }

  lemma ConsolePartsSize(c: ConsoleRequest)
    requires |c.pipeIn| <= 40 && |c.pipeOut| <= 40 && |c.pipeResize| <= 40 && !c.inheritCursor
    ensures Size(Member(Console, Object(RequestBuilder.ConsoleParts(c)))) <= 2000
  {
    var parts := RequestBuilder.ConsoleParts(c);
    TextSize(PipeIn, c.pipeIn);
    TextSize(PipeOut, c.pipeOut);
    TextSize(PipeResize, c.pipeResize);
    PlainSize(InheritCursor, Flag(false));
    ObjectSize(parts, 400);
    ValueSize(Member(Console, Object(parts)));
  }

  /** A launch without flags and with short texts. */
  predicate Short(r: BrokerRequest) {
    && r.operation == ConsoleLaunch && !r.log && !r.restrictAccess && !r.lowIntegrity && !r.appContainer.enabled
    && |r.requestId| <= 40 && |r.profileId| <= 40 && |r.workingDirectory| <= 40
    && |r.arguments| == 1 && |r.arguments[0]| <= 40
    && |r.console.pipeIn| <= 40 && |r.console.pipeOut| <= 40 && |r.console.pipeResize| <= 40
    && !r.console.inheritCursor
  }

  lemma WithinText(ms: seq<Member>, name: Name, w: Wide)
    requires AllWithin(ms, 2000) && |w| <= 40
    ensures AllWithin(ms + [Member(name, Text(w))], 2000) && |ms + [Member(name, Text(w))]| == |ms| + 1
  {
    TextSize(name, w);
    Within(ms, Member(name, Text(w)), 2000);
  }

  lemma HeadSize(r: BrokerRequest) returns (ms: seq<Member>)
    requires Short(r)
    ensures ms == [RequestBuilder.VERSION_ONE] + [Member(RequestId, Text(r.requestId))] +
                  [Member(Operation, Text(LAUNCH))] + [Member(ProfileId, Text(r.profileId))] +
                  [Member(Mode, Text(CONSOLE))]
    ensures AllWithin(ms, 2000) && |ms| == 5
  {
    ms := [RequestBuilder.VERSION_ONE];
    PlainSize(Version, Number(1));
    WithinText(ms, RequestId, r.requestId);
    ms := ms + [Member(RequestId, Text(r.requestId))];
    WithinText(ms, Operation, LAUNCH);
    ms := ms + [Member(Operation, Text(LAUNCH))];
    WithinText(ms, ProfileId, r.profileId);
    ms := ms + [Member(ProfileId, Text(r.profileId))];
    WithinText(ms, Mode, CONSOLE);
    ms := ms + [Member(Mode, Text(CONSOLE))];
  }

  lemma LaunchSize(r: BrokerRequest)
    requires Short(r)
    ensures var ms := RequestBuilder.LaunchMembers(r, CONSOLE); AllWithin(ms, 2000) && |ms| == 7
  {
    var ms := HeadSize(r);
    assert r.arguments == [r.arguments[0]];
    TextsSize(Arguments, r.arguments[0]);
    Within(ms, Member(Arguments, Texts(r.arguments)), 2000);
    WithinText(ms + [Member(Arguments, Texts(r.arguments))], WorkingDirectory, r.workingDirectory);
  }

  lemma ShortFits(r: BrokerRequest)
    requires Short(r)
    ensures |RequestBuilder.Message(RequestBuilder.MembersOf(r))| <= MAXIMUM_MESSAGE_BYTES
  {
    var ms := RequestBuilder.LaunchMembers(r, CONSOLE);
    LaunchSize(r);
    ConsolePartsSize(r.console);
    Within(ms, Member(Console, Object(RequestBuilder.ConsoleParts(r.console))), 2000);
    Unflagged(ms);
    ObjectSize(RequestBuilder.MembersOf(r), 2000);
  }

  lemma NulPipeFits()
    ensures |RequestBuilder.Message(RequestBuilder.MembersOf(NulPipeRequest()))| <= MAXIMUM_MESSAGE_BYTES
  {
    ZeroIdIsRequestId();
    ShortFits(NulPipeRequest());
  }

  lemma Unflagged(ms: seq<Member>)
    ensures ms + [] + [] + [] == ms
  {
  }

  /** Acceptance alone does not promise delivery: this message is accepted, and its pipe name, which holds a
      NUL, does not reach conhost. */
  lemma AcceptedNotDelivered(conhost: Wide) returns (message: Bytes)
    requires QUOTE !in conhost && NulFree(conhost)
    ensures ParsedRequest(message) == Some(NulPipeRequest())
    ensures var h := HostRequestOf(NulPipeRequest());
            Delivery.Delivered(conhost, h) != Some((h.options, h.arguments))
  {
    var r := NulPipeRequest();
    message := RequestBuilder.Message(RequestBuilder.MembersOf(r));
    NulPipeIsValid();
    NulPipeFits();
    RequestRoundTrip.RequestCodec(r);
    AcceptedDelivered(conhost, message);
    assert r.console.pipeIn[|CONSOLE_PIPE|] == 0;
    assert !NulFree(r.console.pipeIn);
  }
}
