/** The launcher's request builders (`BuildManagementRequest`, `BuildConsoleLaunchRequest`,
    `BuildInteractiveLaunchRequest`, src/protocol/BrokerProtocol.cpp). */
module RequestBuilder {
  import opened Text
  import opened Wrappers
  import opened Unicode
  import opened AppContainer
  import opened Json
  import opened Tokens
  import opened Names
  import opened Members
  import opened RequestRules

  function OperationText(operation: RequestOperation): Wide {
    match operation
    case ConsoleLaunch => LAUNCH
    case InteractiveLaunch => LAUNCH
    case Create => CREATE
    case TakeOver => TAKEOVER
    case List => LIST
    case Forget => FORGET
    case Delete => DELETE
  }

  const VERSION_ONE := Member(Version, Number(1))

  function FlagMember(name: Name, flag: bool): seq<Member> {
    if flag then [Member(name, Flag(true))] else []
  }

  // ---- the members each builder writes ----

  function ManagementMembers(operation: RequestOperation, requestId: Wide, profileId: Wide, force: bool): seq<Member> {
    [VERSION_ONE] + [Member(RequestId, Text(requestId))] + [Member(Operation, Text(OperationText(operation)))] +
    (if operation != List then [Member(ProfileId, Text(profileId))] else []) + FlagMember(Force, force)
  }

  function LaunchMembers(r: BrokerRequest, mode: Wide): seq<Member> {
    [VERSION_ONE] + [Member(RequestId, Text(r.requestId))] + [Member(Operation, Text(LAUNCH))] +
    [Member(ProfileId, Text(r.profileId))] + [Member(Mode, Text(mode))] + [Member(Arguments, Texts(r.arguments))] +
    [Member(WorkingDirectory, Text(r.workingDirectory))]
  }

  function FlaggedMembers(r: BrokerRequest, mode: Wide): seq<Member> {
    LaunchMembers(r, mode) + FlagMember(Log, r.log) + FlagMember(RestrictAccess, r.restrictAccess) +
    FlagMember(LowIntegrity, r.lowIntegrity)
  }

  function ContainedMembers(r: BrokerRequest): seq<Member> {
    if r.appContainer.enabled then
      FlaggedMembers(r, CONSOLE) + [Member(AppContainer, Flag(true))] +
      [Member(Capabilities, Texts(r.appContainer.capabilities))]
    else FlaggedMembers(r, CONSOLE)
  }

  function ConsoleParts(c: ConsoleRequest): seq<Member> {
    [Member(PipeIn, Text(c.pipeIn))] + [Member(PipeOut, Text(c.pipeOut))] + [Member(PipeResize, Text(c.pipeResize))] +
    [Member(InheritCursor, Flag(c.inheritCursor))]
  }

  function InteractiveParts(i: InteractiveRequest): seq<Member> {
    [Member(LeasePipe, Text(i.leasePipe))] + [Member(Nonce, Text(i.nonce))]
  }

  function MembersOf(r: BrokerRequest): seq<Member> {
    match r.operation
    case ConsoleLaunch => ContainedMembers(r) + [Member(Console, Object(ConsoleParts(r.console)))]
    case InteractiveLaunch =>
      FlaggedMembers(r, INTERACTIVE) + [Member(Interactive, Object(InteractiveParts(r.interactive)))]
    case _ => ManagementMembers(r.operation, r.requestId, r.profileId, r.force)
  }

  /** The message a builder writes, without any whitespace. */
  function Message(ms: seq<Member>): Bytes {
    Flat(ObjectTokens(ms))
  }

  // ---- writing members one after another ----

  /** A message up to its last member so far. */
  function Opened(ms: seq<Member>): Bytes {
    Flat([Punct(OPEN)] + MembersTokens(ms))
  }

  /** The comma, the name and the colon before a further value. */
  function Key(name: Name): Bytes {
    Flat([Punct(COMMA), Str(TextOf(name)), Punct(COLON)])
  }

  lemma {:induction false} MembersTokensMore(ms: seq<Member>, m: Member)
    requires ms != []
    ensures MembersTokens(ms + [m]) == MembersTokens(ms) + ([Punct(COMMA)] + MemberTokens(m))
  {
    if |ms| == 1 {
      assert (ms + [m])[1..] == [m] && (ms + [m])[0] == ms[0];
      Members.Regroup(MemberTokens(ms[0]), [Punct(COMMA)], MemberTokens(m));
    } else {
      assert (ms + [m])[1..] == ms[1..] + [m];
      MembersTokensMore(ms[1..], m);
      Members.Regroup(MemberTokens(ms[0]) + [Punct(COMMA)], MembersTokens(ms[1..]), [Punct(COMMA)] + MemberTokens(m));
    }
  }

  lemma Extended(ms: seq<Member>, m: Member)
    requires ms != []
    ensures Opened(ms) + Key(m.name) + Flat(ValueTokens(m.value)) == Opened(ms + [m])
  {
    var key := [Punct(COMMA), Str(TextOf(m.name)), Punct(COLON)];
    MembersTokensMore(ms, m);
    assert [Punct(COMMA)] + MemberTokens(m) == key + ValueTokens(m.value);
    Members.Regroup([Punct(OPEN)], MembersTokens(ms), key + ValueTokens(m.value));
    FlatJoin([Punct(OPEN)] + MembersTokens(ms), key + ValueTokens(m.value));
    FlatJoin(key, ValueTokens(m.value));
    Json.Regroup(Opened(ms), Key(m.name), Flat(ValueTokens(m.value)));
  }

  lemma Closed(ms: seq<Member>)
    ensures Opened(ms) + [CLOSE] == Message(ms)
  {
    FlatJoin([Punct(OPEN)] + MembersTokens(ms), [Punct(CLOSE)]);
  }

  /** One text member. */
  method AppendText(request: Bytes, name: Name, w: Wide, ghost ms: seq<Member>) returns (r: Bytes)
    requires ms != [] && request == Opened(ms)
    ensures r == Opened(ms + [Member(name, Text(w))])
  {
    r := AppendJsonString(request + Key(name), w);
    Extended(ms, Member(name, Text(w)));
  }

  method AppendFlag(request: Bytes, name: Name, b: bool, ghost ms: seq<Member>) returns (r: Bytes)
    requires ms != [] && request == Opened(ms)
    ensures r == Opened(ms + [Member(name, Flag(b))])
  {
    r := request + Key(name) + (if b then TRUE else FALSE);
    Extended(ms, Member(name, Flag(b)));
  }

  method AppendFlagIf(request: Bytes, name: Name, b: bool, ghost ms: seq<Member>) returns (r: Bytes)
    requires ms != [] && request == Opened(ms)
    ensures r == Opened(ms + FlagMember(name, b))
  {
    if b {
      r := AppendFlag(request, name, true, ms);
    } else {
      r := request;
      assert ms + [] == ms;
    }
  }

  lemma {:induction false} TextsTokensMore(ws: seq<Wide>, i: nat)
    requires 0 < i < |ws|
    ensures TextsTokens(ws[..i + 1]) == TextsTokens(ws[..i]) + ([Punct(COMMA)] + [Str(ws[i])])
  {
    if i == 1 {
      assert ws[..2][1..] == [ws[1]] && ws[..1][0] == ws[..2][0] == ws[0];
    } else {
      assert ws[..i + 1][1..] == ws[1..][..i] && ws[..i][1..] == ws[1..][..i - 1];
      assert ws[..i][0] == ws[..i + 1][0] == ws[0];
      TextsTokensMore(ws[1..], i - 1);
      Members.Regroup([Str(ws[0]), Punct(COMMA)], TextsTokens(ws[1..][..i - 1]), [Punct(COMMA)] + [Str(ws[i])]);
    }
  }

  lemma TextsFlatMore(ws: seq<Wide>, i: nat)
    requires i < |ws|
    ensures Flat(TextsTokens(ws[..i + 1])) ==
            Flat(TextsTokens(ws[..i])) + (if i != 0 then [COMMA] else []) + Printed(ws[i])
  {
    if i == 0 {
      assert ws[..1] == [ws[0]];
      assert [] + [] + Printed(ws[0]) == Printed(ws[0]);
    } else {
      TextsTokensMore(ws, i);
      FlatJoin(TextsTokens(ws[..i]), [Punct(COMMA)] + [Str(ws[i])]);
      FlatJoin([Punct(COMMA)], [Str(ws[i])]);
      Json.Regroup(Flat(TextsTokens(ws[..i])), [COMMA], Printed(ws[i]));
    }
  }

  /** A list of strings. */
  method AppendTexts(request: Bytes, name: Name, ws: seq<Wide>, ghost ms: seq<Member>) returns (r: Bytes)
    requires ms != [] && request == Opened(ms)
    ensures r == Opened(ms + [Member(name, Texts(ws))])
  {
    r := request + Key(name) + [OPEN_LIST];
    ghost var start := r;
    for index := 0 to |ws|
      invariant r == start + Flat(TextsTokens(ws[..index]))
    {
      TextsFlatMore(ws, index);
      ghost var before := Flat(TextsTokens(ws[..index]));
      var comma: Bytes := if index != 0 then [COMMA] else [];
      r := r + comma;
      r := AppendJsonString(r, ws[index]);
      Json.Regroup(start, before, comma);
      Json.Regroup(start, before + comma, Printed(ws[index]));
    }
    assert ws[..|ws|] == ws;
    r := r + [CLOSE_LIST];
    ListFlat(request + Key(name), ws);
    Extended(ms, Member(name, Texts(ws)));
  }

  lemma ListFlat(before: Bytes, ws: seq<Wide>)
    ensures before + [OPEN_LIST] + Flat(TextsTokens(ws)) + [CLOSE_LIST] == before + Flat(ValueTokens(Texts(ws)))
  {
    var texts := Flat(TextsTokens(ws));
    FlatJoin([Punct(OPEN_LIST)] + TextsTokens(ws), [Punct(CLOSE_LIST)]);
    FlatJoin([Punct(OPEN_LIST)], TextsTokens(ws));
    Json.Regroup(before, [OPEN_LIST], texts);
    Json.Regroup(before, [OPEN_LIST] + texts, [CLOSE_LIST]);
  }

  // ---- the builders ----

  method BuildManagementRequest(operation: RequestOperation, requestId: Wide, profileId: Wide, force: bool)
    returns (request: Bytes)
    ensures request == Message(ManagementMembers(operation, requestId, profileId, force))
  {
    ghost var ms := [VERSION_ONE];
    request := Opened([VERSION_ONE]);
    request := AppendText(request, RequestId, requestId, ms);
    ms := ms + [Member(RequestId, Text(requestId))];
    request := AppendText(request, Operation, OperationText(operation), ms);
    ms := ms + [Member(Operation, Text(OperationText(operation)))];
    if operation != List {
      request := AppendText(request, ProfileId, profileId, ms);
      ms := ms + [Member(ProfileId, Text(profileId))];
    } else {
      assert ms + [] == ms;
    }
    request := AppendFlagIf(request, Force, force, ms);
    ms := ms + FlagMember(Force, force);
    Closed(ms);
    request := request + [CLOSE];
  }

  predicate AllValidUtf16(ws: seq<Wide>) {
    forall i :: 0 <= i < |ws| ==> IsValidUtf16(ws[i])
  }

  /** What both launch builders check. */
  predicate MayBegin(r: BrokerRequest) {
    && r.requestId != [] && r.profileId != [] && r.arguments != [] && r.workingDirectory != []
    && IsValidUtf16(r.requestId) && IsValidUtf16(r.profileId) && IsValidUtf16(r.workingDirectory)
    && AllValidUtf16(r.arguments)
  }

  method BeginLaunchRequest(r: BrokerRequest, mode: Wide) returns (ok: bool, request: Bytes)
    ensures ok <==> MayBegin(r)
    ensures ok ==> request == Opened(LaunchMembers(r, mode))
  {
    request := [];
    ok := MayBegin(r);
    if !ok {
      return;
    }
    ghost var ms := [VERSION_ONE];
    request := Opened([VERSION_ONE]);
    request := AppendText(request, RequestId, r.requestId, ms);
    ms := ms + [Member(RequestId, Text(r.requestId))];
    request := AppendText(request, Operation, LAUNCH, ms);
    ms := ms + [Member(Operation, Text(LAUNCH))];
    request := AppendText(request, ProfileId, r.profileId, ms);
    ms := ms + [Member(ProfileId, Text(r.profileId))];
    request := AppendText(request, Mode, mode, ms);
    ms := ms + [Member(Mode, Text(mode))];
    request := AppendTexts(request, Arguments, r.arguments, ms);
    ms := ms + [Member(Arguments, Texts(r.arguments))];
    request := AppendText(request, WorkingDirectory, r.workingDirectory, ms);
  }

  method AppendFlags(start: Bytes, r: BrokerRequest, mode: Wide) returns (request: Bytes)
    requires start == Opened(LaunchMembers(r, mode))
    ensures request == Opened(FlaggedMembers(r, mode))
  {
    ghost var ms := LaunchMembers(r, mode);
    request := AppendFlagIf(start, Log, r.log, ms);
    ms := ms + FlagMember(Log, r.log);
    request := AppendFlagIf(request, RestrictAccess, r.restrictAccess, ms);
    ms := ms + FlagMember(RestrictAccess, r.restrictAccess);
    request := AppendFlagIf(request, LowIntegrity, r.lowIntegrity, ms);
  }

  predicate MayBuildConsole(r: BrokerRequest) {
    && IsValidAppContainerOptions(r.appContainer)
    && !(r.appContainer.enabled && (r.restrictAccess || r.lowIntegrity))
    && r.console.pipeIn != [] && r.console.pipeOut != [] && r.console.pipeResize != []
    && IsValidUtf16(r.console.pipeIn) && IsValidUtf16(r.console.pipeOut) && IsValidUtf16(r.console.pipeResize)
    && MayBegin(r)
  }

  predicate MayBuildInteractive(r: BrokerRequest) {
    && r.interactive.leasePipe != [] && r.interactive.nonce != []
    && IsValidUtf16(r.interactive.leasePipe) && IsValidUtf16(r.interactive.nonce) && MayBegin(r)
  }

  lemma ObjectFlat(before: Bytes, name: Name, parts: seq<Member>, ms: seq<Member>)
    requires ms != [] && before == Opened(ms) + Key(name) + Opened(parts) + [CLOSE]
    ensures before == Opened(ms + [Member(name, Object(parts))])
  {
    Closed(parts);
    Json.Regroup(Opened(ms) + Key(name), Opened(parts), [CLOSE]);
    Extended(ms, Member(name, Object(parts)));
  }

  method BuildConsoleObject(c: ConsoleRequest) returns (text: Bytes)
    ensures text == Opened(ConsoleParts(c))
  {
    ghost var parts := [Member(PipeIn, Text(c.pipeIn))];
    text := Opened([Member(PipeIn, Text(c.pipeIn))]);
    text := AppendText(text, PipeOut, c.pipeOut, parts);
    parts := parts + [Member(PipeOut, Text(c.pipeOut))];
    text := AppendText(text, PipeResize, c.pipeResize, parts);
    parts := parts + [Member(PipeResize, Text(c.pipeResize))];
    text := AppendFlag(text, InheritCursor, c.inheritCursor, parts);
  }

  /** What the builder of the request's operation returns; None when it refuses. */
  function Built(r: BrokerRequest): Option<Bytes> {
    match r.operation
    case ConsoleLaunch =>
      if MayBuildConsole(r) && |Message(MembersOf(r))| <= MAXIMUM_MESSAGE_BYTES then Some(Message(MembersOf(r)))
      else None
    case InteractiveLaunch =>
      if MayBuildInteractive(r) && |Message(MembersOf(r))| <= MAXIMUM_MESSAGE_BYTES then Some(Message(MembersOf(r)))
      else None
    case _ => Some(Message(MembersOf(r)))
  }

  method BuildConsoleLaunchRequest(r: BrokerRequest) returns (message: Option<Bytes>)
    requires r.operation == ConsoleLaunch
    ensures message == Built(r)
  {
    if || !IsValidAppContainerOptions(r.appContainer)
       || (r.appContainer.enabled && (r.restrictAccess || r.lowIntegrity))
       || r.console.pipeIn == [] || r.console.pipeOut == [] || r.console.pipeResize == []
       || !IsValidUtf16(r.console.pipeIn) || !IsValidUtf16(r.console.pipeOut) || !IsValidUtf16(r.console.pipeResize)
    {
      return None;
    }
    var ok, request := BeginLaunchRequest(r, CONSOLE);
    if !ok {
      return None;
    }
    request := AppendFlags(request, r, CONSOLE);
    if r.appContainer.enabled {
      request := AppendFlag(request, AppContainer, true, FlaggedMembers(r, CONSOLE));
      request := AppendTexts(request, Capabilities, r.appContainer.capabilities,
                             FlaggedMembers(r, CONSOLE) + [Member(AppContainer, Flag(true))]);
    }
    assert request == Opened(ContainedMembers(r));
    var console := BuildConsoleObject(r.console);
    request := request + Key(Console) + console + [CLOSE];
    ObjectFlat(request, Console, ConsoleParts(r.console), ContainedMembers(r));
    Closed(MembersOf(r));
    request := request + [CLOSE];
    return if |request| <= MAXIMUM_MESSAGE_BYTES then Some(request) else None;
  }

  method BuildInteractiveLaunchRequest(r: BrokerRequest) returns (message: Option<Bytes>)
    requires r.operation == InteractiveLaunch
    ensures message == Built(r)
  {
    if || r.interactive.leasePipe == [] || r.interactive.nonce == []
       || !IsValidUtf16(r.interactive.leasePipe) || !IsValidUtf16(r.interactive.nonce)
    {
      return None;
    }
    var ok, request := BeginLaunchRequest(r, INTERACTIVE);
    if !ok {
      return None;
    }
    request := AppendFlags(request, r, INTERACTIVE);
    var interactive := Opened([Member(LeasePipe, Text(r.interactive.leasePipe))]);
    interactive := AppendText(interactive, Nonce, r.interactive.nonce,
                              [Member(LeasePipe, Text(r.interactive.leasePipe))]);
    request := request + Key(Interactive) + interactive + [CLOSE];
    ObjectFlat(request, Interactive, InteractiveParts(r.interactive), FlaggedMembers(r, INTERACTIVE));
    Closed(MembersOf(r));
    request := request + [CLOSE];
    return if |request| <= MAXIMUM_MESSAGE_BYTES then Some(request) else None;
  }
}
