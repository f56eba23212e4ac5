/** Every request the builders write is parsed back exactly, or is one the parser must refuse. */
module RequestRoundTrip {
  import opened Text
  import opened Wrappers
  import opened Unicode
  import opened AppContainer
  import opened Json
  import opened Tokens
  import opened Names
  import opened Members
  import opened RequestRules
  import opened RequestParser
  import opened RequestValidity
  import opened RequestBuilder

  // ---- printable texts ----

  predicate IsAscii(w: Wide) {
    |w| <= INT_MAX && forall i :: 0 <= i < |w| ==> w[i] < 0x80
  }

  lemma {:induction false} AsciiPrintable(w: Wide)
    requires IsAscii(w)
    ensures Printable(w)
  {
    AsciiUtf8(w);
  }

  lemma {:induction false} AsciiUtf8(w: Wide)
    requires forall i :: 0 <= i < |w| ==> w[i] < 0x80
    ensures WellFormed(w) && |ToUtf8(w)| == |w|
  {
    if w != [] {
      AsciiUtf8(w[1..]);
      assert Scalars(w)[1..] == Scalars(w[1..]);
    }
  }

  lemma NamePrintable(name: Name)
    ensures Printable(TextOf(name))
  {
    TextIsPlain(name);
    AsciiPrintable(TextOf(name));
  }

  lemma RequestIdPrintable(w: Wide)
    requires IsRequestId(w)
    ensures Printable(w)
  {
    AsciiPrintable(w);
  }

  lemma CapabilitiesPrintable(ws: seq<Wide>)
    requires forall i :: 0 <= i < |ws| ==> IsAppContainerCapability(ws[i])
    ensures AllPrintable(ws)
  {
    forall i | 0 <= i < |ws|
      ensures Printable(ws[i])
    {
      AsciiPrintable(ws[i]);
    }
  }

  lemma OperationPrintable(operation: RequestOperation)
    ensures Printable(OperationText(operation))
  {
    match operation
    case ConsoleLaunch => AsciiPrintable(LAUNCH);
    case InteractiveLaunch => AsciiPrintable(LAUNCH);
    case Create => AsciiPrintable(CREATE);
    case TakeOver => AsciiPrintable(TAKEOVER);
    case List => AsciiPrintable(LIST);
    case Forget => AsciiPrintable(FORGET);
    case Delete => AsciiPrintable(DELETE);
  }

  lemma ModePrintable(mode: Wide)
    requires mode == CONSOLE || mode == INTERACTIVE
    ensures Printable(mode)
  {
    AsciiPrintable(mode);
  }

  // ---- members that can be rendered ----

  predicate Sound(schema: Schema, ms: seq<Member>) {
    AllTyped(schema, ms) && AllWritable(MembersTokens(ms))
  }

  predicate SoundMember(schema: Schema, m: Member) {
    TypedMember(schema, m) && AllWritable(ValueTokens(m.value))
  }

  lemma WritableJoin(a: seq<Token>, b: seq<Token>)
    ensures AllWritable(a + b) <==> AllWritable(a) && AllWritable(b)
  {
    assert forall i :: 0 <= i < |a| ==> (a + b)[i] == a[i];
    assert forall i :: 0 <= i < |b| ==> (a + b)[|a| + i] == b[i];
  }

  lemma MemberWritable(schema: Schema, m: Member)
    requires SoundMember(schema, m)
    ensures AllWritable(MemberTokens(m))
  {
    NamePrintable(m.name);
    WritableJoin([Str(TextOf(m.name)), Punct(COLON)], ValueTokens(m.value));
  }

  lemma SoundOne(schema: Schema, m: Member)
    requires SoundMember(schema, m)
    ensures Sound(schema, [m])
  {
    MemberWritable(schema, m);
  }

  lemma SoundMore(schema: Schema, ms: seq<Member>, m: Member)
    requires Sound(schema, ms) && SoundMember(schema, m)
    ensures Sound(schema, ms + [m])
  {
    MemberWritable(schema, m);
    MembersTokensMore(ms, m);
    WritableJoin([Punct(COMMA)], MemberTokens(m));
    WritableJoin(MembersTokens(ms), [Punct(COMMA)] + MemberTokens(m));
  }

  lemma ObjectWritable(schema: Schema, ms: seq<Member>)
    requires Sound(schema, ms)
    ensures AllWritable(ObjectTokens(ms))
  {
    WritableJoin([Punct(OPEN)], MembersTokens(ms));
    WritableJoin([Punct(OPEN)] + MembersTokens(ms), [Punct(CLOSE)]);
  }

  lemma {:induction false} TextsWritable(ws: seq<Wide>)
    requires AllPrintable(ws)
    ensures AllWritable(TextsTokens(ws))
  {
    if |ws| > 1 {
      TextsWritable(ws[1..]);
      WritableJoin([Str(ws[0]), Punct(COMMA)], TextsTokens(ws[1..]));
    }
  }

  lemma ListWritable(ws: seq<Wide>)
    requires AllPrintable(ws)
    ensures AllWritable(ValueTokens(Texts(ws)))
  {
    TextsWritable(ws);
    WritableJoin([Punct(OPEN_LIST)], TextsTokens(ws));
    WritableJoin([Punct(OPEN_LIST)] + TextsTokens(ws), [Punct(CLOSE_LIST)]);
  }

  // ---- members that are accepted, one after another ----

  /** The members can be rendered, and the parser has drafted `d` after them. */
  ghost predicate Ready(ms: seq<Member>, d: Draft) {
    Sound(Top, ms) && Collect(ms).Some? && Drafts(d, Collect(ms).value)
  }

  function AfterFlag(d: Draft, name: Name, b: bool): Draft {
    if b then d.(request := WithFlag(d.request, name, b), seen := d.seen + {name}) else d
  }

  function AfterTexts(d: Draft, name: Name, ws: seq<Wide>): Draft {
    d.(request := WithTexts(d.request, name, ws), seen := d.seen + {name})
  }

  lemma ReadyStart()
    ensures Ready([VERSION_ONE], Draft(RequestOf(map[]), [], Missing, {Version}))
  {
    SoundOne(Top, VERSION_ONE);
    assert [] + [VERSION_ONE] == [VERSION_ONE];
    CollectMore([], VERSION_ONE);
    AddPlain(map[], VERSION_ONE);
    FillsVersion(map[], 1);
    KeepsTexts(map[], Version, Number(1));
  }

  lemma ReadyText(ms: seq<Member>, d: Draft, name: Name, w: Wide)
    requires Ready(ms, d) && KindOf(Top, name) == Some(TextKind) && name !in d.seen
    requires Printable(w) && ValidField(name, Text(w))
    ensures Ready(ms + [Member(name, Text(w))], DraftWithText(d, name, w))
  {
    var m, fields := Member(name, Text(w)), Collect(ms).value;
    SoundMore(Top, ms, m);
    CollectMore(ms, m);
    AddPlain(fields, m);
    DraftsText(d, fields, name, w);
  }

  lemma ReadyFlag(ms: seq<Member>, d: Draft, name: Name, b: bool)
    requires Ready(ms, d) && KindOf(Top, name) == Some(FlagKind) && name !in d.seen
    ensures Ready(ms + FlagMember(name, b), AfterFlag(d, name, b))
  {
    if b {
      var m, fields := Member(name, Flag(true)), Collect(ms).value;
      SoundMore(Top, ms, m);
      CollectMore(ms, m);
      AddPlain(fields, m);
      FillsFlag(fields, name, true);
      KeepsTexts(fields, name, Flag(true));
    } else {
      assert ms + [] == ms;
    }
  }

  lemma ReadyTexts(ms: seq<Member>, d: Draft, name: Name, ws: seq<Wide>)
    requires Ready(ms, d) && KindOf(Top, name) == Some(TextsKind) && name !in d.seen
    requires AllPrintable(ws) && ValidTexts(name, ws)
    ensures Ready(ms + [Member(name, Texts(ws))], AfterTexts(d, name, ws))
  {
    var m, fields := Member(name, Texts(ws)), Collect(ms).value;
    ListWritable(ws);
    SoundMore(Top, ms, m);
    CollectMore(ms, m);
    AddPlain(fields, m);
    FillsTexts(fields, name, ws);
    KeepsTexts(fields, name, Texts(ws));
  }

  // ---- nested objects ----

  /** The members of a nested object can be rendered, and collecting them gives these fields. */
  ghost predicate Gathers(schema: Schema, parts: seq<Member>, fields: map<Name, Value>) {
    Sound(schema, parts) && Collect(parts) == Some(fields)
  }

  lemma AddPart(schema: Schema, parts: seq<Member>, fields: map<Name, Value>, m: Member)
    requires Gathers(schema, parts, fields) && m.name !in fields
    requires SoundMember(schema, m) && !m.value.Object? && ValidField(m.name, m.value)
    ensures Gathers(schema, parts + [m], fields[m.name := m.value])
  {
    SoundMore(schema, parts, m);
    CollectMore(parts, m);
    AddPlain(fields, m);
  }

  lemma FirstPart(schema: Schema, m: Member)
    requires SoundMember(schema, m) && !m.value.Object? && ValidField(m.name, m.value)
    ensures Gathers(schema, [m], map[m.name := m.value])
  {
    SoundOne(schema, m);
    assert [] + [m] == [m];
    CollectMore([], m);
    AddPlain(map[], m);
  }

  lemma AddTextPart(schema: Schema, parts: seq<Member>, fields: map<Name, Value>, name: Name, w: Wide)
    requires Gathers(schema, parts, fields) && name !in fields
    requires schema != Top && KindOf(schema, name) == Some(TextKind) && Printable(w)
    ensures Gathers(schema, parts + [Member(name, Text(w))], fields[name := Text(w)])
  {
    AddPart(schema, parts, fields, Member(name, Text(w)));
  }

  lemma ConsolePartsCollected(c: ConsoleRequest)
    requires Printable(c.pipeIn) && Printable(c.pipeOut) && Printable(c.pipeResize)
    ensures Gathers(ConsoleObject, ConsoleParts(c), map[
              PipeIn := Text(c.pipeIn), PipeOut := Text(c.pipeOut), PipeResize := Text(c.pipeResize),
              InheritCursor := Flag(c.inheritCursor)])
  {
    var parts, fields := [Member(PipeIn, Text(c.pipeIn))], map[PipeIn := Text(c.pipeIn)];
    FirstPart(ConsoleObject, Member(PipeIn, Text(c.pipeIn)));
    AddTextPart(ConsoleObject, parts, fields, PipeOut, c.pipeOut);
    LastParts(parts + [Member(PipeOut, Text(c.pipeOut))], fields[PipeOut := Text(c.pipeOut)], c);
  }

  lemma LastParts(parts: seq<Member>, fields: map<Name, Value>, c: ConsoleRequest)
    requires Gathers(ConsoleObject, parts, fields) && PipeResize !in fields && InheritCursor !in fields
    requires Printable(c.pipeResize)
    ensures Gathers(ConsoleObject,
                    parts + [Member(PipeResize, Text(c.pipeResize))] + [Member(InheritCursor, Flag(c.inheritCursor))],
                    fields[PipeResize := Text(c.pipeResize)][InheritCursor := Flag(c.inheritCursor)])
  {
    AddTextPart(ConsoleObject, parts, fields, PipeResize, c.pipeResize);
    AddPart(ConsoleObject, parts + [Member(PipeResize, Text(c.pipeResize))],
            fields[PipeResize := Text(c.pipeResize)], Member(InheritCursor, Flag(c.inheritCursor)));
  }

  lemma InteractivePartsCollected(i: InteractiveRequest)
    requires Printable(i.leasePipe) && Printable(i.nonce)
    ensures Gathers(InteractiveObject, InteractiveParts(i), map[LeasePipe := Text(i.leasePipe), Nonce := Text(i.nonce)])
  {
    FirstPart(InteractiveObject, Member(LeasePipe, Text(i.leasePipe)));
    AddTextPart(InteractiveObject, [Member(LeasePipe, Text(i.leasePipe))], map[LeasePipe := Text(i.leasePipe)],
                Nonce, i.nonce);
  }

  lemma ReadyConsole(ms: seq<Member>, d: Draft, c: ConsoleRequest)
    requires Ready(ms, d) && Console !in d.seen
    requires Printable(c.pipeIn) && Printable(c.pipeOut) && Printable(c.pipeResize)
    ensures Ready(ms + [Member(Console, Object(ConsoleParts(c)))],
                  d.(request := d.request.(console := c), seen := d.seen + {Console}))
  {
    ConsolePartsCollected(c);
    ObjectWritable(ConsoleObject, ConsoleParts(c));
    SoundMore(Top, ms, Member(Console, Object(ConsoleParts(c))));
    ConsoleDrafted(ms, d, c);
  }

  lemma ConsoleDrafted(ms: seq<Member>, d: Draft, c: ConsoleRequest)
    requires Collect(ms).Some? && Drafts(d, Collect(ms).value) && Console !in d.seen
    requires Printable(c.pipeIn) && Printable(c.pipeOut) && Printable(c.pipeResize)
    ensures var more := Collect(ms + [Member(Console, Object(ConsoleParts(c)))]);
            more.Some? && Drafts(d.(request := d.request.(console := c), seen := d.seen + {Console}), more.value)
  {
    var parts, fields := ConsoleParts(c), Collect(ms).value;
    ConsolePartsCollected(c);
    CollectMore(ms, Member(Console, Object(parts)));
    CheckedObject(Console, parts);
    FillsConsole(fields, Collect(parts).value);
    KeepsTexts(fields, Console, Fields(Collect(parts).value));
  }

  lemma ReadyInteractive(ms: seq<Member>, d: Draft, i: InteractiveRequest)
    requires Ready(ms, d) && Interactive !in d.seen && Printable(i.leasePipe) && Printable(i.nonce)
    ensures Ready(ms + [Member(Interactive, Object(InteractiveParts(i)))],
                  d.(request := d.request.(interactive := i), seen := d.seen + {Interactive}))
  {
    var parts := InteractiveParts(i);
    var m, fields := Member(Interactive, Object(parts)), Collect(ms).value;
    InteractivePartsCollected(i);
    ObjectWritable(InteractiveObject, parts);
    SoundMore(Top, ms, m);
    CollectMore(ms, m);
    CheckedObject(Interactive, parts);
    FillsInteractive(fields, Collect(parts).value);
    KeepsTexts(fields, Interactive, Fields(Collect(parts).value));
  }

  // ---- the three kinds of request ----

  const EMPTY := RequestOf(map[])

  function HeadMembers(requestId: Wide, word: Wide): seq<Member> {
    [VERSION_ONE] + [Member(RequestId, Text(requestId))] + [Member(Operation, Text(word))]
  }

  function HeadDraft(requestId: Wide, word: Wide): Draft {
    Draft(EMPTY.(requestId := requestId), word, Missing, {Version, RequestId, Operation})
  }

  function IdDraft(requestId: Wide): Draft {
    Draft(EMPTY.(requestId := requestId), [], Missing, {Version, RequestId})
  }

  lemma IdReady(requestId: Wide)
    requires IsRequestId(requestId)
    ensures Ready([VERSION_ONE] + [Member(RequestId, Text(requestId))], IdDraft(requestId))
  {
    var d := Draft(EMPTY, [], Missing, {Version});
    RequestIdPrintable(requestId);
    ReadyStart();
    ReadyText([VERSION_ONE], d, RequestId, requestId);
    assert DraftWithText(d, RequestId, requestId) == IdDraft(requestId);
  }

  lemma HeadReady(requestId: Wide, word: Wide)
    requires IsRequestId(requestId) && Printable(word)
    ensures Ready(HeadMembers(requestId, word), HeadDraft(requestId, word))
  {
    IdReady(requestId);
    ReadyText([VERSION_ONE] + [Member(RequestId, Text(requestId))], IdDraft(requestId), Operation, word);
    assert DraftWithText(IdDraft(requestId), Operation, word) == HeadDraft(requestId, word);
  }

  function ProfiledMembers(r: BrokerRequest): seq<Member> {
    HeadMembers(r.requestId, OperationText(r.operation)) +
    (if r.operation != List then [Member(ProfileId, Text(r.profileId))] else [])
  }

  function ProfiledDraft(r: BrokerRequest): Draft {
    var d := HeadDraft(r.requestId, OperationText(r.operation));
    if r.operation != List then DraftWithText(d, ProfileId, r.profileId) else d
  }

  lemma ProfiledReady(r: BrokerRequest)
    requires IsRequestId(r.requestId) && (r.operation != List ==> ValidProfile(r))
    ensures Ready(ProfiledMembers(r), ProfiledDraft(r))
  {
    var word := OperationText(r.operation);
    OperationPrintable(r.operation);
    HeadReady(r.requestId, word);
    if r.operation != List {
      ProfileHead(HeadMembers(r.requestId, word), HeadDraft(r.requestId, word), r, word);
    } else {
      assert HeadMembers(r.requestId, word) + [] == HeadMembers(r.requestId, word);
    }
  }

  lemma ProfileHead(ms: seq<Member>, d: Draft, r: BrokerRequest, word: Wide)
    requires Ready(ms, d) && d == HeadDraft(r.requestId, word) && ValidProfile(r)
    ensures Ready(ms + [Member(ProfileId, Text(r.profileId))], DraftWithText(d, ProfileId, r.profileId))
  {
    assert ProfileId !in d.seen;
    AddProfile(ms, d, r);
  }

  lemma AddProfile(ms: seq<Member>, d: Draft, r: BrokerRequest)
    requires Ready(ms, d) && ProfileId !in d.seen && ValidProfile(r)
    ensures Ready(ms + [Member(ProfileId, Text(r.profileId))], DraftWithText(d, ProfileId, r.profileId))
  {
    ReadyText(ms, d, ProfileId, r.profileId);
  }

  lemma OperationsDiffer(operation: RequestOperation)
    ensures ManagementOperation(OperationText(operation)) ==
            if operation.ConsoleLaunch? || operation.InteractiveLaunch? || operation.List? then None
            else Some(operation)
    ensures OperationText(operation) == LIST <==> operation.List?
    ensures OperationText(operation) == TAKEOVER <==> operation.TakeOver?
    ensures LAUNCH != LIST && ManagementOperation(LAUNCH).None?
  {
  }

  lemma ModesDiffer()
    ensures ModeOf(CONSOLE) == ConsoleMode && ModeOf(INTERACTIVE) == InteractiveMode
  {
  }

  predicate IsManagement(operation: RequestOperation) {
    !operation.ConsoleLaunch? && !operation.InteractiveLaunch?
  }

  lemma ManagementReady(r: BrokerRequest)
    requires ValidRequest(r) && IsManagement(r.operation)
    ensures Meaning(MembersOf(r)) == Some(r) && Sound(Top, MembersOf(r))
  {
    var d := AfterFlag(ProfiledDraft(r), Force, r.force);
    ProfiledReady(r);
    AddForce(ProfiledMembers(r), ProfiledDraft(r), r.force);
    ManagementDecided(r);
    ReadyMeans(ProfiledMembers(r) + FlagMember(Force, r.force), d);
  }

  lemma AddForce(ms: seq<Member>, d: Draft, force: bool)
    requires Ready(ms, d) && Force !in d.seen
    ensures Ready(ms + FlagMember(Force, force), AfterFlag(d, Force, force))
  {
    ReadyFlag(ms, d, Force, force);
  }

  lemma ReadyMeans(ms: seq<Member>, d: Draft)
    requires Ready(ms, d)
    ensures Meaning(ms) == Decide(d.request, d.operation, d.mode, d.seen) && Sound(Top, ms)
  {
  }

  lemma ManagementDecided(r: BrokerRequest)
    requires ValidRequest(r) && IsManagement(r.operation)
    ensures var d := AfterFlag(ProfiledDraft(r), Force, r.force);
            Decide(d.request, d.operation, d.mode, d.seen) == Some(r)
  {
    ManagementDraft(r);
    DecideAtManagement(r, AfterFlag(ProfiledDraft(r), Force, r.force).mode);
  }

  function ManagementSeen(r: BrokerRequest): set<Name> {
    {Version, RequestId, Operation} +
    (if r.operation != List then {ProfileId} else {}) + (if r.force then {Force} else {})
  }

  lemma DecideAtManagement(r: BrokerRequest, mode: LaunchMode)
    requires ValidRequest(r) && IsManagement(r.operation)
    ensures Decide(r.(operation := ConsoleLaunch), OperationText(r.operation), mode, ManagementSeen(r)) == Some(r)
  {
    OperationsDiffer(r.operation);
    assert ManagementSeen(r) !! LAUNCH_FIELDS;
  }

  lemma ManagementDraft(r: BrokerRequest)
    requires ValidRequest(r) && IsManagement(r.operation)
    ensures var d := AfterFlag(ProfiledDraft(r), Force, r.force);
            && d.request == r.(operation := ConsoleLaunch) && d.operation == OperationText(r.operation)
            && d.seen == ManagementSeen(r)
  {
  }

  function OwnedMembers(r: BrokerRequest): seq<Member> {
    HeadMembers(r.requestId, LAUNCH) + [Member(ProfileId, Text(r.profileId))]
  }

  function OwnedDraft(r: BrokerRequest): Draft {
    Draft(EMPTY.(requestId := r.requestId, profileId := r.profileId), LAUNCH, Missing,
          {Version, RequestId, Operation, ProfileId})
  }

  lemma OwnedReady(r: BrokerRequest)
    requires ValidLaunch(r) && IsRequestId(r.requestId)
    ensures Ready(OwnedMembers(r), OwnedDraft(r))
  {
    OperationPrintable(ConsoleLaunch);
    HeadReady(r.requestId, LAUNCH);
    ProfileHead(HeadMembers(r.requestId, LAUNCH), HeadDraft(r.requestId, LAUNCH), r, LAUNCH);
    HeadThen(r);
  }

  lemma HeadThen(r: BrokerRequest)
    ensures DraftWithText(HeadDraft(r.requestId, LAUNCH), ProfileId, r.profileId) == OwnedDraft(r)
  {
    assert DraftWithText(HeadDraft(r.requestId, LAUNCH), ProfileId, r.profileId).seen == OwnedDraft(r).seen;
  }

  function NamedMembers(r: BrokerRequest, mode: Wide): seq<Member> {
    OwnedMembers(r) + [Member(Mode, Text(mode))]
  }

  function NamedDraft(r: BrokerRequest, mode: LaunchMode): Draft {
    OwnedDraft(r).(mode := mode, seen := OwnedDraft(r).seen + {Mode})
  }

  lemma NamedReady(r: BrokerRequest, mode: Wide)
    requires ValidLaunch(r) && IsRequestId(r.requestId) && (mode == CONSOLE || mode == INTERACTIVE)
    ensures Ready(NamedMembers(r, mode), NamedDraft(r, ModeOf(mode)))
  {
    OwnedReady(r);
    NameMode(OwnedMembers(r), OwnedDraft(r), r, mode);
  }

  lemma NameMode(ms: seq<Member>, d: Draft, r: BrokerRequest, mode: Wide)
    requires Ready(ms, d) && ms == OwnedMembers(r) && d == OwnedDraft(r) && (mode == CONSOLE || mode == INTERACTIVE)
    ensures Ready(NamedMembers(r, mode), NamedDraft(r, ModeOf(mode)))
  {
    assert Mode !in d.seen;
    ModePrintable(mode);
    AddMode(ms, d, mode);
  }

  lemma AddMode(ms: seq<Member>, d: Draft, mode: Wide)
    requires Ready(ms, d) && Mode !in d.seen && (mode == CONSOLE || mode == INTERACTIVE) && Printable(mode)
    ensures Ready(ms + [Member(Mode, Text(mode))], d.(mode := ModeOf(mode), seen := d.seen + {Mode}))
  {
    assert ValidField(Mode, Text(mode));
    assert DraftWithText(d, Mode, mode) == d.(mode := ModeOf(mode), seen := d.seen + {Mode});
    ReadyText(ms, d, Mode, mode);
  }

  function ArguedMembers(r: BrokerRequest, mode: Wide): seq<Member> {
    NamedMembers(r, mode) + [Member(Arguments, Texts(r.arguments))]
  }

  function ArguedDraft(r: BrokerRequest, mode: LaunchMode): Draft {
    AfterTexts(NamedDraft(r, mode), Arguments, r.arguments)
  }

  lemma ArguedReady(r: BrokerRequest, mode: Wide)
    requires ValidLaunch(r) && IsRequestId(r.requestId) && (mode == CONSOLE || mode == INTERACTIVE)
    ensures Ready(ArguedMembers(r, mode), ArguedDraft(r, ModeOf(mode)))
  {
    NamedReady(r, mode);
    AddArguments(NamedMembers(r, mode), NamedDraft(r, ModeOf(mode)), r);
  }

  lemma AddArguments(ms: seq<Member>, d: Draft, r: BrokerRequest)
    requires Ready(ms, d) && Arguments !in d.seen && ValidLaunch(r)
    ensures Ready(ms + [Member(Arguments, Texts(r.arguments))], AfterTexts(d, Arguments, r.arguments))
  {
    ReadyTexts(ms, d, Arguments, r.arguments);
  }

  /** The draft after the members both launch builders write. */
  function LaunchDraft(r: BrokerRequest, mode: LaunchMode): Draft {
    Draft(EMPTY.(requestId := r.requestId, profileId := r.profileId, arguments := r.arguments,
                 workingDirectory := r.workingDirectory),
          LAUNCH, mode, {Version, RequestId, Operation, ProfileId, Mode, Arguments, WorkingDirectory})
  }

  lemma LaunchReady(r: BrokerRequest, mode: Wide)
    requires ValidLaunch(r) && IsRequestId(r.requestId) && (mode == CONSOLE || mode == INTERACTIVE)
    ensures Ready(LaunchMembers(r, mode), LaunchDraft(r, ModeOf(mode)))
  {
    ArguedReady(r, mode);
    DirectoryNext(ArguedMembers(r, mode), ArguedDraft(r, ModeOf(mode)), r, ModeOf(mode));
  }

  lemma DirectoryNext(ms: seq<Member>, d: Draft, r: BrokerRequest, mode: LaunchMode)
    requires Ready(ms, d) && d == ArguedDraft(r, mode) && ValidLaunch(r)
    ensures Ready(ms + [Member(WorkingDirectory, Text(r.workingDirectory))], LaunchDraft(r, mode))
  {
    assert WorkingDirectory !in d.seen;
    AddDirectory(ms, d, r);
    ArguedThen(r, mode);
  }

  lemma AddDirectory(ms: seq<Member>, d: Draft, r: BrokerRequest)
    requires Ready(ms, d) && WorkingDirectory !in d.seen && ValidLaunch(r)
    ensures Ready(ms + [Member(WorkingDirectory, Text(r.workingDirectory))],
                  DraftWithText(d, WorkingDirectory, r.workingDirectory))
  {
    ReadyText(ms, d, WorkingDirectory, r.workingDirectory);
  }

  lemma ArguedThen(r: BrokerRequest, mode: LaunchMode)
    ensures DraftWithText(ArguedDraft(r, mode), WorkingDirectory, r.workingDirectory) == LaunchDraft(r, mode)
  {
    assert DraftWithText(ArguedDraft(r, mode), WorkingDirectory, r.workingDirectory).seen == LaunchDraft(r, mode).seen;
  }

  function FlaggedDraft(r: BrokerRequest, mode: LaunchMode): Draft {
    var d := LaunchDraft(r, mode);
    d.(request := d.request.(log := r.log, restrictAccess := r.restrictAccess, lowIntegrity := r.lowIntegrity),
       seen := d.seen + FlagsSeen(r))
  }

  function FlagsSeen(r: BrokerRequest): set<Name> {
    (if r.log then {Log} else {}) + (if r.restrictAccess then {RestrictAccess} else {}) +
    (if r.lowIntegrity then {LowIntegrity} else {})
  }

  lemma FlaggedReady(r: BrokerRequest, mode: Wide)
    requires ValidLaunch(r) && IsRequestId(r.requestId) && (mode == CONSOLE || mode == INTERACTIVE)
    ensures Ready(FlaggedMembers(r, mode), FlaggedDraft(r, ModeOf(mode)))
  {
    LaunchReady(r, mode);
    LaunchUnflagged(r, ModeOf(mode));
    AddFlags(LaunchMembers(r, mode), LaunchDraft(r, ModeOf(mode)), r);
  }

  lemma LaunchUnflagged(r: BrokerRequest, mode: LaunchMode)
    ensures var d := LaunchDraft(r, mode);
            && d.seen !! {Log, RestrictAccess, LowIntegrity}
            && !d.request.log && !d.request.restrictAccess && !d.request.lowIntegrity
  {
  }

  lemma AddFlags(ms: seq<Member>, d: Draft, r: BrokerRequest)
    requires Ready(ms, d) && d.seen !! {Log, RestrictAccess, LowIntegrity}
    requires !d.request.log && !d.request.restrictAccess && !d.request.lowIntegrity
    ensures Ready(ms + FlagMember(Log, r.log) + FlagMember(RestrictAccess, r.restrictAccess) +
                  FlagMember(LowIntegrity, r.lowIntegrity),
                  d.(request := d.request.(log := r.log, restrictAccess := r.restrictAccess,
                                           lowIntegrity := r.lowIntegrity),
                     seen := d.seen + FlagsSeen(r)))
  {
    AddTwoFlags(ms, d, r);
    var d2 := AfterFlag(AfterFlag(d, Log, r.log), RestrictAccess, r.restrictAccess);
    ReadyFlag(ms + FlagMember(Log, r.log) + FlagMember(RestrictAccess, r.restrictAccess), d2, LowIntegrity,
              r.lowIntegrity);
    FlagsAdded(d, r);
  }

  lemma AddTwoFlags(ms: seq<Member>, d: Draft, r: BrokerRequest)
    requires Ready(ms, d) && d.seen !! {Log, RestrictAccess, LowIntegrity}
    ensures Ready(ms + FlagMember(Log, r.log) + FlagMember(RestrictAccess, r.restrictAccess),
                  AfterFlag(AfterFlag(d, Log, r.log), RestrictAccess, r.restrictAccess))
  {
    ReadyFlag(ms, d, Log, r.log);
    ReadyFlag(ms + FlagMember(Log, r.log), AfterFlag(d, Log, r.log), RestrictAccess, r.restrictAccess);
  }

  lemma FlagsAdded(d: Draft, r: BrokerRequest)
    requires !d.request.log && !d.request.restrictAccess && !d.request.lowIntegrity
    ensures AfterFlag(AfterFlag(AfterFlag(d, Log, r.log), RestrictAccess, r.restrictAccess), LowIntegrity,
                      r.lowIntegrity) ==
            d.(request := d.request.(log := r.log, restrictAccess := r.restrictAccess, lowIntegrity := r.lowIntegrity),
               seen := d.seen + FlagsSeen(r))
  {
    var d2 := AfterFlag(AfterFlag(d, Log, r.log), RestrictAccess, r.restrictAccess);
    var d3 := AfterFlag(d2, LowIntegrity, r.lowIntegrity);
    assert d3.seen == d.seen + FlagsSeen(r);
  }

  function ContainedDraft(r: BrokerRequest): Draft {
    var d := FlaggedDraft(r, ConsoleMode);
    if r.appContainer.enabled then
      d.(request := d.request.(appContainer := r.appContainer), seen := d.seen + {AppContainer, Capabilities})
    else d
  }

  lemma ContainedReady(r: BrokerRequest)
    requires ValidRequest(r) && r.operation == ConsoleLaunch
    ensures Ready(ContainedMembers(r), ContainedDraft(r))
  {
    ModesDiffer();
    FlaggedReady(r, CONSOLE);
    if r.appContainer.enabled {
      AddContainer(FlaggedMembers(r, CONSOLE), FlaggedDraft(r, ConsoleMode), r.appContainer);
    }
  }

  lemma AddContainer(ms: seq<Member>, d: Draft, a: AppContainerOptions)
    requires Ready(ms, d) && d.seen !! {AppContainer, Capabilities} && a.enabled && IsValidAppContainerOptions(a)
    ensures Ready(ms + [Member(AppContainer, Flag(true))] + [Member(Capabilities, Texts(a.capabilities))],
                  d.(request := d.request.(appContainer := a), seen := d.seen + {AppContainer, Capabilities}))
  {
    CapabilitiesPrintable(a.capabilities);
    ReadyFlag(ms, d, AppContainer, true);
    var d1 := AfterFlag(d, AppContainer, true);
    ReadyTexts(ms + [Member(AppContainer, Flag(true))], d1, Capabilities, a.capabilities);
    assert AfterTexts(d1, Capabilities, a.capabilities).seen == d.seen + {AppContainer, Capabilities};
  }

  lemma ConsoleReady(r: BrokerRequest)
    requires ValidRequest(r) && r.operation == ConsoleLaunch
    ensures Meaning(MembersOf(r)) == Some(r) && Sound(Top, MembersOf(r))
  {
    ContainedReady(r);
    ContainedSeen(r);
    ConsoleDecided(r);
    FinishConsole(ContainedMembers(r), ContainedDraft(r), r);
  }

  lemma FinishConsole(ms: seq<Member>, d: Draft, r: BrokerRequest)
    requires Ready(ms, d) && Console !in d.seen && ValidConsole(r.console)
    requires Decide(d.request.(console := r.console), d.operation, d.mode, d.seen + {Console}) == Some(r)
    ensures var all := ms + [Member(Console, Object(ConsoleParts(r.console)))];
            Meaning(all) == Some(r) && Sound(Top, all)
  {
    var all := ms + [Member(Console, Object(ConsoleParts(r.console)))];
    ReadyConsole(ms, d, r.console);
    ReadyMeans(all, d.(request := d.request.(console := r.console), seen := d.seen + {Console}));
  }

  lemma DecideAtLaunch(r: BrokerRequest, mode: LaunchMode, seen: set<Name>)
    requires Admitted(r, seen) && {ProfileId, Arguments, WorkingDirectory} <= seen && Force !in seen
    ensures Decide(r, LAUNCH, mode, seen) == DecideLaunch(r, mode, seen)
  {
    OperationsDiffer(ConsoleLaunch);
  }

  lemma ContainedRequest(r: BrokerRequest)
    requires ValidRequest(r) && r.operation == ConsoleLaunch
    ensures ContainedDraft(r).request.(console := r.console) == r
  {
  }

  lemma ContainedSeen(r: BrokerRequest)
    ensures var d := ContainedDraft(r);
            && d.operation == LAUNCH && d.mode == ConsoleMode
            && {Version, RequestId, Operation, ProfileId, Arguments, WorkingDirectory} <= d.seen
            && Force !in d.seen && Interactive !in d.seen && Console !in d.seen
            && (Capabilities in d.seen <==> r.appContainer.enabled)
  {
    FlaggedSeen(r, ConsoleMode);
  }

  lemma ConsoleDecided(r: BrokerRequest)
    requires ValidRequest(r) && r.operation == ConsoleLaunch
    ensures var d := ContainedDraft(r);
            Decide(d.request.(console := r.console), d.operation, d.mode, d.seen + {Console}) == Some(r)
  {
    ContainedRequest(r);
    ContainedSeen(r);
    DecideAtLaunch(r, ConsoleMode, ContainedDraft(r).seen + {Console});
  }

  lemma InteractiveReady(r: BrokerRequest)
    requires ValidRequest(r) && r.operation == InteractiveLaunch
    ensures Meaning(MembersOf(r)) == Some(r) && Sound(Top, MembersOf(r))
  {
    ModesDiffer();
    FlaggedReady(r, INTERACTIVE);
    RequestIdPrintable(r.interactive.nonce);
    ReadyInteractive(FlaggedMembers(r, INTERACTIVE), FlaggedDraft(r, InteractiveMode), r.interactive);
    InteractiveDecided(r);
  }

  lemma FlaggedSeen(r: BrokerRequest, mode: LaunchMode)
    ensures var d := FlaggedDraft(r, mode);
            && {Version, RequestId, Operation, ProfileId, Arguments, WorkingDirectory} <= d.seen
            && d.seen !! {Force, Console, Interactive, Capabilities, AppContainer}
  {
  }

  lemma InteractiveDecided(r: BrokerRequest)
    requires ValidRequest(r) && r.operation == InteractiveLaunch
    ensures var d := FlaggedDraft(r, InteractiveMode);
            Decide(d.request.(interactive := r.interactive), d.operation, d.mode, d.seen + {Interactive}) == Some(r)
  {
    var d := FlaggedDraft(r, InteractiveMode);
    var filled := d.request.(interactive := r.interactive);
    assert filled == r.(operation := ConsoleLaunch);
    FlaggedSeen(r, InteractiveMode);
    DecideAtLaunch(filled, InteractiveMode, d.seen + {Interactive});
  }

  lemma ValidReady(r: BrokerRequest)
    requires ValidRequest(r)
    ensures Meaning(MembersOf(r)) == Some(r) && Sound(Top, MembersOf(r))
  {
    match r.operation
    case ConsoleLaunch => ConsoleReady(r);
    case InteractiveLaunch => InteractiveReady(r);
    case _ => ManagementReady(r);
  }

  // ---- numbers never touch ----

  predicate Apart(ts: seq<Token>) {
    forall i :: 0 <= i < |ts| - 1 ==> !(ts[i].Num? && ts[i + 1].Num?)
  }

  lemma ApartJoin(a: seq<Token>, b: seq<Token>)
    requires Apart(a) && Apart(b) && (a == [] || b == [] || !a[|a| - 1].Num? || !b[0].Num?)
    ensures Apart(a + b)
  {
    forall i | 0 <= i < |a + b| - 1
      ensures !((a + b)[i].Num? && (a + b)[i + 1].Num?)
    {
      if i >= |a| {
        assert (a + b)[i] == b[i - |a|] && (a + b)[i + 1] == b[i + 1 - |a|];
      }
    }
  }

  lemma {:induction false} TextsApart(ws: seq<Wide>)
    ensures forall i :: 0 <= i < |TextsTokens(ws)| ==> !TextsTokens(ws)[i].Num?
  {
    if |ws| > 1 {
      TextsApart(ws[1..]);
    }
  }

  lemma {:induction false} ValueApart(v: Value)
    ensures Apart(ValueTokens(v))
    decreases v, 1
  {
    match v
    case Texts(ws) =>
      TextsApart(ws);
      ApartJoin([Punct(OPEN_LIST)], TextsTokens(ws));
      ApartJoin([Punct(OPEN_LIST)] + TextsTokens(ws), [Punct(CLOSE_LIST)]);
    case Object(members) =>
      ObjectApart(members);
    case _ =>
  }

  lemma {:induction false} ObjectApart(ms: seq<Member>)
    ensures Apart(ObjectTokens(ms))
    decreases ms, 1
  {
    MembersApart(ms);
    ApartJoin([Punct(OPEN)], MembersTokens(ms));
    ApartJoin([Punct(OPEN)] + MembersTokens(ms), [Punct(CLOSE)]);
  }

  lemma {:induction false} MemberApart(m: Member)
    ensures Apart(MemberTokens(m))
    decreases m, 2
  {
    ValueApart(m.value);
    ApartJoin([Str(TextOf(m.name)), Punct(COLON)], ValueTokens(m.value));
  }

  lemma {:induction false} MembersApart(ms: seq<Member>)
    ensures Apart(MembersTokens(ms))
    decreases ms, 0
  {
    if ms != [] {
      MemberApart(ms[0]);
      if |ms| > 1 {
        MembersApart(ms[1..]);
        ApartJoin(MemberTokens(ms[0]), [Punct(COMMA)]);
        ApartJoin(MemberTokens(ms[0]) + [Punct(COMMA)], MembersTokens(ms[1..]));
      }
    }
  }

  lemma BuiltRenders(ms: seq<Member>)
    requires Sound(Top, ms)
    ensures Renders(Message(ms), ms, NoGaps(|ObjectTokens(ms)| + 1))
  {
    ObjectWritable(Top, ms);
    ObjectApart(ms);
    FlatIsRender(ObjectTokens(ms));
  }

  /** A built message is parsed back to exactly its request if and only if it is within the size bound
      and the request meets the parser's own checks. */
  lemma RequestCodec(r: BrokerRequest)
    ensures ParsedRequest(Message(MembersOf(r))) == Some(r) <==>
            ValidRequest(r) && |Message(MembersOf(r))| <= MAXIMUM_MESSAGE_BYTES
  {
    var ms := MembersOf(r);
    if ValidRequest(r) && |Message(ms)| <= MAXIMUM_MESSAGE_BYTES {
      ValidReady(r);
      BuiltRenders(ms);
      ParsedMeaning(Message(ms), ms, NoGaps(|ObjectTokens(ms)| + 1));
    }
    if ParsedRequest(Message(ms)) == Some(r) {
      AcceptedIsValid(Message(ms));
    }
  }

  // ---- what the builders return ----

  predicate IsLaunch(operation: RequestOperation) {
    operation.ConsoleLaunch? || operation.InteractiveLaunch?
  }

  /** Whatever a builder returns is parsed back to its request if and only if that request meets the
      parser's checks, and fits. */
  lemma BuiltParses(r: BrokerRequest)
    requires Built(r).Some?
    ensures ParsedRequest(Built(r).value) == Some(r) <==>
            ValidRequest(r) && (IsLaunch(r.operation) || |Built(r).value| <= MAXIMUM_MESSAGE_BYTES)
  {
    RequestCodec(r);
  }

  /** Of the requests the parser would take, a builder refuses exactly launches without arguments and
      launches that do not fit. */
  lemma BuiltRefuses(r: BrokerRequest)
    requires ValidRequest(r)
    ensures Built(r).None? <==>
            IsLaunch(r.operation) && (r.arguments == [] || |Message(MembersOf(r))| > MAXIMUM_MESSAGE_BYTES)
  {
    if IsLaunch(r.operation) {
      ValidMayBegin(r);
    }
    if r.operation.ConsoleLaunch? {
      ValidMayBuildConsole(r);
    } else if r.operation.InteractiveLaunch? {
      ValidMayBuildInteractive(r);
    }
  }

  lemma ShortIsValidUtf16(w: Wide)
    requires Printable(w) && |w| <= 0x1_0000
    ensures IsValidUtf16(w)
  {
  }

  lemma ValidMayBegin(r: BrokerRequest)
    requires ValidRequest(r) && IsLaunch(r.operation)
    ensures MayBegin(r) <==> r.arguments != []
  {
    RequestIdPrintable(r.requestId);
    forall i | 0 <= i < |r.arguments|
      ensures IsValidUtf16(r.arguments[i])
    {
      assert ValidText(Arguments, r.arguments[i]) && Printable(r.arguments[i]);
      ShortIsValidUtf16(r.arguments[i]);
    }
    assert AllValidUtf16(r.arguments);
  }

  lemma ValidMayBuildConsole(r: BrokerRequest)
    requires ValidRequest(r) && r.operation.ConsoleLaunch?
    ensures MayBuildConsole(r) <==> MayBegin(r)
  {
    assert ValidPipe(r.console.pipeIn) && ValidPipe(r.console.pipeOut) && ValidPipe(r.console.pipeResize);
  }

  lemma ValidMayBuildInteractive(r: BrokerRequest)
    requires ValidRequest(r) && r.operation.InteractiveLaunch?
    ensures MayBuildInteractive(r) <==> MayBegin(r)
  {
    RequestIdPrintable(r.interactive.nonce);
  }
}
