/** What a request's members mean: the checks of each field, and the decision over all of them
    (`ParseBrokerRequest`, src/protocol/BrokerProtocol.cpp). */
module RequestRules {
  import opened Text
  import opened Wrappers
  import opened AppContainer
  import opened Tokens
  import opened Names
  import opened Members

  const MAXIMUM_MESSAGE_BYTES: nat := 64 * 1024
  const MAXIMUM_ARGUMENTS: nat := 64
  const MAXIMUM_ARGUMENT_LENGTH: nat := 8 * 1024
  const MAXIMUM_DIRECTORY_LENGTH: nat := 32 * 1024
  const MAXIMUM_PIPE_LENGTH: nat := 256
  /** UNLEN, the longest account name. */
  const MAXIMUM_PROFILE_LENGTH: nat := 256

  /** launch */
  const LAUNCH: Wide := [0x6C, 0x61, 0x75, 0x6E, 0x63, 0x68]
  /** create */
  const CREATE: Wide := [0x63, 0x72, 0x65, 0x61, 0x74, 0x65]
  /** takeover */
  const TAKEOVER: Wide := [0x74, 0x61, 0x6B, 0x65, 0x6F, 0x76, 0x65, 0x72]
  /** list */
  const LIST: Wide := [0x6C, 0x69, 0x73, 0x74]
  /** forget */
  const FORGET: Wide := [0x66, 0x6F, 0x72, 0x67, 0x65, 0x74]
  /** delete */
  const DELETE: Wide := [0x64, 0x65, 0x6C, 0x65, 0x74, 0x65]
  /** \\.\pipe\launch-as- */
  const CONSOLE_PIPE: Wide := [
    0x5C, 0x5C, 0x2E, 0x5C, 0x70, 0x69, 0x70, 0x65, 0x5C, 0x6C, 0x61, 0x75, 0x6E, 0x63, 0x68, 0x2D,
    0x61, 0x73, 0x2D]
  /** \\.\pipe\launch-as-interactive- */
  const LEASE_PIPE_PREFIX: Wide := [
    0x5C, 0x5C, 0x2E, 0x5C, 0x70, 0x69, 0x70, 0x65, 0x5C, 0x6C, 0x61, 0x75, 0x6E, 0x63, 0x68, 0x2D,
    0x61, 0x73, 0x2D, 0x69, 0x6E, 0x74, 0x65, 0x72, 0x61, 0x63, 0x74, 0x69, 0x76, 0x65, 0x2D]

  datatype RequestOperation = ConsoleLaunch | InteractiveLaunch | Create | TakeOver | List | Forget | Delete

  datatype ConsoleRequest = ConsoleRequest(pipeIn: Wide, pipeOut: Wide, pipeResize: Wide, inheritCursor: bool)
  datatype InteractiveRequest = InteractiveRequest(leasePipe: Wide, nonce: Wide)

  datatype BrokerRequest = BrokerRequest(
    operation: RequestOperation, requestId: Wide, profileId: Wide, force: bool, restrictAccess: bool,
    lowIntegrity: bool, log: bool, appContainer: AppContainerOptions, arguments: seq<Wide>,
    workingDirectory: Wide, console: ConsoleRequest, interactive: InteractiveRequest)

  // ---- field checks ----

  predicate IsHexUnit(u: Unit) {
    0x30 <= u <= 0x39 || 0x61 <= u <= 0x66 || 0x41 <= u <= 0x46
  }

  predicate IsRequestId(w: Wide) {
    && |w| == 36
    && forall i :: 0 <= i < 36 ==> if i == 8 || i == 13 || i == 18 || i == 23 then w[i] == 0x2D else IsHexUnit(w[i])
  }

  /** \ / [ ] : ; | = , + * ? < > " */
  const PROFILE_FORBIDDEN: set<Unit> :=
    {0x5C, 0x2F, 0x5B, 0x5D, 0x3A, 0x3B, 0x7C, 0x3D, 0x2C, 0x2B, 0x2A, 0x3F, 0x3C, 0x3E, 0x22}

  predicate IsValidProfileId(w: Wide) {
    && 0 < |w| <= MAXIMUM_PROFILE_LENGTH
    && forall i :: 0 <= i < |w| ==> w[i] >= 0x20 && w[i] !in PROFILE_FORBIDDEN
  }

  predicate IsPipeName(prefix: Wide, w: Wide) {
    && |prefix| < |w| <= MAXIMUM_PIPE_LENGTH && prefix <= w
    && forall i :: |prefix| <= i < |w| ==> w[i] != 0x5C && w[i] != 0x2F
  }

  predicate ValidText(name: Name, w: Wide) {
    match name
    case Arguments => |w| <= MAXIMUM_ARGUMENT_LENGTH
    case Capabilities => IsAppContainerCapability(w)
    case _ => true
  }

  predicate ValidTexts(name: Name, ws: seq<Wide>) {
    |ws| <= MAXIMUM_ARGUMENTS && forall i :: 0 <= i < |ws| ==> ValidText(name, ws[i])
  }

  /** The check a field makes of its value as soon as it is read. */
  predicate ValidField(name: Name, value: Value) {
    match value
    case Number(n) => name == Version ==> n == 1
    case Text(w) => (
      match name
      case RequestId => IsRequestId(w)
      case ProfileId => IsValidProfileId(w)
      case Mode => w == CONSOLE || w == INTERACTIVE
      case WorkingDirectory => 0 < |w| <= MAXIMUM_DIRECTORY_LENGTH
      case _ => true)
    case Texts(ws) => ValidTexts(name, ws)
    case _ => true
  }

  function Required(schema: Schema): set<Name> {
    match schema
    case Top => {}
    case ConsoleObject => {PipeIn, PipeOut, PipeResize}
    case InteractiveObject => {LeasePipe, Nonce}
  }

  // ---- collecting the members ----

  function SchemaOf(name: Name): Schema {
    if name == Console then ConsoleObject else InteractiveObject
  }

  /** The value a member contributes; None when a check rejects it. */
  function Checked(m: Member): Option<Value>
    decreases m, 0
  {
    if m.value.Object? then
      var fields := Collect(m.value.members);
      if fields.None? || !(Required(SchemaOf(m.name)) <= fields.value.Keys) then None else Some(Fields(fields.value))
    else if ValidField(m.name, m.value) then Some(m.value)
    else None
  }

  /** The fields with one more member; None when its name repeats or a check rejects it. */
  function Add(fields: map<Name, Value>, m: Member): Option<map<Name, Value>>
    decreases m, 1
  {
    if m.name in fields || Checked(m).None? then None else Some(fields[m.name := Checked(m).value])
  }

  /** All members together. */
  function Collect(ms: seq<Member>): Option<map<Name, Value>>
    decreases ms
  {
    if ms == [] then Some(map[])
    else
      var fields := Collect(ms[..|ms| - 1]);
      if fields.None? then None else Add(fields.value, ms[|ms| - 1])
  }

  lemma CollectMore(ms: seq<Member>, m: Member)
    ensures Collect(ms + [m]) == if Collect(ms).None? then None else Add(Collect(ms).value, m)
  {
    assert (ms + [m])[..|ms|] == ms;
  }

  lemma {:induction false} CollectPrefix(ms: seq<Member>, more: seq<Member>)
    requires Collect(ms).None?
    ensures Collect(ms + more).None?
    decreases |more|
  {
    if more == [] {
      assert ms + more == ms;
    } else {
      var last := |more| - 1;
      CollectPrefix(ms, more[..last]);
      CollectMore(ms + more[..last], more[last]);
      assert ms + more == (ms + more[..last]) + [more[last]];
    }
  }

  lemma CollectSwap(ms: seq<Member>, a: Member, b: Member)
    ensures Collect(ms + [a] + [b]) == Collect(ms + [b] + [a])
  {
    CollectMore(ms + [a], b);
    CollectMore(ms, a);
    CollectMore(ms + [b], a);
    CollectMore(ms, b);
    var fields := Collect(ms);
    if fields.Some? && Checked(a).Some? && Checked(b).Some? && a.name != b.name {
      assert fields.value[a.name := Checked(a).value][b.name := Checked(b).value] ==
             fields.value[b.name := Checked(b).value][a.name := Checked(a).value];
    }
  }

  lemma {:induction false} CollectToEnd(ms: seq<Member>, m: Member, more: seq<Member>)
    ensures Collect(ms + [m] + more) == Collect(ms + more + [m])
    decreases |more|
  {
    if more == [] {
      assert ms + [m] + more == ms + more + [m];
    } else {
      var front, last := more[..|more| - 1], more[|more| - 1];
      CollectToEnd(ms, m, front);
      CollectMore(ms + [m] + front, last);
      CollectMore(ms + front + [m], last);
      CollectSwap(ms + front, m, last);
      assert ms + [m] + more == ms + [m] + front + [last];
      assert ms + more == ms + front + [last];
    }
  }

  lemma Without(ms: seq<Member>, i: nat)
    requires i < |ms|
    ensures ms == ms[..i] + [ms[i]] + ms[i + 1..]
    ensures multiset(ms) == multiset(ms[..i] + ms[i + 1..]) + multiset{ms[i]}
  {
    assert ms == ms[..i] + [ms[i]] + ms[i + 1..];
  }

  /** The order of the members does not matter. */
  lemma {:induction false} CollectPermuted(ms: seq<Member>, ns: seq<Member>)
    requires multiset(ms) == multiset(ns)
    ensures Collect(ms) == Collect(ns)
    decreases |ns|
  {
    assert |ms| == |multiset(ms)| == |multiset(ns)| == |ns|;
    if ns != [] {
      var front, last := ns[..|ns| - 1], ns[|ns| - 1];
      assert ns == front + [last];
      assert last in multiset(ns);
      var i :| 0 <= i < |ms| && ms[i] == last;
      Without(ms, i);
      var rest := ms[..i] + ms[i + 1..];
      assert multiset(ns) == multiset(front) + multiset{last};
      assert multiset(rest) == multiset(ms) - multiset{last};
      assert multiset(front) == multiset(ns) - multiset{last};
      CollectToEnd(ms[..i], last, ms[i + 1..]);
      CollectPermuted(rest, front);
      CollectMore(rest, last);
      CollectMore(front, last);
    }
  }

  /** Nor does the order inside a nested object. */
  lemma NestedPermuted(ms: seq<Member>, i: nat, name: Name, a: seq<Member>, b: seq<Member>)
    requires i < |ms| && ms[i] == Member(name, Object(a)) && multiset(a) == multiset(b)
    ensures Collect(ms[i := Member(name, Object(b))]) == Collect(ms)
  {
    var ns := ms[i := Member(name, Object(b))];
    CollectPermuted(a, b);
    assert ms == ms[..i] + [ms[i]] + ms[i + 1..];
    assert ns == ms[..i] + [ns[i]] + ms[i + 1..];
    CollectToEnd(ms[..i], ms[i], ms[i + 1..]);
    CollectToEnd(ms[..i], ns[i], ms[i + 1..]);
    CollectMore(ms[..i] + ms[i + 1..], ms[i]);
    CollectMore(ms[..i] + ms[i + 1..], ns[i]);
  }

  lemma {:induction false} CollectedNames(ms: seq<Member>, i: nat)
    requires i < |ms| && Collect(ms).Some?
    ensures ms[i].name in Collect(ms).value
  {
    if i < |ms| - 1 {
      CollectedNames(ms[..|ms| - 1], i);
    }
  }

  /** A repeated name rejects the object, wherever the two members stand. */
  lemma {:induction false} RepeatRejected(ms: seq<Member>, i: nat, j: nat)
    requires i < j < |ms| && ms[i].name == ms[j].name
    ensures Collect(ms).None?
    decreases |ms|
  {
    var front := ms[..|ms| - 1];
    if j < |ms| - 1 {
      RepeatRejected(front, i, j);
    } else if Collect(front).Some? {
      CollectedNames(front, i);
    }
  }

  /** A nested object with a repeated name, or without a required one, rejects the whole. */
  lemma {:induction false} UncheckedRejected(ms: seq<Member>, i: nat)
    requires i < |ms| && Checked(ms[i]).None?
    ensures Collect(ms).None?
  {
    if i < |ms| - 1 {
      UncheckedRejected(ms[..|ms| - 1], i);
    }
  }

  // ---- the decision ----

  function TextAt(fields: map<Name, Value>, name: Name): Wide {
    if name in fields && fields[name].Text? then fields[name].w else []
  }

  function FlagAt(fields: map<Name, Value>, name: Name): bool {
    name in fields && fields[name].Flag? && fields[name].b
  }

  function TextsAt(fields: map<Name, Value>, name: Name): seq<Wide> {
    if name in fields && fields[name].Texts? then fields[name].ws else []
  }

  function FieldsAt(fields: map<Name, Value>, name: Name): map<Name, Value> {
    if name in fields && fields[name].Fields? then fields[name].fields else map[]
  }

  function ConsoleOf(fields: map<Name, Value>): ConsoleRequest {
    ConsoleRequest(TextAt(fields, PipeIn), TextAt(fields, PipeOut), TextAt(fields, PipeResize),
                   FlagAt(fields, InheritCursor))
  }

  function InteractiveOf(fields: map<Name, Value>): InteractiveRequest {
    InteractiveRequest(TextAt(fields, LeasePipe), TextAt(fields, Nonce))
  }

  /** The request the fields fill, before its operation is decided. */
  function RequestOf(fields: map<Name, Value>): BrokerRequest {
    BrokerRequest(
      ConsoleLaunch, TextAt(fields, RequestId), TextAt(fields, ProfileId), FlagAt(fields, Force),
      FlagAt(fields, RestrictAccess), FlagAt(fields, LowIntegrity), FlagAt(fields, Log),
      AppContainerOptions(FlagAt(fields, AppContainer), TextsAt(fields, Capabilities)),
      TextsAt(fields, Arguments), TextAt(fields, WorkingDirectory), ConsoleOf(FieldsAt(fields, Console)),
      InteractiveOf(FieldsAt(fields, Interactive)))
  }

  const LAUNCH_FIELDS: set<Name> :=
    {Mode, Arguments, WorkingDirectory, Console, Interactive, RestrictAccess, LowIntegrity, Log, AppContainer,
     Capabilities}

  function ManagementOperation(text: Wide): Option<RequestOperation> {
    if text == CREATE then Some(Create)
    else if text == TAKEOVER then Some(TakeOver)
    else if text == FORGET then Some(Forget)
    else if text == DELETE then Some(Delete)
    else None
  }

  datatype LaunchMode = Missing | ConsoleMode | InteractiveMode

  function ModeOf(text: Wide): LaunchMode {
    if text == CONSOLE then ConsoleMode else if text == INTERACTIVE then InteractiveMode else Missing
  }

  /** What every operation needs. */
  predicate Admitted(r: BrokerRequest, seen: set<Name>) {
    && {Version, RequestId, Operation} <= seen
    && IsValidAppContainerOptions(r.appContainer)
    && (Capabilities in seen ==> r.appContainer.enabled)
    && (r.appContainer.enabled ==> !r.lowIntegrity && !r.restrictAccess)
  }

  /** The checks after the last member. */
  function Decide(r: BrokerRequest, operation: Wide, mode: LaunchMode, seen: set<Name>): Option<BrokerRequest> {
    if !Admitted(r, seen) then None
    else if operation == LIST then
      if seen !! LAUNCH_FIELDS + {ProfileId, Force} then Some(r.(operation := List)) else None
    else if ProfileId !in seen || (Force in seen && operation != TAKEOVER) then None
    else if ManagementOperation(operation).Some? then
      if seen !! LAUNCH_FIELDS then Some(r.(operation := ManagementOperation(operation).value)) else None
    else if operation != LAUNCH || !({Arguments, WorkingDirectory} <= seen) then None
    else DecideLaunch(r, mode, seen)
  }

  function DecideLaunch(r: BrokerRequest, mode: LaunchMode, seen: set<Name>): Option<BrokerRequest> {
    if mode == InteractiveMode then
      if || AppContainer in seen || Capabilities in seen || Console in seen || Interactive !in seen
         || !IsPipeName(LEASE_PIPE_PREFIX, r.interactive.leasePipe) || !IsRequestId(r.interactive.nonce)
      then None
      else Some(r.(operation := InteractiveLaunch))
    else if || mode != ConsoleMode || Console !in seen || Interactive in seen
            || !IsPipeName(CONSOLE_PIPE, r.console.pipeIn) || !IsPipeName(CONSOLE_PIPE, r.console.pipeOut)
            || !IsPipeName(CONSOLE_PIPE, r.console.pipeResize) || r.console.pipeIn == r.console.pipeOut
            || r.console.pipeIn == r.console.pipeResize || r.console.pipeOut == r.console.pipeResize
    then None
    else Some(r.(operation := ConsoleLaunch))
  }

  function DecideFields(fields: map<Name, Value>): Option<BrokerRequest> {
    Decide(RequestOf(fields), TextAt(fields, Operation), ModeOf(TextAt(fields, Mode)), fields.Keys)
  }

  /** What a list of members asks for. */
  function Meaning(ms: seq<Member>): Option<BrokerRequest> {
    if Collect(ms).None? then None else DecideFields(Collect(ms).value)
  }

  /** `ParseBrokerRequest`. */
  function ParsedRequest(message: Bytes): Option<BrokerRequest> {
    if message == [] || |message| > MAXIMUM_MESSAGE_BYTES then None
    else
      var r := ReadObject(Top, TokensOf(message));
      if r.None? || r.value.1 == [] || r.value.1[0] != Eof then None else Meaning(r.value.0)
  }

  // ---- messages ----

  /** A message that renders members, with any whitespace between its tokens. */
  predicate Renders(message: Bytes, ms: seq<Member>, gaps: seq<Bytes>) {
    && AllTyped(Top, ms) && AllWritable(ObjectTokens(ms)) && Spacing(ObjectTokens(ms), gaps)
    && message == Render(ObjectTokens(ms), gaps)
  }

  /** A message whose whole text is an object with these members, however its names, strings and numbers
      are spelled: with escapes, with leading zeros, with any whitespace. */
  predicate Spells(message: Bytes, ms: seq<Member>) {
    var r := ReadObject(Top, TokensOf(message));
    r.Some? && r.value.0 == ms && r.value.1 != [] && r.value.1[0] == Eof
  }

  lemma RenderSpells(message: Bytes, ms: seq<Member>, gaps: seq<Bytes>)
    requires Renders(message, ms, gaps)
    ensures Spells(message, ms)
  {
    TokensOfRender(ObjectTokens(ms), gaps);
    ReadObjectBack(Top, ms, [Eof]);
  }

  /** A message asks for what its members mean if it is within the size bound, and for nothing else. */
  lemma SpelledMeaning(message: Bytes, ms: seq<Member>)
    requires Spells(message, ms)
    ensures ParsedRequest(message) == if |message| <= MAXIMUM_MESSAGE_BYTES then Meaning(ms) else None
  {
  }

  /** Within the size bound, a message asks for what its members mean, whatever its whitespace. */
  lemma ParsedMeaning(message: Bytes, ms: seq<Member>, gaps: seq<Bytes>)
    requires Renders(message, ms, gaps) && |message| <= MAXIMUM_MESSAGE_BYTES
    ensures ParsedRequest(message) == Meaning(ms)
  {
    RenderSpells(message, ms, gaps);
    SpelledMeaning(message, ms);
  }

  /** Any order of the members and any spelling of them give the same request. */
  lemma RearrangedParsesSame(message: Bytes, ms: seq<Member>, other: Bytes, ns: seq<Member>)
    requires Spells(message, ms) && |message| <= MAXIMUM_MESSAGE_BYTES
    requires Spells(other, ns) && |other| <= MAXIMUM_MESSAGE_BYTES
    requires multiset(ms) == multiset(ns)
    ensures ParsedRequest(message) == ParsedRequest(other)
  {
    SpelledMeaning(message, ms);
    SpelledMeaning(other, ns);
    CollectPermuted(ms, ns);
  }

  /** So does any order inside a nested object. */
  lemma NestedRearrangedParsesSame(message: Bytes, ms: seq<Member>, other: Bytes,
                                   i: nat, name: Name, a: seq<Member>, b: seq<Member>)
    requires Spells(message, ms) && |message| <= MAXIMUM_MESSAGE_BYTES
    requires i < |ms| && ms[i] == Member(name, Object(a)) && multiset(a) == multiset(b)
    requires Spells(other, ms[i := Member(name, Object(b))]) && |other| <= MAXIMUM_MESSAGE_BYTES
    ensures ParsedRequest(message) == ParsedRequest(other)
  {
    SpelledMeaning(message, ms);
    SpelledMeaning(other, ms[i := Member(name, Object(b))]);
    NestedPermuted(ms, i, name, a, b);
  }

  /** The members that reading the message gives, whatever follows them. */
  predicate Lists(message: Bytes, ms: seq<Member>) {
    var r := ReadObject(Top, TokensOf(message));
    r.Some? && r.value.0 == ms
  }

  /** A repeated member, at the top or in a nested object, rejects the message, however it is spelled. */
  lemma RepeatedMemberRejected(message: Bytes, ms: seq<Member>, i: nat, j: nat)
    requires Lists(message, ms) && i < j < |ms| && ms[i].name == ms[j].name
    ensures ParsedRequest(message).None?
  {
    RepeatRejected(ms, i, j);
  }

  lemma RepeatedNestedMemberRejected(message: Bytes, ms: seq<Member>, k: nat, i: nat, j: nat)
    requires Lists(message, ms) && k < |ms| && ms[k].value.Object?
    requires i < j < |ms[k].value.members| && ms[k].value.members[i].name == ms[k].value.members[j].name
    ensures ParsedRequest(message).None?
  {
    RepeatRejected(ms[k].value.members, i, j);
    UncheckedRejected(ms, k);
  }
}
