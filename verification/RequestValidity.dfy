/** Which requests a broker can ever receive: what every accepted message satisfies
    (`ParseBrokerRequest`, src/protocol/BrokerProtocol.cpp). */
module RequestValidity {
  import opened Text
  import opened Wrappers
  import opened AppContainer
  import opened Json
  import opened Tokens
  import opened Names
  import opened Members
  import opened RequestRules

  const NO_CONSOLE := ConsoleRequest([], [], [], false)
  const NO_INTERACTIVE := InteractiveRequest([], [])
  const NO_CONTAINER := AppContainerOptions(false, [])

  predicate AllPrintable(ws: seq<Wide>) {
    forall i :: 0 <= i < |ws| ==> Printable(ws[i])
  }

  predicate NoLaunchParts(r: BrokerRequest) {
    && !r.restrictAccess && !r.lowIntegrity && !r.log && r.appContainer == NO_CONTAINER
    && r.arguments == [] && r.workingDirectory == [] && r.console == NO_CONSOLE && r.interactive == NO_INTERACTIVE
  }

  predicate ValidProfile(r: BrokerRequest) {
    IsValidProfileId(r.profileId) && Printable(r.profileId)
  }

  predicate ValidLaunch(r: BrokerRequest) {
    && ValidProfile(r) && !r.force
    && ValidTexts(Arguments, r.arguments) && AllPrintable(r.arguments)
    && 0 < |r.workingDirectory| <= MAXIMUM_DIRECTORY_LENGTH && Printable(r.workingDirectory)
  }

  predicate ValidPipe(w: Wide) {
    IsPipeName(CONSOLE_PIPE, w) && Printable(w)
  }

  predicate ValidConsole(c: ConsoleRequest) {
    && ValidPipe(c.pipeIn) && ValidPipe(c.pipeOut) && ValidPipe(c.pipeResize)
    && c.pipeIn != c.pipeOut && c.pipeIn != c.pipeResize && c.pipeOut != c.pipeResize
  }

  /** The field checks and the rules between fields, on the request itself. */
  predicate ValidRequest(r: BrokerRequest) {
    && IsRequestId(r.requestId)
    && match r.operation
       case List => r.profileId == [] && !r.force && NoLaunchParts(r)
       case ConsoleLaunch =>
         && ValidLaunch(r) && IsValidAppContainerOptions(r.appContainer)
         && (r.appContainer.enabled ==> !r.restrictAccess && !r.lowIntegrity)
         && ValidConsole(r.console) && r.interactive == NO_INTERACTIVE
       case InteractiveLaunch =>
         && ValidLaunch(r) && r.appContainer == NO_CONTAINER && r.console == NO_CONSOLE
         && IsPipeName(LEASE_PIPE_PREFIX, r.interactive.leasePipe) && Printable(r.interactive.leasePipe)
         && IsRequestId(r.interactive.nonce)
       case _ => ValidProfile(r) && (r.force ==> r.operation == TakeOver) && NoLaunchParts(r)
  }

  // ---- what is read from tokens ----

  predicate GoodTokens(ts: seq<Token>) {
    forall i :: 0 <= i < |ts| && ts[i].Str? ==> Printable(ts[i].w)
  }

  lemma {:induction false} StreamIsGood(s: Bytes)
    ensures GoodTokens(TokensOf(s))
    decreases |s|
  {
    var (t, rest) := Next(s);
    if t.Str? {
      AcceptedIsPrintable(SkipBlank(s)[1..]);
    }
    if !t.Eof? && !t.Bad? {
      StreamIsGood(rest);
    }
  }

  predicate GoodValue(kind: Kind, v: Value)
    decreases v, 1
  {
    match kind
    case NumberKind => v.Number?
    case TextKind => v.Text? && Printable(v.w)
    case FlagKind => v.Flag?
    case TextsKind => v.Texts? && AllPrintable(v.ws)
    case ObjectKind(schema) => v.Object? && GoodMembers(schema, v.members)
  }

  predicate GoodMember(schema: Schema, m: Member)
    decreases m, 2
  {
    KindOf(schema, m.name).Some? && GoodValue(KindOf(schema, m.name).value, m.value)
  }

  predicate GoodMembers(schema: Schema, ms: seq<Member>)
    decreases ms, 0
  {
    forall i :: 0 <= i < |ms| ==> GoodMember(schema, ms[i])
  }

  lemma {:induction false} ReadTextsGood(ts: seq<Token>)
    requires GoodTokens(ts) && ReadTexts(ts).Some?
    ensures AllPrintable(ReadTexts(ts).value.0) && GoodTokens(ReadTexts(ts).value.1)
  {
    if ts[1] == Punct(COMMA) {
      ReadTextsGood(ts[2..]);
    }
  }

  lemma ReadListGood(ts: seq<Token>)
    requires GoodTokens(ts) && ReadList(ts).Some?
    ensures AllPrintable(ReadList(ts).value.0) && GoodTokens(ReadList(ts).value.1)
  {
    if ts[1] != Punct(CLOSE_LIST) {
      ReadTextsGood(ts[1..]);
    }
  }

  lemma {:induction false} ReadValueGood(kind: Kind, ts: seq<Token>)
    requires GoodTokens(ts) && ReadValue(kind, ts).Some?
    ensures GoodValue(kind, ReadValue(kind, ts).value.0) && GoodTokens(ReadValue(kind, ts).value.1)
    decreases |ts|, 1
  {
    match kind
    case TextsKind => ReadListGood(ts);
    case ObjectKind(schema) => ReadObjectGood(schema, ts);
    case _ =>
  }

  lemma {:induction false} ReadObjectGood(schema: Schema, ts: seq<Token>)
    requires GoodTokens(ts) && ReadObject(schema, ts).Some?
    ensures GoodMembers(schema, ReadObject(schema, ts).value.0) && GoodTokens(ReadObject(schema, ts).value.1)
    decreases |ts|, 0
  {
    ReadMembersGood(schema, ts[1..]);
  }

  lemma {:induction false} ReadMemberGood(schema: Schema, ts: seq<Token>)
    requires GoodTokens(ts) && ReadMember(schema, ts).Some?
    ensures GoodMember(schema, ReadMember(schema, ts).value.0) && GoodTokens(ReadMember(schema, ts).value.1)
    decreases |ts|, 0
  {
    var name := NameOf(ts[0].w).value;
    ReadValueGood(KindOf(schema, name).value, ts[2..]);
  }

  lemma {:induction false} ReadMembersGood(schema: Schema, ts: seq<Token>)
    requires GoodTokens(ts) && ReadMembers(schema, ts).Some?
    ensures GoodMembers(schema, ReadMembers(schema, ts).value.0) && GoodTokens(ReadMembers(schema, ts).value.1)
    decreases |ts|, 1
  {
    ReadMemberGood(schema, ts);
    var (m, rest) := ReadMember(schema, ts).value;
    if rest[0] == Punct(COMMA) {
      ReadMembersGood(schema, rest[1..]);
    }
  }

  // ---- what is collected ----

  /** A checked value of a kind that holds no object. */
  predicate GoodPlain(kind: Kind, name: Name, v: Value) {
    match kind
    case NumberKind => v.Number?
    case TextKind => v.Text? && Printable(v.w) && ValidField(name, v)
    case FlagKind => v.Flag?
    case TextsKind => v.Texts? && AllPrintable(v.ws) && ValidTexts(name, v.ws)
    case ObjectKind(_) => false
  }

  predicate GoodInner(schema: Schema, fields: map<Name, Value>) {
    forall name :: name in fields ==>
      KindOf(schema, name).Some? && GoodPlain(KindOf(schema, name).value, name, fields[name])
  }

  predicate GoodField(name: Name, v: Value) {
    KindOf(Top, name).Some? &&
    match KindOf(Top, name).value
    case ObjectKind(inner) => v.Fields? && Required(inner) <= v.fields.Keys && GoodInner(inner, v.fields)
    case kind => GoodPlain(kind, name, v)
  }

  predicate GoodFields(fields: map<Name, Value>) {
    forall name :: name in fields ==> GoodField(name, fields[name])
  }

  lemma CheckedPlainGood(schema: Schema, m: Member)
    requires GoodMember(schema, m) && !m.value.Object? && Checked(m).Some?
    ensures GoodPlain(KindOf(schema, m.name).value, m.name, Checked(m).value)
  {
    assert Checked(m) == Some(m.value) && ValidField(m.name, m.value);
  }

  lemma {:induction false} CollectInnerGood(schema: Schema, ms: seq<Member>)
    requires schema != Top && GoodMembers(schema, ms) && Collect(ms).Some?
    ensures GoodInner(schema, Collect(ms).value)
  {
    if ms != [] {
      var front, last := ms[..|ms| - 1], ms[|ms| - 1];
      CollectInnerGood(schema, front);
      assert GoodMember(schema, last);
      var kind := KindOf(schema, last.name).value;
      assert kind.TextKind? || kind.FlagKind?;
      assert GoodValue(kind, last.value);
      CheckedPlainGood(schema, last);
    }
  }

  lemma CheckedGood(m: Member)
    requires GoodMember(Top, m) && Checked(m).Some?
    ensures GoodField(m.name, Checked(m).value)
  {
    if m.value.Object? {
      assert Checked(m) == Some(Fields(Collect(m.value.members).value));
      CollectInnerGood(SchemaOf(m.name), m.value.members);
    } else {
      CheckedPlainGood(Top, m);
    }
  }

  lemma {:induction false} CollectGood(ms: seq<Member>)
    requires GoodMembers(Top, ms) && Collect(ms).Some?
    ensures GoodFields(Collect(ms).value)
  {
    if ms != [] {
      var front, last := ms[..|ms| - 1], ms[|ms| - 1];
      CollectGood(front);
      assert GoodMember(Top, last);
      CheckedGood(last);
    }
  }

  // ---- what is decided ----

  lemma GoodTexts(fields: map<Name, Value>)
    requires GoodFields(fields)
    ensures forall name :: name in fields && KindOf(Top, name) == Some(TextKind) ==>
              Printable(TextAt(fields, name)) && ValidField(name, Text(TextAt(fields, name)))
    ensures forall name :: name in fields && KindOf(Top, name) == Some(TextsKind) ==>
              AllPrintable(TextsAt(fields, name)) && ValidTexts(name, TextsAt(fields, name))
  {
    forall name | name in fields && KindOf(Top, name) == Some(TextKind)
      ensures Printable(TextAt(fields, name)) && ValidField(name, Text(TextAt(fields, name)))
    {
      assert GoodField(name, fields[name]);
    }
    forall name | name in fields && KindOf(Top, name) == Some(TextsKind)
      ensures AllPrintable(TextsAt(fields, name)) && ValidTexts(name, TextsAt(fields, name))
    {
      assert GoodField(name, fields[name]);
    }
  }

  lemma GoodConsole(fields: map<Name, Value>)
    requires GoodFields(fields) && Console in fields
    ensures var c := ConsoleOf(FieldsAt(fields, Console));
            Printable(c.pipeIn) && Printable(c.pipeOut) && Printable(c.pipeResize)
  {
    assert GoodField(Console, fields[Console]);
    var inner := fields[Console].fields;
    assert PipeIn in inner && PipeOut in inner && PipeResize in inner;
  }

  lemma GoodInteractive(fields: map<Name, Value>)
    requires GoodFields(fields) && Interactive in fields
    ensures Printable(InteractiveOf(FieldsAt(fields, Interactive)).leasePipe)
  {
    assert GoodField(Interactive, fields[Interactive]);
    var inner := fields[Interactive].fields;
    assert LeasePipe in inner;
  }

  /** The texts that were given are checked; what was not given is empty. */
  predicate TextsChecked(r: BrokerRequest, seen: set<Name>) {
    && (RequestId in seen ==> IsRequestId(r.requestId))
    && (if ProfileId in seen then ValidProfile(r) else r.profileId == [])
    && (if WorkingDirectory in seen then
          0 < |r.workingDirectory| <= MAXIMUM_DIRECTORY_LENGTH && Printable(r.workingDirectory)
        else r.workingDirectory == [])
    && (if Arguments in seen then ValidTexts(Arguments, r.arguments) && AllPrintable(r.arguments)
        else r.arguments == [])
    && (Capabilities !in seen ==> r.appContainer.capabilities == [])
  }

  predicate FlagsChecked(r: BrokerRequest, seen: set<Name>) {
    && (Force !in seen ==> !r.force)
    && (RestrictAccess !in seen ==> !r.restrictAccess)
    && (LowIntegrity !in seen ==> !r.lowIntegrity)
    && (Log !in seen ==> !r.log)
    && (AppContainer !in seen ==> !r.appContainer.enabled)
  }

  predicate ObjectsChecked(r: BrokerRequest, seen: set<Name>) {
    && (if Console in seen then
          Printable(r.console.pipeIn) && Printable(r.console.pipeOut) && Printable(r.console.pipeResize)
        else r.console == NO_CONSOLE)
    && (if Interactive in seen then Printable(r.interactive.leasePipe) else r.interactive == NO_INTERACTIVE)
  }

  lemma TextsAreChecked(fields: map<Name, Value>)
    requires GoodFields(fields)
    ensures TextsChecked(RequestOf(fields), fields.Keys)
  {
    GoodTexts(fields);
  }

  lemma ObjectsAreChecked(fields: map<Name, Value>)
    requires GoodFields(fields)
    ensures ObjectsChecked(RequestOf(fields), fields.Keys)
  {
    if Console in fields {
      GoodConsole(fields);
    }
    if Interactive in fields {
      GoodInteractive(fields);
    }
  }

  lemma DecidedManagement(r: BrokerRequest, operation: Wide, mode: LaunchMode, seen: set<Name>)
    requires TextsChecked(r, seen) && FlagsChecked(r, seen) && ObjectsChecked(r, seen)
    requires Decide(r, operation, mode, seen).Some? && (operation == LIST || ManagementOperation(operation).Some?)
    ensures ValidRequest(Decide(r, operation, mode, seen).value)
  {
    assert forall name :: name in LAUNCH_FIELDS ==> name !in seen;
    assert RequestId in seen;
    assert operation == LIST ==> ProfileId !in seen && Force !in seen;
  }

  lemma DecidedLaunch(r: BrokerRequest, operation: Wide, mode: LaunchMode, seen: set<Name>)
    requires TextsChecked(r, seen) && FlagsChecked(r, seen) && ObjectsChecked(r, seen)
    requires Decide(r, operation, mode, seen).Some? && operation == LAUNCH
    ensures ValidRequest(Decide(r, operation, mode, seen).value)
  {
    assert RequestId in seen && Arguments in seen && WorkingDirectory in seen;
    assert Force !in seen;
  }

  lemma DecidedValid(fields: map<Name, Value>)
    requires GoodFields(fields) && DecideFields(fields).Some?
    ensures ValidRequest(DecideFields(fields).value)
  {
    TextsAreChecked(fields);
    ObjectsAreChecked(fields);
    var operation := TextAt(fields, Operation);
    if operation == LIST || ManagementOperation(operation).Some? {
      DecidedManagement(RequestOf(fields), operation, ModeOf(TextAt(fields, Mode)), fields.Keys);
    } else {
      DecidedLaunch(RequestOf(fields), operation, ModeOf(TextAt(fields, Mode)), fields.Keys);
    }
  }

  /** Every request the broker acts on has passed every field check and holds nothing that its
      operation does not use. */
  lemma AcceptedIsValid(message: Bytes)
    requires ParsedRequest(message).Some?
    ensures ValidRequest(ParsedRequest(message).value)
  {
    var ts := TokensOf(message);
    StreamIsGood(message);
    ReadObjectGood(Top, ts);
    var ms := ReadObject(Top, ts).value.0;
    CollectGood(ms);
    DecidedValid(Collect(ms).value);
  }
}
