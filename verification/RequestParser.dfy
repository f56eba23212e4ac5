/** `ParseBrokerRequest` and its readers over a moving `JsonReader`
    (src/protocol/BrokerProtocol.cpp). */
module RequestParser {
  import opened Text
  import opened Wrappers
  import opened AppContainer
  import opened Tokens
  import opened JsonReaders
  import opened Names
  import opened Members
  import opened RequestRules

  // ---- one pass over the members ----

  /** The value of one member, read and added. */
  function Field(schema: Schema, fields: map<Name, Value>, name: Name, ts: seq<Token>)
    : Option<(map<Name, Value>, seq<Token>)>
  {
    if KindOf(schema, name).None? || ReadValue(KindOf(schema, name).value, ts).None? then None
    else
      var (value, rest) := ReadValue(KindOf(schema, name).value, ts).value;
      var more := Add(fields, Member(name, value));
      if more.None? then None else Some((more.value, rest))
  }

  /** The name a member starts with. */
  function Named(ts: seq<Token>): Option<Name> {
    if |ts| < 2 || !ts[0].Str? || ts[1] != Punct(COLON) then None else NameOf(ts[0].w)
  }

  /** Reading members into fields in one pass, as the reading loops do. */
  function Gather(schema: Schema, fields: map<Name, Value>, ts: seq<Token>): Option<(map<Name, Value>, seq<Token>)>
    decreases |ts|
  {
    if Named(ts).None? then None
    else
      var f := Field(schema, fields, Named(ts).value, ts[2..]);
      if f.None? then None
      else
        var (more, rest) := f.value;
        if rest == [] then None
        else if rest[0] == Punct(CLOSE) then Some((more, rest[1..]))
        else if rest[0] == Punct(COMMA) then Gather(schema, more, rest[1..])
        else None
  }

  lemma MemberField(schema: Schema, fields: map<Name, Value>, ts: seq<Token>)
    ensures var m := ReadMember(schema, ts);
            (if Named(ts).None? then None else Field(schema, fields, Named(ts).value, ts[2..])) ==
            if m.None? || Add(fields, m.value.0).None? then None else Some((Add(fields, m.value.0).value, m.value.1))
  {
  }

  /** One pass finds what reading the whole list and then collecting it finds. */
  lemma {:induction false} GatherCollects(schema: Schema, soFar: seq<Member>, ts: seq<Token>)
    requires Collect(soFar).Some?
    ensures Gather(schema, Collect(soFar).value, ts) ==
            var r := ReadMembers(schema, ts);
            if r.None? || Collect(soFar + r.value.0).None? then None
            else Some((Collect(soFar + r.value.0).value, r.value.1))
    decreases |ts|
  {
    var fields := Collect(soFar).value;
    var m := ReadMember(schema, ts);
    MemberField(schema, fields, ts);
    if m.Some? {
      var (member, rest) := m.value;
      CollectMore(soFar, member);
      if Add(fields, member).None? {
        MemberRejects(schema, soFar, ts);
      } else if rest != [] && rest[0] == Punct(COMMA) {
        GatherCollects(schema, soFar + [member], rest[1..]);
        var r := ReadMembers(schema, rest[1..]);
        if r.Some? {
          Shift(soFar, member, r.value.0);
        }
      }
    }
  }

  lemma Shift(soFar: seq<Member>, member: Member, more: seq<Member>)
    ensures soFar + ([member] + more) == soFar + [member] + more
  {
  }

  lemma MemberRejects(schema: Schema, soFar: seq<Member>, ts: seq<Token>)
    requires ReadMember(schema, ts).Some? && Collect(soFar + [ReadMember(schema, ts).value.0]).None?
    ensures ReadMembers(schema, ts).Some? ==> Collect(soFar + ReadMembers(schema, ts).value.0).None?
  {
    var member := ReadMember(schema, ts).value.0;
    var r := ReadMembers(schema, ts);
    if r.Some? {
      var list := r.value.0;
      assert list == [member] + list[1..];
      Shift(soFar, member, list[1..]);
      CollectPrefix(soFar + [member], list[1..]);
    }
  }

  /** An object read in one pass. */
  function Gathered(schema: Schema, ts: seq<Token>): Option<(map<Name, Value>, seq<Token>)> {
    if ts == [] || ts[0] != Punct(OPEN) then None else Gather(schema, map[], ts[1..])
  }

  lemma GatheredIs(schema: Schema, ts: seq<Token>)
    ensures Gathered(schema, ts) ==
            var r := ReadObject(schema, ts);
            if r.None? || Collect(r.value.0).None? then None else Some((Collect(r.value.0).value, r.value.1))
  {
    if ts != [] && ts[0] == Punct(OPEN) {
      GatherCollects(schema, [], ts[1..]);
      var r := ReadMembers(schema, ts[1..]);
      assert r.Some? ==> [] + r.value.0 == r.value.0;
    }
  }

  // ---- string arrays ----

  /** Reading the strings in one pass, each checked as it is read. */
  function Fill(name: Name, values: seq<Wide>, ts: seq<Token>): Option<(seq<Wide>, seq<Token>)>
    decreases |ts|
  {
    if |ts| < 2 || !ts[0].Str? || !ValidText(name, ts[0].w) || |values| == MAXIMUM_ARGUMENTS then None
    else if ts[1] == Punct(CLOSE_LIST) then Some((values + [ts[0].w], ts[2..]))
    else if ts[1] == Punct(COMMA) then Fill(name, values + [ts[0].w], ts[2..])
    else None
  }

  lemma {:induction false} FillReads(name: Name, values: seq<Wide>, ts: seq<Token>)
    requires ValidTexts(name, values)
    ensures Fill(name, values, ts) ==
            var r := ReadTexts(ts);
            if r.None? || !ValidTexts(name, values + r.value.0) then None else Some((values + r.value.0, r.value.1))
    decreases |ts|
  {
    if ReadTexts(ts).Some? {
      var (read, rest) := ReadTexts(ts).value;
      assert read[0] == ts[0].w && (values + read)[|values|] == read[0];
      if ts[1] == Punct(COMMA) {
        var more := ReadTexts(ts[2..]).value.0;
        assert values + read == (values + [ts[0].w]) + more;
      }
    }
    if |ts| >= 2 && ts[0].Str? && ValidText(name, ts[0].w) && |values| < MAXIMUM_ARGUMENTS && ts[1] == Punct(COMMA) {
      FillReads(name, values + [ts[0].w], ts[2..]);
    }
  }

  /** A list read in one pass. */
  function Filled(name: Name, ts: seq<Token>): Option<(seq<Wide>, seq<Token>)> {
    if |ts| < 2 || ts[0] != Punct(OPEN_LIST) then None
    else if ts[1] == Punct(CLOSE_LIST) then Some(([], ts[2..]))
    else Fill(name, [], ts[1..])
  }

  lemma FilledIs(name: Name, ts: seq<Token>)
    ensures Filled(name, ts) ==
            var r := ReadList(ts);
            if r.None? || !ValidTexts(name, r.value.0) then None else r
  {
    if |ts| >= 2 {
      FillReads(name, [], ts[1..]);
      var r := ReadTexts(ts[1..]);
      assert r.Some? ==> [] + r.value.0 == r.value.0;
    }
  }

  method ReadStringArray(reader: JsonReader, name: Name) returns (ok: bool, values: seq<Wide>)
    requires reader.Valid()
    modifies reader
    ensures reader.Valid()
    ensures ok <==> Filled(name, old(reader.Stream())).Some?
    ensures ok ==> Filled(name, old(reader.Stream())) == Some((values, reader.Stream()))
  {
    values := [];
    ok := reader.Consume(OPEN_LIST);
    if !ok {
      return;
    }
    ok := reader.Consume(CLOSE_LIST);
    if ok {
      return;
    }
    ghost var list := Fill(name, [], reader.Stream());
    while true
      invariant reader.Valid()
      invariant Filled(name, old(reader.Stream())) == list == Fill(name, values, reader.Stream())
      decreases |reader.Stream()|
    {
      var value;
      ok, value := reader.String();
      if !ok {
        return;
      }
      if !ValidText(name, value) || |values| == MAXIMUM_ARGUMENTS {
        return false, values;
      }
      values := values + [value];
      ok := reader.Consume(CLOSE_LIST);
      if ok {
        return;
      }
      ok := reader.Consume(COMMA);
      if !ok {
        return;
      }
    }
  }

  // ---- nested objects ----

  lemma TextField(schema: Schema, fields: map<Name, Value>, name: Name, ts: seq<Token>)
    requires KindOf(schema, name) == Some(TextKind) && ts != []
    ensures Field(schema, fields, name, ts) ==
            if !ts[0].Str? || name in fields || !ValidField(name, Text(ts[0].w)) then None
            else Some((fields[name := Text(ts[0].w)], ts[1..]))
  {
    if ts[0].Str? {
      AddPlain(fields, Member(name, Text(ts[0].w)));
    }
  }

  lemma FlagField(schema: Schema, fields: map<Name, Value>, name: Name, ts: seq<Token>)
    requires KindOf(schema, name) == Some(FlagKind) && ts != []
    ensures Field(schema, fields, name, ts) ==
            if !ts[0].Bool? || name in fields then None else Some((fields[name := Flag(ts[0].b)], ts[1..]))
  {
    if ts[0].Bool? {
      AddPlain(fields, Member(name, Flag(ts[0].b)));
    }
  }

  lemma AddPlain(fields: map<Name, Value>, m: Member)
    requires !m.value.Object?
    ensures Add(fields, m) ==
            if m.name in fields || !ValidField(m.name, m.value) then None else Some(fields[m.name := m.value])
  {
    assert Checked(m) == if ValidField(m.name, m.value) then Some(m.value) else None;
  }

  method ReadName(reader: JsonReader) returns (ok: bool, name: Name)
    requires reader.Valid()
    modifies reader
    ensures reader.Valid()
    ensures ok <==> Named(old(reader.Stream())).Some?
    ensures ok ==> Named(old(reader.Stream())) == Some(name) && reader.Stream() == old(reader.Stream())[2..]
  {
    var text;
    name := Version;
    ok, text := reader.String();
    if !ok {
      return;
    }
    ok := reader.Consume(COLON);
    if !ok {
      return;
    }
    var known := NameOf(text);
    if known.None? {
      return false, name;
    }
    name := known.value;
  }

  method ReadText(reader: JsonReader, schema: Schema, name: Name, seen: set<Name>, ghost fields: map<Name, Value>)
    returns (ok: bool, w: Wide)
    requires reader.Valid() && seen == fields.Keys && KindOf(schema, name) == Some(TextKind)
    modifies reader
    ensures reader.Valid()
    ensures ok <==> Field(schema, fields, name, old(reader.Stream())).Some?
    ensures ok ==> Field(schema, fields, name, old(reader.Stream())) == Some((fields[name := Text(w)], reader.Stream()))
  {
    TextField(schema, fields, name, reader.Stream());
    w := [];
    if name in seen {
      return false, w;
    }
    ok, w := reader.String();
    ok := ok && ValidField(name, Text(w));
  }

  method ReadFlag(reader: JsonReader, schema: Schema, name: Name, seen: set<Name>, ghost fields: map<Name, Value>)
    returns (ok: bool, b: bool)
    requires reader.Valid() && seen == fields.Keys && KindOf(schema, name) == Some(FlagKind)
    modifies reader
    ensures reader.Valid()
    ensures ok <==> Field(schema, fields, name, old(reader.Stream())).Some?
    ensures ok ==> Field(schema, fields, name, old(reader.Stream())) == Some((fields[name := Flag(b)], reader.Stream()))
  {
    FlagField(schema, fields, name, reader.Stream());
    b := false;
    if name in seen {
      return false, b;
    }
    ok, b := reader.Boolean();
  }

  lemma RequiredInConsole(seen: set<Name>)
    ensures Required(ConsoleObject) <= seen <==> PipeIn in seen && PipeOut in seen && PipeResize in seen
  {
  }

  function WithConsoleText(console: ConsoleRequest, name: Name, w: Wide): ConsoleRequest {
    match name
    case PipeIn => console.(pipeIn := w)
    case PipeOut => console.(pipeOut := w)
    case PipeResize => console.(pipeResize := w)
    case _ => console
  }

  lemma ConsoleWith(fields: map<Name, Value>, name: Name, w: Wide, b: bool)
    ensures KindOf(ConsoleObject, name) == Some(TextKind) ==>
              ConsoleOf(fields[name := Text(w)]) == WithConsoleText(ConsoleOf(fields), name, w)
    ensures ConsoleOf(fields[InheritCursor := Flag(b)]) == ConsoleOf(fields).(inheritCursor := b)
  {
  }

  method ReadConsoleField(reader: JsonReader, name: Name, console: ConsoleRequest, seen: set<Name>,
                          ghost fields: map<Name, Value>)
    returns (ok: bool, filled: ConsoleRequest, marked: set<Name>, ghost more: map<Name, Value>)
    requires reader.Valid() && console == ConsoleOf(fields) && seen == fields.Keys
    modifies reader
    ensures reader.Valid()
    ensures ok <==> Field(ConsoleObject, fields, name, old(reader.Stream())).Some?
    ensures ok ==> Field(ConsoleObject, fields, name, old(reader.Stream())) == Some((more, reader.Stream()))
    ensures ok ==> filled == ConsoleOf(more) && marked == more.Keys
  {
    ok, filled, marked, more := false, console, seen + {name}, fields;
    if name == PipeIn || name == PipeOut || name == PipeResize {
      var w;
      ok, w := ReadText(reader, ConsoleObject, name, seen, fields);
      ConsoleWith(fields, name, w, false);
      filled, more := WithConsoleText(console, name, w), fields[name := Text(w)];
    } else if name == InheritCursor {
      var b;
      ok, b := ReadFlag(reader, ConsoleObject, name, seen, fields);
      ConsoleWith(fields, name, [], b);
      filled, more := console.(inheritCursor := b), fields[name := Flag(b)];
    }
  }

  method ReadConsole(reader: JsonReader) returns (ok: bool, console: ConsoleRequest, ghost fields: map<Name, Value>)
    requires reader.Valid()
    modifies reader
    ensures reader.Valid()
    ensures var r := Gathered(ConsoleObject, old(reader.Stream()));
            ok <==> r.Some? && Required(ConsoleObject) <= r.value.0.Keys
    ensures ok ==> Gathered(ConsoleObject, old(reader.Stream())) == Some((fields, reader.Stream())) &&
                   console == ConsoleOf(fields)
  {
    console, fields := ConsoleRequest([], [], [], false), map[];
    ok := reader.Consume(OPEN);
    if !ok {
      return;
    }
    var seen: set<Name> := {};
    while true
      invariant reader.Valid()
      invariant Gathered(ConsoleObject, old(reader.Stream())) == Gather(ConsoleObject, fields, reader.Stream())
      invariant console == ConsoleOf(fields) && seen == fields.Keys
      decreases |reader.Stream()|
    {
      var name;
      ok, name := ReadName(reader);
      if !ok {
        return;
      }
      RequiredInConsole(seen + {name});
      ok, console, seen, fields := ReadConsoleField(reader, name, console, seen, fields);
      if !ok {
        return;
      }
      ok := reader.Consume(CLOSE);
      if ok {
        ok := PipeIn in seen && PipeOut in seen && PipeResize in seen;
        return;
      }
      ok := reader.Consume(COMMA);
      if !ok {
        return;
      }
    }
  }

  method ReadInteractiveField(reader: JsonReader, name: Name, interactive: InteractiveRequest, seen: set<Name>,
                              ghost fields: map<Name, Value>)
    returns (ok: bool, filled: InteractiveRequest, marked: set<Name>, ghost more: map<Name, Value>)
    requires reader.Valid() && interactive == InteractiveOf(fields) && seen == fields.Keys
    modifies reader
    ensures reader.Valid()
    ensures ok <==> Field(InteractiveObject, fields, name, old(reader.Stream())).Some?
    ensures ok ==> Field(InteractiveObject, fields, name, old(reader.Stream())) == Some((more, reader.Stream()))
    ensures ok ==> filled == InteractiveOf(more) && marked == more.Keys
  {
    ok, filled, marked, more := false, interactive, seen + {name}, fields;
    if name == LeasePipe {
      var w;
      ok, w := ReadText(reader, InteractiveObject, name, seen, fields);
      filled, more := interactive.(leasePipe := w), fields[LeasePipe := Text(w)];
    } else if name == Nonce {
      var w;
      ok, w := ReadText(reader, InteractiveObject, name, seen, fields);
      filled, more := interactive.(nonce := w), fields[Nonce := Text(w)];
    }
  }

  lemma RequiredInInteractive(seen: set<Name>)
    ensures Required(InteractiveObject) <= seen <==> LeasePipe in seen && Nonce in seen
  {
  }

  method ReadInteractiveLaunch(reader: JsonReader)
    returns (ok: bool, interactive: InteractiveRequest, ghost fields: map<Name, Value>)
    requires reader.Valid()
    modifies reader
    ensures reader.Valid()
    ensures var r := Gathered(InteractiveObject, old(reader.Stream()));
            ok <==> r.Some? && Required(InteractiveObject) <= r.value.0.Keys
    ensures ok ==> Gathered(InteractiveObject, old(reader.Stream())) == Some((fields, reader.Stream())) &&
                   interactive == InteractiveOf(fields)
  {
    interactive, fields := InteractiveRequest([], []), map[];
    ok := reader.Consume(OPEN);
    if !ok {
      return;
    }
    var seen: set<Name> := {};
    while true
      invariant reader.Valid()
      invariant Gathered(InteractiveObject, old(reader.Stream())) == Gather(InteractiveObject, fields, reader.Stream())
      invariant interactive == InteractiveOf(fields) && seen == fields.Keys
      decreases |reader.Stream()|
    {
      var name;
      ok, name := ReadName(reader);
      if !ok {
        return;
      }
      ok, interactive, seen, fields := ReadInteractiveField(reader, name, interactive, seen, fields);
      if !ok {
        return;
      }
      ok := reader.Consume(CLOSE);
      if ok {
        RequiredInInteractive(seen);
        ok := LeasePipe in seen && Nonce in seen;
        return;
      }
      ok := reader.Consume(COMMA);
      if !ok {
        return;
      }
    }
  }

  // ---- the request ----

  function WithText(r: BrokerRequest, name: Name, w: Wide): BrokerRequest {
    match name
    case RequestId => r.(requestId := w)
    case ProfileId => r.(profileId := w)
    case WorkingDirectory => r.(workingDirectory := w)
    case _ => r
  }

  function WithFlag(r: BrokerRequest, name: Name, b: bool): BrokerRequest {
    match name
    case Force => r.(force := b)
    case RestrictAccess => r.(restrictAccess := b)
    case LowIntegrity => r.(lowIntegrity := b)
    case Log => r.(log := b)
    case AppContainer => r.(appContainer := r.appContainer.(enabled := b))
    case _ => r
  }

  function WithTexts(r: BrokerRequest, name: Name, ws: seq<Wide>): BrokerRequest {
    if name == Arguments then r.(arguments := ws) else r.(appContainer := r.appContainer.(capabilities := ws))
  }

  lemma AtOther(fields: map<Name, Value>, name: Name, v: Value, other: Name)
    requires other != name
    ensures TextAt(fields[name := v], other) == TextAt(fields, other)
    ensures FlagAt(fields[name := v], other) == FlagAt(fields, other)
    ensures TextsAt(fields[name := v], other) == TextsAt(fields, other)
    ensures FieldsAt(fields[name := v], other) == FieldsAt(fields, other)
  {
  }

  /** The flags of a request, and the rest of it. */
  lemma FlagsOnly(fields: map<Name, Value>, name: Name, b: bool)
    requires KindOf(Top, name) == Some(FlagKind)
    ensures var more := fields[name := Flag(b)];
            RequestOf(more) == RequestOf(fields).(
              force := FlagAt(more, Force), restrictAccess := FlagAt(more, RestrictAccess),
              lowIntegrity := FlagAt(more, LowIntegrity), log := FlagAt(more, Log),
              appContainer := AppContainerOptions(FlagAt(more, AppContainer), TextsAt(fields, Capabilities)))
  {
    var v := Flag(b);
    AtOther(fields, name, v, RequestId);
    AtOther(fields, name, v, ProfileId);
    AtOther(fields, name, v, WorkingDirectory);
    AtOther(fields, name, v, Arguments);
    AtOther(fields, name, v, Capabilities);
    AtOther(fields, name, v, Console);
    AtOther(fields, name, v, Interactive);
  }

  /** The texts of a request, and the rest of it. */
  lemma TextsOnly(fields: map<Name, Value>, name: Name, w: Wide)
    requires KindOf(Top, name) == Some(TextKind)
    ensures var more := fields[name := Text(w)];
            RequestOf(more) == RequestOf(fields).(
              requestId := TextAt(more, RequestId), profileId := TextAt(more, ProfileId),
              workingDirectory := TextAt(more, WorkingDirectory))
  {
    var more := fields[name := Text(w)];
    TextsKeepParts(fields, name, w);
    assert AppContainerOptions(FlagAt(more, AppContainer), TextsAt(more, Capabilities)) ==
           AppContainerOptions(FlagAt(fields, AppContainer), TextsAt(fields, Capabilities));
  }

  lemma TextsKeepParts(fields: map<Name, Value>, name: Name, w: Wide)
    requires KindOf(Top, name) == Some(TextKind)
    ensures var more := fields[name := Text(w)];
            && FlagAt(more, Force) == FlagAt(fields, Force) && FlagAt(more, Log) == FlagAt(fields, Log)
            && FlagAt(more, RestrictAccess) == FlagAt(fields, RestrictAccess)
            && FlagAt(more, LowIntegrity) == FlagAt(fields, LowIntegrity)
            && FlagAt(more, AppContainer) == FlagAt(fields, AppContainer)
            && TextsAt(more, Capabilities) == TextsAt(fields, Capabilities)
            && TextsAt(more, Arguments) == TextsAt(fields, Arguments)
            && FieldsAt(more, Console) == FieldsAt(fields, Console)
            && FieldsAt(more, Interactive) == FieldsAt(fields, Interactive)
  {
  }

  lemma FillsText(fields: map<Name, Value>, name: Name, w: Wide)
    requires KindOf(Top, name) == Some(TextKind)
    ensures RequestOf(fields[name := Text(w)]) == WithText(RequestOf(fields), name, w)
    ensures TextAt(fields[name := Text(w)], Operation) == if name == Operation then w else TextAt(fields, Operation)
    ensures TextAt(fields[name := Text(w)], Mode) == if name == Mode then w else TextAt(fields, Mode)
  {
    TextsOnly(fields, name, w);
  }

  /** The other values leave the texts alone. */
  lemma KeepsTexts(fields: map<Name, Value>, name: Name, v: Value)
    requires !v.Text? && KindOf(Top, name) != Some(TextKind)
    ensures forall other :: KindOf(Top, other) == Some(TextKind) ==>
              TextAt(fields[name := v], other) == TextAt(fields, other)
  {
  }

  lemma FillsFlag(fields: map<Name, Value>, name: Name, b: bool)
    requires KindOf(Top, name) == Some(FlagKind)
    ensures RequestOf(fields[name := Flag(b)]) == WithFlag(RequestOf(fields), name, b)
  {
    FlagsOnly(fields, name, b);
  }

  lemma FillsTexts(fields: map<Name, Value>, name: Name, ws: seq<Wide>)
    requires KindOf(Top, name) == Some(TextsKind)
    ensures RequestOf(fields[name := Texts(ws)]) == WithTexts(RequestOf(fields), name, ws)
  {
    KeepsTexts(fields, name, Texts(ws));
  }

  lemma FillsVersion(fields: map<Name, Value>, n: nat)
    ensures RequestOf(fields[Version := Number(n)]) == RequestOf(fields)
  {
    KeepsTexts(fields, Version, Number(n));
  }

  lemma FillsConsole(fields: map<Name, Value>, inner: map<Name, Value>)
    ensures RequestOf(fields[Console := Fields(inner)]) == RequestOf(fields).(console := ConsoleOf(inner))
  {
    KeepsTexts(fields, Console, Fields(inner));
  }

  lemma FillsInteractive(fields: map<Name, Value>, inner: map<Name, Value>)
    ensures RequestOf(fields[Interactive := Fields(inner)]) == RequestOf(fields).(interactive := InteractiveOf(inner))
  {
    KeepsTexts(fields, Interactive, Fields(inner));
  }

  /** What the reading loop holds: the request so far, the texts of operation and mode, the names seen. */
  datatype Draft = Draft(request: BrokerRequest, operation: Wide, mode: LaunchMode, seen: set<Name>)

  ghost predicate Drafts(d: Draft, fields: map<Name, Value>) {
    && d.request == RequestOf(fields) && d.operation == TextAt(fields, Operation)
    && d.mode == ModeOf(TextAt(fields, Mode)) && d.seen == fields.Keys
  }

  /** The fields of a request whose member has just been read, and the tokens left. */
  ghost predicate Read(r: Option<(map<Name, Value>, seq<Token>)>, ok: bool, d: Draft, fields: map<Name, Value>,
                       left: seq<Token>)
  {
    (ok <==> r.Some?) && (ok ==> r == Some((fields, left)) && Drafts(d, fields))
  }

  lemma TextsField(fields: map<Name, Value>, name: Name, ts: seq<Token>)
    requires KindOf(Top, name) == Some(TextsKind)
    ensures Field(Top, fields, name, ts) ==
            var r := Filled(name, ts);
            if r.None? || name in fields then None else Some((fields[name := Texts(r.value.0)], r.value.1))
  {
    FilledIs(name, ts);
    var r := ReadList(ts);
    if r.Some? {
      AddPlain(fields, Member(name, Texts(r.value.0)));
    }
  }

  lemma NumberField(fields: map<Name, Value>, ts: seq<Token>)
    requires ts != []
    ensures Field(Top, fields, Version, ts) ==
            if !ts[0].Num? || Version in fields || ts[0].n != 1 then None
            else Some((fields[Version := Number(1)], ts[1..]))
  {
    if ts[0].Num? {
      AddPlain(fields, Member(Version, Number(ts[0].n)));
    }
  }

  lemma ObjectField(fields: map<Name, Value>, name: Name, ts: seq<Token>)
    requires name == Console || name == Interactive
    ensures Field(Top, fields, name, ts) ==
            var r := Gathered(SchemaOf(name), ts);
            if r.None? || name in fields || !(Required(SchemaOf(name)) <= r.value.0.Keys) then None
            else Some((fields[name := Fields(r.value.0)], r.value.1))
  {
    GatheredIs(SchemaOf(name), ts);
    var r := ReadObject(SchemaOf(name), ts);
    if r.Some? {
      CheckedObject(name, r.value.0);
    }
  }

  lemma CheckedObject(name: Name, ms: seq<Member>)
    ensures Checked(Member(name, Object(ms))) ==
            if Collect(ms).None? || !(Required(SchemaOf(name)) <= Collect(ms).value.Keys) then None
            else Some(Fields(Collect(ms).value))
  {
  }

  function DraftWithText(d: Draft, name: Name, w: Wide): Draft {
    Draft(WithText(d.request, name, w), if name == Operation then w else d.operation,
          if name == Mode then ModeOf(w) else d.mode, d.seen + {name})
  }

  lemma DraftsText(d: Draft, fields: map<Name, Value>, name: Name, w: Wide)
    requires Drafts(d, fields) && KindOf(Top, name) == Some(TextKind)
    ensures Drafts(DraftWithText(d, name, w), fields[name := Text(w)])
  {
    FillsText(fields, name, w);
  }

  method ReadTextField(reader: JsonReader, name: Name, d: Draft, ghost fields: map<Name, Value>)
    returns (ok: bool, filled: Draft, ghost more: map<Name, Value>)
    requires reader.Valid() && Drafts(d, fields) && KindOf(Top, name) == Some(TextKind)
    modifies reader
    ensures reader.Valid() && Read(Field(Top, fields, name, old(reader.Stream())), ok, filled, more, reader.Stream())
  {
    var w;
    ok, w := ReadText(reader, Top, name, d.seen, fields);
    more := fields[name := Text(w)];
    DraftsText(d, fields, name, w);
    filled := DraftWithText(d, name, w);
  }

  method ReadFlagField(reader: JsonReader, name: Name, d: Draft, ghost fields: map<Name, Value>)
    returns (ok: bool, filled: Draft, ghost more: map<Name, Value>)
    requires reader.Valid() && Drafts(d, fields) && KindOf(Top, name) == Some(FlagKind)
    modifies reader
    ensures reader.Valid() && Read(Field(Top, fields, name, old(reader.Stream())), ok, filled, more, reader.Stream())
  {
    var b;
    ok, b := ReadFlag(reader, Top, name, d.seen, fields);
    more := fields[name := Flag(b)];
    FillsFlag(fields, name, b);
    KeepsTexts(fields, name, Flag(b));
    filled := d.(request := WithFlag(d.request, name, b), seen := d.seen + {name});
  }

  method ReadTextsField(reader: JsonReader, name: Name, d: Draft, ghost fields: map<Name, Value>)
    returns (ok: bool, filled: Draft, ghost more: map<Name, Value>)
    requires reader.Valid() && Drafts(d, fields) && KindOf(Top, name) == Some(TextsKind)
    modifies reader
    ensures reader.Valid() && Read(Field(Top, fields, name, old(reader.Stream())), ok, filled, more, reader.Stream())
  {
    TextsField(fields, name, reader.Stream());
    ok, filled, more := false, d, fields;
    if name in d.seen {
      return;
    }
    var ws;
    ok, ws := ReadStringArray(reader, name);
    more := fields[name := Texts(ws)];
    FillsTexts(fields, name, ws);
    KeepsTexts(fields, name, Texts(ws));
    filled := d.(request := WithTexts(d.request, name, ws), seen := d.seen + {name});
  }

  method ReadVersion(reader: JsonReader, d: Draft, ghost fields: map<Name, Value>)
    returns (ok: bool, filled: Draft, ghost more: map<Name, Value>)
    requires reader.Valid() && Drafts(d, fields)
    modifies reader
    ensures reader.Valid() && Read(Field(Top, fields, Version, old(reader.Stream())), ok, filled, more, reader.Stream())
  {
    NumberField(fields, reader.Stream());
    ok, filled, more := false, d, fields;
    if Version in d.seen {
      return;
    }
    var value;
    ok, value := reader.Unsigned();
    ok := ok && value == 1;
    more := fields[Version := Number(1)];
    FillsVersion(fields, 1);
    KeepsTexts(fields, Version, Number(1));
    filled := d.(seen := d.seen + {Version});
  }

  method ReadObjectField(reader: JsonReader, name: Name, d: Draft, ghost fields: map<Name, Value>)
    returns (ok: bool, filled: Draft, ghost more: map<Name, Value>)
    requires reader.Valid() && Drafts(d, fields) && (name == Console || name == Interactive)
    modifies reader
    ensures reader.Valid() && Read(Field(Top, fields, name, old(reader.Stream())), ok, filled, more, reader.Stream())
  {
    ok, filled, more := false, d, fields;
    ObjectField(fields, name, reader.Stream());
    if name in d.seen {
      return;
    }
    if name == Console {
      ok, filled, more := ReadConsoleMember(reader, d, fields);
    } else {
      ok, filled, more := ReadInteractiveMember(reader, d, fields);
    }
  }

  /** The console object, which has not been seen yet. */
  method ReadConsoleMember(reader: JsonReader, d: Draft, ghost fields: map<Name, Value>)
    returns (ok: bool, filled: Draft, ghost more: map<Name, Value>)
    requires reader.Valid() && Drafts(d, fields) && Console !in d.seen
    modifies reader
    ensures reader.Valid() && Read(Field(Top, fields, Console, old(reader.Stream())), ok, filled, more, reader.Stream())
  {
    ObjectField(fields, Console, reader.Stream());
    ghost var inner;
    var console;
    ok, console, inner := ReadConsole(reader);
    more := fields[Console := Fields(inner)];
    DraftsConsole(d, fields, inner);
    filled := d.(request := d.request.(console := console), seen := d.seen + {Console});
  }

  /** The interactive object, which has not been seen yet. */
  method ReadInteractiveMember(reader: JsonReader, d: Draft, ghost fields: map<Name, Value>)
    returns (ok: bool, filled: Draft, ghost more: map<Name, Value>)
    requires reader.Valid() && Drafts(d, fields) && Interactive !in d.seen
    modifies reader
    ensures reader.Valid()
    ensures Read(Field(Top, fields, Interactive, old(reader.Stream())), ok, filled, more, reader.Stream())
  {
    ObjectField(fields, Interactive, reader.Stream());
    ghost var inner;
    var interactive;
    ok, interactive, inner := ReadInteractiveLaunch(reader);
    more := fields[Interactive := Fields(inner)];
    DraftsInteractive(d, fields, inner);
    filled := d.(request := d.request.(interactive := interactive), seen := d.seen + {Interactive});
  }

  lemma DraftsConsole(d: Draft, fields: map<Name, Value>, inner: map<Name, Value>)
    requires Drafts(d, fields)
    ensures Drafts(d.(request := d.request.(console := ConsoleOf(inner)), seen := d.seen + {Console}),
                   fields[Console := Fields(inner)])
  {
    FillsConsole(fields, inner);
    KeepsTexts(fields, Console, Fields(inner));
  }

  lemma DraftsInteractive(d: Draft, fields: map<Name, Value>, inner: map<Name, Value>)
    requires Drafts(d, fields)
    ensures Drafts(d.(request := d.request.(interactive := InteractiveOf(inner)), seen := d.seen + {Interactive}),
                   fields[Interactive := Fields(inner)])
  {
    FillsInteractive(fields, inner);
    KeepsTexts(fields, Interactive, Fields(inner));
  }

  method ReadField(reader: JsonReader, name: Name, d: Draft, ghost fields: map<Name, Value>)
    returns (ok: bool, filled: Draft, ghost more: map<Name, Value>)
    requires reader.Valid() && Drafts(d, fields)
    modifies reader
    ensures reader.Valid() && Read(Field(Top, fields, name, old(reader.Stream())), ok, filled, more, reader.Stream())
  {
    var kind := KindOf(Top, name);
    if kind.None? {
      ok, filled, more := false, d, fields;
    } else if kind.value.NumberKind? {
      ok, filled, more := ReadVersion(reader, d, fields);
    } else if kind.value.TextKind? {
      ok, filled, more := ReadTextField(reader, name, d, fields);
    } else if kind.value.TextsKind? {
      ok, filled, more := ReadTextsField(reader, name, d, fields);
    } else if kind.value.FlagKind? {
      ok, filled, more := ReadFlagField(reader, name, d, fields);
    } else {
      ok, filled, more := ReadObjectField(reader, name, d, fields);
    }
  }

  method ReadRequest(reader: JsonReader) returns (ok: bool, d: Draft, ghost fields: map<Name, Value>)
    requires reader.Valid()
    modifies reader
    ensures reader.Valid() && Read(Gathered(Top, old(reader.Stream())), ok, d, fields, reader.Stream())
  {
    fields := map[];
    d := Draft(RequestOf(map[]), [], Missing, {});
    ok := reader.Consume(OPEN);
    if !ok {
      return;
    }
    while true
      invariant reader.Valid() && Drafts(d, fields)
      invariant Gathered(Top, old(reader.Stream())) == Gather(Top, fields, reader.Stream())
      decreases |reader.Stream()|
    {
      var name;
      ok, name := ReadName(reader);
      if !ok {
        return;
      }
      ok, d, fields := ReadField(reader, name, d, fields);
      if !ok {
        return;
      }
      ok := reader.Consume(CLOSE);
      if ok {
        return;
      }
      ok := reader.Consume(COMMA);
      if !ok {
        return;
      }
    }
  }

  method ParseBrokerRequest(message: Bytes) returns (request: Option<BrokerRequest>)
    ensures request == ParsedRequest(message)
  {
    if |message| == 0 || |message| > MAXIMUM_MESSAGE_BYTES {
      return None;
    }
    var reader := new JsonReader(message);
    GatheredIs(Top, reader.Stream());
    var ok, d;
    ghost var fields;
    ok, d, fields := ReadRequest(reader);
    if !ok {
      return None;
    }
    ok := reader.End();
    if !ok {
      return None;
    }
    return Decide(d.request, d.operation, d.mode, d.seen);
  }
}
