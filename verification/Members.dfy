/** JSON objects of named members: how they are read from tokens (`ReadObject`, `ReadStringArray` of
    src/protocol/BrokerProtocol.cpp), how they are written, and what a list of members means. */
module Members {
  import opened Text
  import opened Wrappers
  import opened Tokens
  import opened Names

  datatype Schema = Top | ConsoleObject | InteractiveObject

  datatype Kind = NumberKind | TextKind | FlagKind | TextsKind | ObjectKind(schema: Schema)

  /** What a name's value must be; None for a name the object does not know. */
  function KindOf(schema: Schema, name: Name): Option<Kind> {
    match schema
    case Top => (
      match name
      case Version => Some(NumberKind)
      case RequestId => Some(TextKind)
      case Operation => Some(TextKind)
      case ProfileId => Some(TextKind)
      case Mode => Some(TextKind)
      case Arguments => Some(TextsKind)
      case WorkingDirectory => Some(TextKind)
      case Console => Some(ObjectKind(ConsoleObject))
      case Interactive => Some(ObjectKind(InteractiveObject))
      case Force => Some(FlagKind)
      case RestrictAccess => Some(FlagKind)
      case LowIntegrity => Some(FlagKind)
      case Log => Some(FlagKind)
      case AppContainer => Some(FlagKind)
      case Capabilities => Some(TextsKind)
      case _ => None)
    case ConsoleObject => (
      match name
      case PipeIn => Some(TextKind)
      case PipeOut => Some(TextKind)
      case PipeResize => Some(TextKind)
      case InheritCursor => Some(FlagKind)
      case _ => None)
    case InteractiveObject => (
      match name
      case LeasePipe => Some(TextKind)
      case Nonce => Some(TextKind)
      case _ => None)
  }

  /** A value as it is read, and the fields an object stands for. */
  datatype Value =
    | Number(n: nat)
    | Text(w: Wide)
    | Flag(b: bool)
    | Texts(ws: seq<Wide>)
    | Object(members: seq<Member>)
    | Fields(fields: map<Name, Value>)

  datatype Member = Member(name: Name, value: Value)

  // ---- reading ----

  function ReadTexts(ts: seq<Token>): (r: Option<(seq<Wide>, seq<Token>)>)
    ensures r.Some? ==> |r.value.1| < |ts|
  {
    if |ts| < 2 || !ts[0].Str? then None
    else if ts[1] == Punct(CLOSE_LIST) then Some(([ts[0].w], ts[2..]))
    else if ts[1] == Punct(COMMA) then
      var r := ReadTexts(ts[2..]);
      if r.None? then None else Some(([ts[0].w] + r.value.0, r.value.1))
    else None
  }

  function ReadList(ts: seq<Token>): (r: Option<(seq<Wide>, seq<Token>)>)
    ensures r.Some? ==> |r.value.1| < |ts|
  {
    if |ts| < 2 || ts[0] != Punct(OPEN_LIST) then None
    else if ts[1] == Punct(CLOSE_LIST) then Some(([], ts[2..]))
    else ReadTexts(ts[1..])
  }

  function ReadValue(kind: Kind, ts: seq<Token>): (r: Option<(Value, seq<Token>)>)
    ensures r.Some? ==> |r.value.1| < |ts|
    decreases |ts|, 1
  {
    if ts == [] then None
    else
      match kind
      case NumberKind => if ts[0].Num? then Some((Number(ts[0].n), ts[1..])) else None
      case TextKind => if ts[0].Str? then Some((Text(ts[0].w), ts[1..])) else None
      case FlagKind => if ts[0].Bool? then Some((Flag(ts[0].b), ts[1..])) else None
      case TextsKind =>
        var r := ReadList(ts);
        if r.None? then None else Some((Texts(r.value.0), r.value.1))
      case ObjectKind(schema) =>
        var r := ReadObject(schema, ts);
        if r.None? then None else Some((Object(r.value.0), r.value.1))
  }

  function ReadObject(schema: Schema, ts: seq<Token>): (r: Option<(seq<Member>, seq<Token>)>)
    ensures r.Some? ==> |r.value.1| < |ts| && r.value.0 != []
    decreases |ts|, 0
  {
    if ts == [] || ts[0] != Punct(OPEN) then None else ReadMembers(schema, ts[1..])
  }

  /** The value of the member with this name. */
  function ReadNamed(schema: Schema, text: Wide, ts: seq<Token>): (r: Option<(Member, seq<Token>)>)
    ensures r.Some? ==> |r.value.1| < |ts|
    decreases |ts|, 2
  {
    if NameOf(text).None? || KindOf(schema, NameOf(text).value).None? then None
    else
      var v := ReadValue(KindOf(schema, NameOf(text).value).value, ts);
      if v.None? then None else Some((Member(NameOf(text).value, v.value.0), v.value.1))
  }

  /** One member, without what follows it. */
  function ReadMember(schema: Schema, ts: seq<Token>): (r: Option<(Member, seq<Token>)>)
    ensures r.Some? ==> |r.value.1| < |ts|
    decreases |ts|, 0
  {
    if |ts| < 2 || !ts[0].Str? || ts[1] != Punct(COLON) then None else ReadNamed(schema, ts[0].w, ts[2..])
  }

  function ReadMembers(schema: Schema, ts: seq<Token>): (r: Option<(seq<Member>, seq<Token>)>)
    ensures r.Some? ==> |r.value.1| < |ts| && r.value.0 != []
    decreases |ts|, 1
  {
    var m := ReadMember(schema, ts);
    if m.None? || m.value.1 == [] then None
    else if m.value.1[0] == Punct(CLOSE) then Some(([m.value.0], m.value.1[1..]))
    else if m.value.1[0] == Punct(COMMA) then
      var r := ReadMembers(schema, m.value.1[1..]);
      if r.None? then None else Some(([m.value.0] + r.value.0, r.value.1))
    else None
  }

  // ---- writing ----

  function TextsTokens(ws: seq<Wide>): seq<Token> {
    if ws == [] then [] else if |ws| == 1 then [Str(ws[0])] else [Str(ws[0]), Punct(COMMA)] + TextsTokens(ws[1..])
  }

  function ValueTokens(v: Value): seq<Token>
    decreases v
  {
    match v
    case Number(n) => [Num(n)]
    case Text(w) => [Str(w)]
    case Flag(b) => [Bool(b)]
    case Texts(ws) => [Punct(OPEN_LIST)] + TextsTokens(ws) + [Punct(CLOSE_LIST)]
    case Object(members) => [Punct(OPEN)] + MembersTokens(members) + [Punct(CLOSE)]
    case Fields(_) => []
  }

  function MemberTokens(m: Member): seq<Token>
    decreases m
  {
    [Str(TextOf(m.name)), Punct(COLON)] + ValueTokens(m.value)
  }

  function MembersTokens(ms: seq<Member>): seq<Token>
    decreases ms
  {
    if ms == [] then []
    else if |ms| == 1 then MemberTokens(ms[0])
    else MemberTokens(ms[0]) + [Punct(COMMA)] + MembersTokens(ms[1..])
  }

  function ObjectTokens(ms: seq<Member>): seq<Token> {
    [Punct(OPEN)] + MembersTokens(ms) + [Punct(CLOSE)]
  }

  predicate Typed(kind: Kind, v: Value)
    decreases v, 1
  {
    match kind
    case NumberKind => v.Number?
    case TextKind => v.Text?
    case FlagKind => v.Flag?
    case TextsKind => v.Texts?
    case ObjectKind(schema) => v.Object? && AllTyped(schema, v.members)
  }

  /** A list of members the object's reader can read. */
  predicate AllTyped(schema: Schema, ms: seq<Member>)
    decreases ms, 0
  {
    ms != [] && forall i :: 0 <= i < |ms| ==> TypedMember(schema, ms[i])
  }

  predicate TypedMember(schema: Schema, m: Member)
    decreases m, 2
  {
    KindOf(schema, m.name).Some? && Typed(KindOf(schema, m.name).value, m.value)
  }

  lemma Regroup(a: seq<Token>, b: seq<Token>, c: seq<Token>)
    ensures a + b + c == a + (b + c)
  {
  }

  lemma {:induction false} ReadTextsBack(ws: seq<Wide>, rest: seq<Token>)
    requires ws != []
    ensures ReadTexts(TextsTokens(ws) + ([Punct(CLOSE_LIST)] + rest)) == Some((ws, rest))
  {
    var end := [Punct(CLOSE_LIST)] + rest;
    if |ws| == 1 {
      assert ([Str(ws[0])] + end)[2..] == rest && ws == [ws[0]];
    } else {
      var more := TextsTokens(ws[1..]) + end;
      Regroup([Str(ws[0]), Punct(COMMA)], TextsTokens(ws[1..]), end);
      assert ([Str(ws[0]), Punct(COMMA)] + more)[2..] == more;
      ReadTextsBack(ws[1..], rest);
      assert ws == [ws[0]] + ws[1..];
    }
  }

  lemma ReadListBack(ws: seq<Wide>, rest: seq<Token>)
    ensures ReadList(ValueTokens(Texts(ws)) + rest) == Some((ws, rest))
  {
    var ts := ValueTokens(Texts(ws)) + rest;
    if ws == [] {
      assert ts[2..] == rest;
    } else {
      assert ts[1..] == TextsTokens(ws) + ([Punct(CLOSE_LIST)] + rest);
      assert ts[1] == Str(ws[0]);
      ReadTextsBack(ws, rest);
    }
  }

  /** Reading undoes writing. */
  lemma {:induction false} ReadValueBack(kind: Kind, v: Value, rest: seq<Token>)
    requires Typed(kind, v)
    ensures ReadValue(kind, ValueTokens(v) + rest) == Some((v, rest))
    decreases v, 2
  {
    match v
    case Texts(ws) =>
      ReadListBack(ws, rest);
    case Object(members) =>
      ReadObjectBack(kind.schema, members, rest);
    case Number(n) =>
      assert ([Num(n)] + rest)[1..] == rest;
    case Text(w) =>
      assert ([Str(w)] + rest)[1..] == rest;
    case Flag(b) =>
      assert ([Bool(b)] + rest)[1..] == rest;
  }

  lemma {:induction false} ReadObjectBack(schema: Schema, ms: seq<Member>, rest: seq<Token>)
    requires AllTyped(schema, ms)
    ensures ReadObject(schema, ObjectTokens(ms) + rest) == Some((ms, rest))
    decreases ms, 1
  {
    assert (ObjectTokens(ms) + rest)[1..] == MembersTokens(ms) + ([Punct(CLOSE)] + rest);
    ReadMembersBack(schema, ms, rest);
  }

  lemma {:induction false} ReadMemberBack(schema: Schema, m: Member, rest: seq<Token>)
    requires TypedMember(schema, m)
    ensures ReadMember(schema, MemberTokens(m) + rest) == Some((m, rest))
    decreases m, 3
  {
    var ts := MemberTokens(m) + rest;
    NameOfText(m.name);
    assert ts[2..] == ValueTokens(m.value) + rest;
    ReadValueBack(KindOf(schema, m.name).value, m.value, rest);
  }

  lemma {:induction false} ReadMembersBack(schema: Schema, ms: seq<Member>, rest: seq<Token>)
    requires AllTyped(schema, ms)
    ensures ReadMembers(schema, MembersTokens(ms) + ([Punct(CLOSE)] + rest)) == Some((ms, rest))
    decreases ms, 0
  {
    var end := [Punct(CLOSE)] + rest;
    if |ms| == 1 {
      ReadMemberBack(schema, ms[0], end);
      assert end[1..] == rest && ms == [ms[0]];
    } else {
      var more := MembersTokens(ms[1..]) + end;
      Regroup(MemberTokens(ms[0]) + [Punct(COMMA)], MembersTokens(ms[1..]), end);
      Regroup(MemberTokens(ms[0]), [Punct(COMMA)], more);
      ReadMemberBack(schema, ms[0], [Punct(COMMA)] + more);
      assert ([Punct(COMMA)] + more)[1..] == more;
      ReadMembersBack(schema, ms[1..], rest);
      assert ms == [ms[0]] + ms[1..];
    }
  }
}
