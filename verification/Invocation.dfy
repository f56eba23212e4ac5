/** How a console launch reaches its target: the broker turns a request into conhost arguments
    (`BrokerApplication::Launch`), conhost parses them (src/conhost/PseudoConsoleHostInvocation.cpp)
    and starts the target with a command line of its own. */
module Invocation {
  import opened Text
  import opened Wrappers
  import opened AppContainer

  /** --internal-pseudoconsole-host */
  const HOST: Wide := [
    0x2D, 0x2D, 0x69, 0x6E, 0x74, 0x65, 0x72, 0x6E, 0x61, 0x6C, 0x2D, 0x70, 0x73, 0x65, 0x75,
    0x64, 0x6F, 0x63, 0x6F, 0x6E, 0x73, 0x6F, 0x6C, 0x65, 0x2D, 0x68, 0x6F, 0x73, 0x74]
  /** --inherit-cursor */
  const INHERIT_CURSOR: Wide := [
    0x2D, 0x2D, 0x69, 0x6E, 0x68, 0x65, 0x72, 0x69,
    0x74, 0x2D, 0x63, 0x75, 0x72, 0x73, 0x6F, 0x72]
  /** --appcontainer-experimental */
  const APP_CONTAINER: Wide := [
    0x2D, 0x2D, 0x61, 0x70, 0x70, 0x63, 0x6F, 0x6E, 0x74, 0x61, 0x69, 0x6E, 0x65, 0x72,
    0x2D, 0x65, 0x78, 0x70, 0x65, 0x72, 0x69, 0x6D, 0x65, 0x6E, 0x74, 0x61, 0x6C]
  /** --appcontainer-capability */
  const CAPABILITY: Wide := [
    0x2D, 0x2D, 0x61, 0x70, 0x70, 0x63, 0x6F, 0x6E, 0x74, 0x61, 0x69, 0x6E, 0x65,
    0x72, 0x2D, 0x63, 0x61, 0x70, 0x61, 0x62, 0x69, 0x6C, 0x69, 0x74, 0x79]
  /** --pipe-in */
  const PIPE_IN: Wide := [0x2D, 0x2D, 0x70, 0x69, 0x70, 0x65, 0x2D, 0x69, 0x6E]
  /** --pipe-out */
  const PIPE_OUT: Wide := [0x2D, 0x2D, 0x70, 0x69, 0x70, 0x65, 0x2D, 0x6F, 0x75, 0x74]
  /** --pipe-resize */
  const PIPE_RESIZE: Wide := [0x2D, 0x2D, 0x70, 0x69, 0x70, 0x65, 0x2D, 0x72, 0x65, 0x73, 0x69, 0x7A, 0x65]
  /** -- */
  const SEPARATOR: Wide := [0x2D, 0x2D]

  /** The options of an invocation, before its executable and arguments. */
  datatype Options = Options(inheritCursor: bool, appContainer: AppContainerOptions,
                             pipeIn: Wide, pipeOut: Wide, pipeResize: Wide)

  datatype Invocation = Invocation(options: Options, executable: Wide, processArguments: seq<Wide>)

  const NO_OPTIONS := Options(false, AppContainerOptions(false, []), [], [], [])

  predicate Complete(o: Options) {
    IsValidAppContainerOptions(o.appContainer) && o.pipeIn != [] && o.pipeOut != [] && o.pipeResize != []
  }

  // ---- parsing ----

  /** The options that take a value. */
  datatype Name = Capability | PipeIn | PipeOut | PipeResize

  /** One option as it is written. */
  datatype Setting = Enable | Named(name: Name, value: Wide)

  function TextOf(name: Name): Wide {
    match name
    case Capability => CAPABILITY
    case PipeIn => PIPE_IN
    case PipeOut => PIPE_OUT
    case PipeResize => PIPE_RESIZE
  }

  function NameOf(text: Wide): Option<Name> {
    if text == CAPABILITY then Some(Capability)
    else if text == PIPE_IN then Some(PipeIn)
    else if text == PIPE_OUT then Some(PipeOut)
    else if text == PIPE_RESIZE then Some(PipeResize)
    else None
  }

  lemma NameOfText(name: Name)
    ensures NameOf(TextOf(name)) == Some(name)
    ensures TextOf(name) != SEPARATOR && TextOf(name) != APP_CONTAINER && TextOf(name) != INHERIT_CURSOR
    ensures APP_CONTAINER != SEPARATOR && APP_CONTAINER != INHERIT_CURSOR && SEPARATOR != INHERIT_CURSOR
  {
  }

  /** What one setting adds; None when it is repeated or its value is empty. */
  function With(o: Options, setting: Setting): Option<Options> {
    match setting
    case Enable =>
      if o.appContainer.enabled then None else Some(o.(appContainer := o.appContainer.(enabled := true)))
    case Named(name, value) =>
      if value == [] then None
      else
        match name
        case Capability =>
          Some(o.(appContainer := o.appContainer.(capabilities := o.appContainer.capabilities + [value])))
        case PipeIn => if o.pipeIn == [] then Some(o.(pipeIn := value)) else None
        case PipeOut => if o.pipeOut == [] then Some(o.(pipeOut := value)) else None
        case PipeResize => if o.pipeResize == [] then Some(o.(pipeResize := value)) else None
  }

  /** The setting at word i, given the options so far. */
  function SettingAt(words: seq<Wide>, i: nat, o: Options): (r: Option<Setting>)
    requires i < |words|
    ensures r.Some? ==> i + |WordsOf(r.value)| <= |words|
  {
    if words[i] == APP_CONTAINER && !o.appContainer.enabled then Some(Enable)
    else if i + 1 < |words| && NameOf(words[i]).Some? then Some(Named(NameOf(words[i]).value, words[i + 1]))
    else None
  }

  function WordsOf(setting: Setting): seq<Wide> {
    match setting
    case Enable => [APP_CONTAINER]
    case Named(name, value) => [TextOf(name), value]
  }

  /** The options up to the separator, and where it stands or the words end. */
  function OptionsFrom(words: seq<Wide>, i: nat, o: Options): (r: Option<(Options, nat)>)
    requires i <= |words|
    ensures r.Some? ==> i <= r.value.1 <= |words|
    ensures r.Some? && r.value.1 < |words| ==> words[r.value.1] == SEPARATOR
    decreases |words| - i
  {
    if i == |words| || words[i] == SEPARATOR then Some((o, i))
    else
      var setting := SettingAt(words, i, o);
      if setting.None? || With(o, setting.value).None? then None
      else OptionsFrom(words, i + |WordsOf(setting.value)|, With(o, setting.value).value)
  }

  /** What one value adds by the text of its name, as the parser's branches decide it. */
  function Assigned(o: Options, name: Wide, value: Wide): Option<Options> {
    if name == CAPABILITY then
      Some(o.(appContainer := o.appContainer.(capabilities := o.appContainer.capabilities + [value])))
    else if name == PIPE_IN && o.pipeIn == [] then Some(o.(pipeIn := value))
    else if name == PIPE_OUT && o.pipeOut == [] then Some(o.(pipeOut := value))
    else if name == PIPE_RESIZE && o.pipeResize == [] then Some(o.(pipeResize := value))
    else None
  }

  lemma OptionsStep(words: seq<Wide>, i: nat, o: Options)
    requires i < |words| && words[i] != SEPARATOR
    ensures OptionsFrom(words, i, o) ==
            if words[i] == APP_CONTAINER && !o.appContainer.enabled then
              OptionsFrom(words, i + 1, o.(appContainer := o.appContainer.(enabled := true)))
            else if i + 1 == |words| || words[i + 1] == [] || Assigned(o, words[i], words[i + 1]).None? then None
            else OptionsFrom(words, i + 2, Assigned(o, words[i], words[i + 1]).value)
  {
    if i + 1 < |words| && words[i + 1] != [] {
      AssignedIsWith(o, words[i], words[i + 1]);
    }
  }

  lemma AssignedIsWith(o: Options, name: Wide, value: Wide)
    requires value != []
    ensures Assigned(o, name, value) ==
            if NameOf(name).None? then None else With(o, Named(NameOf(name).value, value))
  {
  }

  function Parsed(words: seq<Wide>): Option<Invocation> {
    if |words| < 4 || words[1] != HOST then None
    else if words[2] == INHERIT_CURSOR then Target(words, OptionsFrom(words, 3, Cursor(true)))
    else Target(words, OptionsFrom(words, 2, Cursor(false)))
  }

  function Cursor(inheritCursor: bool): Options {
    NO_OPTIONS.(inheritCursor := inheritCursor)
  }

  /** The executable and its arguments after the separator. */
  function Target(words: seq<Wide>, r: Option<(Options, nat)>): Option<Invocation> {
    if r.None? || |words| <= r.value.1 + 1 || words[r.value.1] != SEPARATOR || !Complete(r.value.0) then None
    else Some(Invocation(r.value.0, words[r.value.1 + 1], words[r.value.1 + 2..]))
  }

  /** The parser's loop. */
  method ReadOptions(words: seq<Wide>, start: nat, initial: Options) returns (ok: bool, o: Options, separatorIndex: nat)
    requires start <= |words|
    ensures ok ==> OptionsFrom(words, start, initial) == Some((o, separatorIndex))
    ensures !ok ==> OptionsFrom(words, start, initial).None?
  {
    ok, o, separatorIndex := false, initial, start;
    while separatorIndex < |words| && words[separatorIndex] != SEPARATOR
      invariant separatorIndex <= |words|
      invariant OptionsFrom(words, separatorIndex, o) == OptionsFrom(words, start, initial)
    {
      OptionsStep(words, separatorIndex, o);
      var name := words[separatorIndex];
      separatorIndex := separatorIndex + 1;
      if name == APP_CONTAINER && !o.appContainer.enabled {
        o := o.(appContainer := o.appContainer.(enabled := true));
        continue;
      }
      if separatorIndex >= |words| {
        return;
      }
      var value := words[separatorIndex];
      separatorIndex := separatorIndex + 1;
      if value == [] {
        return;
      }
      if name == CAPABILITY {
        o := o.(appContainer := o.appContainer.(capabilities := o.appContainer.capabilities + [value]));
      } else if name == PIPE_IN && o.pipeIn == [] {
        o := o.(pipeIn := value);
      } else if name == PIPE_OUT && o.pipeOut == [] {
        o := o.(pipeOut := value);
      } else if name == PIPE_RESIZE && o.pipeResize == [] {
        o := o.(pipeResize := value);
      } else {
        return;
      }
    }
    ok := true;
  }

  method ParsePseudoConsoleHostInvocation(words: seq<Wide>) returns (ok: bool, invocation: Invocation)
    ensures (if ok then Some(invocation) else None) == Parsed(words)
  {
    ok, invocation := false, Invocation(NO_OPTIONS, [], []);
    if |words| < 4 || words[1] != HOST {
      return;
    }
    var separatorIndex := 2;
    var o := NO_OPTIONS.(inheritCursor := words[separatorIndex] == INHERIT_CURSOR);
    if o.inheritCursor {
      separatorIndex := separatorIndex + 1;
    }
    ok, o, separatorIndex := ReadOptions(words, separatorIndex, o);
    if !ok {
      return;
    }
    if |words| <= separatorIndex + 1 || words[separatorIndex] != SEPARATOR {
      return false, invocation;
    }
    var processArguments := [];
    for index := separatorIndex + 2 to |words|
      invariant processArguments == words[separatorIndex + 2..index]
    {
      processArguments := processArguments + [words[index]];
    }
    assert words[separatorIndex + 2..|words|] == words[separatorIndex + 2..];
    ok := Complete(o);
    invocation := Invocation(o, words[separatorIndex + 1], processArguments);
  }

  // ---- the accepted language ----

  function Words(settings: seq<Setting>): seq<Wide> {
    if settings == [] then [] else WordsOf(settings[0]) + Words(settings[1..])
  }

  /** The values given under a name, in order. */
  function Values(settings: seq<Setting>, name: Name): seq<Wide> {
    if settings == [] then []
    else Given(settings[0], name) + Values(settings[1..], name)
  }

  function Given(setting: Setting, name: Name): seq<Wide> {
    if setting.Named? && setting.name == name then [setting.value] else []
  }

  function Enables(settings: seq<Setting>): nat {
    if settings == [] then 0 else (if settings[0].Enable? then 1 else 0) + Enables(settings[1..])
  }

  function Single(value: Wide): seq<Wide> {
    if value == [] then [] else [value]
  }

  /** The values the options hold under a name. */
  function Slot(o: Options, name: Name): seq<Wide> {
    match name
    case Capability => o.appContainer.capabilities
    case PipeIn => Single(o.pipeIn)
    case PipeOut => Single(o.pipeOut)
    case PipeResize => Single(o.pipeResize)
  }

  predicate NoEmptyValue(settings: seq<Setting>) {
    forall i :: 0 <= i < |settings| && settings[i].Named? ==> settings[i].value != []
  }

  function SwitchCount(enabled: bool): nat {
    if enabled then 1 else 0
  }

  /** The settings say exactly what the options hold: each pipe and the switch at most once, the
      capabilities in their order. */
  ghost predicate Says(settings: seq<Setting>, o: Options) {
    && NoEmptyValue(settings)
    && Enables(settings) == SwitchCount(o.appContainer.enabled)
    && forall name :: Values(settings, name) == Slot(o, name)
  }

  /** The words of an invocation whose options are given by `settings`. */
  function Written(program: Wide, settings: seq<Setting>, v: Invocation): seq<Wide> {
    Head(program, v.options.inheritCursor) + (Words(settings) + Tail(v))
  }

  function Head(program: Wide, inheritCursor: bool): seq<Wide> {
    if inheritCursor then [program, HOST, INHERIT_CURSOR] else [program, HOST]
  }

  function Tail(v: Invocation): seq<Wide> {
    [SEPARATOR, v.executable] + v.processArguments
  }

  /** The settings added one by one. */
  function Collect(settings: seq<Setting>, o: Options): Option<Options>
    decreases |settings|
  {
    if settings == [] then Some(o)
    else if With(o, settings[0]).None? then None
    else Collect(settings[1..], With(o, settings[0]).value)
  }

  /** The settings are what stands between word i and word j. */
  ghost predicate Spells(words: seq<Wide>, i: nat, j: nat, settings: seq<Setting>) {
    i <= |words| && j <= |words| && words[i..] == Words(settings) + words[j..]
  }

  lemma SpellsMore(words: seq<Wide>, i: nat, j: nat, setting: Setting, settings: seq<Setting>)
    requires i + |WordsOf(setting)| <= |words| && words[i..i + |WordsOf(setting)|] == WordsOf(setting)
    requires Spells(words, i + |WordsOf(setting)|, j, settings)
    ensures Spells(words, i, j, [setting] + settings)
  {
    assert ([setting] + settings)[1..] == settings;
    assert words[i..] == words[i..i + |WordsOf(setting)|] + words[i + |WordsOf(setting)|..];
  }

  lemma SpellsLess(words: seq<Wide>, i: nat, j: nat, settings: seq<Setting>)
    requires Spells(words, i, j, settings) && settings != []
    ensures var n := i + |WordsOf(settings[0])|;
            n <= |words| && words[i..n] == WordsOf(settings[0]) && Spells(words, n, j, settings[1..])
  {
    var first, rest := WordsOf(settings[0]), Words(settings[1..]) + words[j..];
    assert words[i..] == first + rest;
    Slices(words, i, first, rest);
  }

  lemma Slices(words: seq<Wide>, i: nat, first: seq<Wide>, rest: seq<Wide>)
    requires i <= |words| && words[i..] == first + rest
    ensures i + |first| <= |words| && words[i..i + |first|] == first && words[i + |first|..] == rest
  {
    assert |words[i..]| == |words| - i;
    assert forall k :: 0 <= k < |first| ==> words[i + k] == words[i..][k] == first[k];
    assert forall k :: 0 <= k < |rest| ==> words[i + |first| + k] == words[i..][|first| + k] == rest[k];
  }

  lemma SettingIsThere(words: seq<Wide>, i: nat, o: Options)
    requires i < |words| && SettingAt(words, i, o).Some?
    ensures var setting := SettingAt(words, i, o).value;
            words[i..i + |WordsOf(setting)|] == WordsOf(setting)
  {
  }

  lemma SettingIsRead(words: seq<Wide>, i: nat, o: Options, setting: Setting)
    requires i + |WordsOf(setting)| <= |words| && words[i..i + |WordsOf(setting)|] == WordsOf(setting)
    requires With(o, setting).Some?
    ensures SettingAt(words, i, o) == Some(setting) && words[i] != SEPARATOR
  {
    var there := words[i..i + |WordsOf(setting)|];
    assert words[i] == there[0];
    match setting
    case Enable =>
      NameOfText(Capability);
    case Named(name, value) =>
      assert words[i + 1] == there[1];
      NameOfText(name);
  }

  lemma CollectMore(setting: Setting, settings: seq<Setting>, o: Options)
    requires With(o, setting).Some?
    ensures Collect([setting] + settings, o) == Collect(settings, With(o, setting).value)
  {
    assert ([setting] + settings)[1..] == settings;
  }

  lemma {:induction false} WordsOfOptions(words: seq<Wide>, i: nat, o: Options) returns (settings: seq<Setting>)
    requires i <= |words| && OptionsFrom(words, i, o).Some?
    ensures Spells(words, i, OptionsFrom(words, i, o).value.1, settings)
    ensures Collect(settings, o) == Some(OptionsFrom(words, i, o).value.0)
    decreases |words| - i
  {
    if i == |words| || words[i] == SEPARATOR {
      settings := [];
      assert Words(settings) + words[i..] == words[i..];
    } else {
      var setting := SettingAt(words, i, o).value;
      var n, more := i + |WordsOf(setting)|, With(o, setting).value;
      assert OptionsFrom(words, i, o) == OptionsFrom(words, n, more);
      var j := OptionsFrom(words, n, more).value.1;
      var next := WordsOfOptions(words, n, more);
      SettingIsThere(words, i, o);
      SpellsMore(words, i, j, setting, next);
      CollectMore(setting, next, o);
      settings := [setting] + next;
    }
  }

  /** The first of the settings is what the parser reads next. */
  lemma FirstSetting(words: seq<Wide>, i: nat, j: nat, settings: seq<Setting>, o: Options)
    returns (n: nat, more: Options)
    requires settings != [] && Spells(words, i, j, settings) && Collect(settings, o).Some?
    ensures n <= |words| && Spells(words, n, j, settings[1..])
    ensures OptionsFrom(words, i, o) == OptionsFrom(words, n, more)
    ensures Collect(settings[1..], more) == Collect(settings, o)
  {
    CollectRest(settings, o);
    n, more := i + |WordsOf(settings[0])|, With(o, settings[0]).value;
    FirstIsThere(words, i, j, settings, o);
    SettingIsTaken(words, i, o, settings[0]);
  }

  lemma FirstIsThere(words: seq<Wide>, i: nat, j: nat, settings: seq<Setting>, o: Options)
    requires settings != [] && Spells(words, i, j, settings) && With(o, settings[0]).Some?
    ensures var n := i + |WordsOf(settings[0])|;
            && i < n <= |words| && Spells(words, n, j, settings[1..])
            && SettingAt(words, i, o) == Some(settings[0]) && words[i] != SEPARATOR
  {
    SpellsLess(words, i, j, settings);
    SettingIsRead(words, i, o, settings[0]);
  }

  lemma {:induction false} OptionsOfWords(words: seq<Wide>, i: nat, j: nat, settings: seq<Setting>, o: Options)
    requires Spells(words, i, j, settings) && (j < |words| ==> words[j] == SEPARATOR)
    requires Collect(settings, o).Some?
    ensures OptionsFrom(words, i, o) == Some((Collect(settings, o).value, j))
    decreases |settings|
  {
    if settings == [] {
      SpellsNothing(words, i, j);
    } else {
      var n, more := FirstSetting(words, i, j, settings, o);
      OptionsOfWords(words, n, j, settings[1..], more);
    }
  }

  lemma SettingIsTaken(words: seq<Wide>, i: nat, o: Options, setting: Setting)
    requires i + |WordsOf(setting)| <= |words| && i < |words| && words[i] != SEPARATOR
    requires SettingAt(words, i, o) == Some(setting) && With(o, setting).Some?
    ensures OptionsFrom(words, i, o) == OptionsFrom(words, i + |WordsOf(setting)|, With(o, setting).value)
  {
  }

  lemma CollectRest(settings: seq<Setting>, o: Options)
    requires settings != [] && Collect(settings, o).Some?
    ensures With(o, settings[0]).Some? && Collect(settings[1..], With(o, settings[0]).value) == Collect(settings, o)
  {
  }

  lemma SpellsNothing(words: seq<Wide>, i: nat, j: nat)
    requires Spells(words, i, j, [])
    ensures i == j
  {
    assert |words[i..]| == |words[j..]|;
  }

  // ---- adding one by one, and all at once ----

  /** What the settings add to `o` makes `all`. */
  ghost predicate Adds(settings: seq<Setting>, o: Options, all: Options) {
    && NoEmptyValue(settings)
    && all.inheritCursor == o.inheritCursor
    && SwitchCount(o.appContainer.enabled) + Enables(settings) == SwitchCount(all.appContainer.enabled)
    && forall name :: Slot(o, name) + Values(settings, name) == Slot(all, name)
  }

  lemma Append(all: seq<Wide>, value: Wide, more: seq<Wide>)
    ensures (all + [value]) + more == all + ([value] + more)
    ensures [] + more == more && all + [] == all
  {
  }

  lemma AddsNothing(o: Options, all: Options)
    ensures Adds([], o, all) <==> o == all
  {
    forall name
      ensures Slot(o, name) + Values([], name) == Slot(o, name)
    {
    }
    if Adds([], o, all) {
      assert Slot(o, Capability) == Slot(all, Capability);
      SameSlot(o, all, PipeIn);
      SameSlot(o, all, PipeOut);
      SameSlot(o, all, PipeResize);
    }
  }

  lemma SameSlot(o: Options, all: Options, name: Name)
    requires Slot(o, name) + Values([], name) == Slot(all, name)
    ensures Slot(o, name) == Slot(all, name) && |Slot(o, name)| == |Slot(all, name)|
    ensures |Slot(o, name)| == 1 ==> Slot(o, name)[0] == Slot(all, name)[0]
  {
  }

  lemma NoEmptyValueFirst(settings: seq<Setting>)
    requires settings != []
    ensures NoEmptyValue(settings) <==>
            NoEmptyValue(settings[1..]) && (settings[0].Named? ==> settings[0].value != [])
  {
    var next := settings[1..];
    assert forall i :: 0 <= i < |next| ==> settings[i + 1] == next[i];
    assert NoEmptyValue(settings) ==> forall i :: 0 <= i < |next| && next[i].Named? ==> settings[i + 1].value != [];
  }

  lemma WithSlots(o: Options, setting: Setting, name: Name)
    requires With(o, setting).Some?
    ensures Slot(With(o, setting).value, name) == Slot(o, name) + Given(setting, name)
  {
    assert Slot(o, name) + [] == Slot(o, name);
    assert setting.Named? ==> [] + [setting.value] == [setting.value];
  }

  lemma SlotStep(settings: seq<Setting>, o: Options, name: Name)
    requires settings != [] && With(o, settings[0]).Some?
    ensures Slot(o, name) + Values(settings, name) ==
            Slot(With(o, settings[0]).value, name) + Values(settings[1..], name)
  {
    WithSlots(o, settings[0], name);
    Regrouped(Slot(o, name), Given(settings[0], name), Values(settings[1..], name));
  }

  lemma Regrouped(a: seq<Wide>, b: seq<Wide>, c: seq<Wide>)
    ensures a + (b + c) == (a + b) + c
  {
  }

  lemma NoRoom(settings: seq<Setting>, o: Options, all: Options)
    requires settings != [] && With(o, settings[0]).None?
    ensures !Adds(settings, o, all)
  {
    NoEmptyValueFirst(settings);
    if settings[0].Named? && settings[0].value != [] {
      var name := settings[0].name;
      assert |Slot(o, name) + Values(settings, name)| >= 2;
      assert |Slot(all, name)| <= 1;
    }
  }

  lemma AddsFirst(settings: seq<Setting>, o: Options, all: Options)
    requires settings != [] && With(o, settings[0]).Some?
    ensures Adds(settings, o, all) <==> Adds(settings[1..], With(o, settings[0]).value, all)
  {
    NoEmptyValueFirst(settings);
    var next := With(o, settings[0]).value;
    forall name
      ensures Slot(o, name) + Values(settings, name) == Slot(next, name) + Values(settings[1..], name)
    {
      SlotStep(settings, o, name);
    }
  }

  lemma {:induction false} CollectAdds(settings: seq<Setting>, o: Options, all: Options)
    ensures Collect(settings, o) == Some(all) <==> Adds(settings, o, all)
    decreases |settings|
  {
    if settings == [] {
      AddsNothing(o, all);
    } else if With(o, settings[0]).None? {
      NoRoom(settings, o, all);
    } else {
      AddsFirst(settings, o, all);
      CollectAdds(settings[1..], With(o, settings[0]).value, all);
    }
  }

  lemma CollectIsSays(settings: seq<Setting>, o: Options)
    ensures Collect(settings, Cursor(o.inheritCursor)) == Some(o) <==> Says(settings, o)
  {
    CollectAdds(settings, Cursor(o.inheritCursor), o);
    forall name
      ensures Slot(Cursor(o.inheritCursor), name) + Values(settings, name) == Values(settings, name)
    {
    }
  }

  // ---- what the parser accepts ----

  lemma Parts(head: seq<Wide>, spelled: seq<Wide>, tail: seq<Wide>)
    ensures var words := head + (spelled + tail);
            && head <= words
            && words[|head|..] == spelled + tail
            && words[|head| + |spelled|..] == tail
            && forall k :: 0 <= k < |tail| ==> words[|head| + |spelled| + k] == tail[k]
  {
  }

  lemma NotInherit(words: seq<Wide>, j: nat, settings: seq<Setting>)
    requires j < |words| && words[j] == SEPARATOR && Spells(words, 2, j, settings)
    ensures words[2] != INHERIT_CURSOR
  {
    NameOfText(Capability);
    assert words[2] == words[2..][0];
    if settings == [] {
      assert words[2..] == words[j..];
      assert words[j] == words[j..][0];
    } else {
      SpellsLess(words, 2, j, settings);
      assert words[2] == words[2..2 + |WordsOf(settings[0])|][0];
      if settings[0].Named? {
        NameOfText(settings[0].name);
      }
    }
  }

  /** A parse, taken apart: the options end at word j, where the target begins. */
  ghost predicate Framed(words: seq<Wide>, inherit: bool, j: nat, v: Invocation) {
    && |words| >= 4 && words[1] == HOST && inherit == (words[2] == INHERIT_CURSOR)
    && OptionsFrom(words, if inherit then 3 else 2, Cursor(inherit)) == Some((v.options, j))
    && j + 1 < |words| && words[j..] == Tail(v) && Complete(v.options)
  }

  lemma FramedParsed(words: seq<Wide>, inherit: bool, j: nat, v: Invocation)
    requires Framed(words, inherit, j, v)
    ensures Parsed(words) == Some(v)
  {
    assert words[j] == Tail(v)[0] && words[j + 1] == Tail(v)[1];
    assert words[j + 2..] == words[j..][2..] == Tail(v)[2..] == v.processArguments;
  }

  lemma ParsedFramed(words: seq<Wide>, v: Invocation) returns (inherit: bool, j: nat)
    requires Parsed(words) == Some(v)
    ensures Framed(words, inherit, j, v)
  {
    inherit := words[2] == INHERIT_CURSOR;
    j := OptionsFrom(words, if inherit then 3 else 2, Cursor(inherit)).value.1;
    assert words[j..] == [words[j], words[j + 1]] + words[j + 2..];
  }

  lemma OptionsSaid(words: seq<Wide>, i: nat, j: nat, settings: seq<Setting>, o: Options)
    requires Says(settings, o) && Spells(words, i, j, settings) && j < |words| && words[j] == SEPARATOR
    ensures OptionsFrom(words, i, Cursor(o.inheritCursor)) == Some((o, j))
  {
    CollectIsSays(settings, o);
    OptionsOfWords(words, i, j, settings, Cursor(o.inheritCursor));
  }

  lemma SaidOptions(words: seq<Wide>, i: nat, j: nat, inherit: bool, o: Options) returns (settings: seq<Setting>)
    requires i <= |words| && OptionsFrom(words, i, Cursor(inherit)) == Some((o, j))
    ensures Says(settings, o) && Spells(words, i, j, settings) && o.inheritCursor == inherit
  {
    settings := WordsOfOptions(words, i, Cursor(inherit));
    CollectAdds(settings, Cursor(inherit), o);
    CollectIsSays(settings, o);
  }

  lemma WrittenParsed(program: Wide, settings: seq<Setting>, v: Invocation)
    requires Complete(v.options) && Says(settings, v.options)
    ensures Parsed(Written(program, settings, v)) == Some(v)
  {
    var head := Head(program, v.options.inheritCursor);
    Parts(head, Words(settings), Tail(v));
    SpelledParsed(Written(program, settings, v), program, |head| + |Words(settings)|, settings, v);
  }

  lemma SpelledParsed(words: seq<Wide>, program: Wide, j: nat, settings: seq<Setting>, v: Invocation)
    requires Complete(v.options) && Says(settings, v.options)
    requires Head(program, v.options.inheritCursor) <= words && j <= |words| && words[j..] == Tail(v)
    requires Spells(words, |Head(program, v.options.inheritCursor)|, j, settings)
    ensures Parsed(words) == Some(v)
  {
    var inherit := v.options.inheritCursor;
    assert words[j] == Tail(v)[0];
    OptionsSaid(words, |Head(program, inherit)|, j, settings, v.options);
    HeadWords(words, program, inherit, j, settings);
    FramedParsed(words, inherit, j, v);
  }

  lemma HeadWords(words: seq<Wide>, program: Wide, inherit: bool, j: nat, settings: seq<Setting>)
    requires |words| >= 4 && Head(program, inherit) <= words
    requires j < |words| && words[j] == SEPARATOR && Spells(words, |Head(program, inherit)|, j, settings)
    ensures words[1] == HOST && (words[2] == INHERIT_CURSOR) == inherit
  {
    assert words[1] == Head(program, inherit)[1];
    if inherit {
      assert words[2] == Head(program, inherit)[2];
    } else {
      NotInherit(words, j, settings);
    }
  }

  lemma ParsedWritten(words: seq<Wide>, v: Invocation) returns (settings: seq<Setting>)
    requires Parsed(words) == Some(v)
    ensures Complete(v.options) && Says(settings, v.options) && words == Written(words[0], settings, v)
  {
    var inherit, j := ParsedFramed(words, v);
    settings := FramedWritten(words, inherit, j, v);
  }

  lemma FramedWritten(words: seq<Wide>, inherit: bool, j: nat, v: Invocation) returns (settings: seq<Setting>)
    requires Framed(words, inherit, j, v)
    ensures Says(settings, v.options) && words == Written(words[0], settings, v)
  {
    var head := Head(words[0], inherit);
    settings := SaidOptions(words, |head|, j, inherit, v.options);
    Rejoined(words, head, Words(settings), Tail(v));
  }

  lemma Rejoined(words: seq<Wide>, head: seq<Wide>, spelled: seq<Wide>, tail: seq<Wide>)
    requires |head| <= |words| && words[|head|..] == spelled + tail
    requires forall k :: 0 <= k < |head| ==> words[k] == head[k]
    ensures words == head + (spelled + tail)
  {
    assert words == words[..|head|] + words[|head|..];
    assert words[..|head|] == head;
  }

  /** The accepted language, exactly: the words parse to an invocation if and only if its options are
      complete and the words are the host switch, the cursor switch when wanted, the options in some
      order, the separator, the executable and its arguments. In particular an option's value, the
      executable and the arguments may themselves look like options or like the separator. */
  lemma ParsedIff(words: seq<Wide>, v: Invocation)
    ensures Parsed(words) == Some(v) <==>
            |words| > 0 && Complete(v.options) &&
            exists settings :: Says(settings, v.options) && words == Written(words[0], settings, v)
  {
    if Parsed(words) == Some(v) {
      var settings := ParsedWritten(words, v);
    } else if |words| > 0 && Complete(v.options) {
      forall settings | Says(settings, v.options)
        ensures words != Written(words[0], settings, v)
      {
        WrittenParsed(words[0], settings, v);
      }
    }
  }
}
