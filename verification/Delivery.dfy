/** The broker's conhost arguments, and their delivery to the target end to end
    (`BrokerApplication::Launch`, src/conhost/PseudoConsoleHost.cpp). */
module Delivery {
  import opened Text
  import opened Wrappers
  import opened CommandLine
  import opened Invocation

  /** A console launch as conhost sees it: its options, and the target's executable followed by its arguments. */
  datatype HostRequest = HostRequest(options: Options, arguments: seq<Wide>)

  function CapabilitySettings(capabilities: seq<Wide>): seq<Setting> {
    if capabilities == [] then [] else [Named(Capability, capabilities[0])] + CapabilitySettings(capabilities[1..])
  }

  function PipeSettings(o: Options): seq<Setting> {
    [Named(PipeIn, o.pipeIn), Named(PipeOut, o.pipeOut), Named(PipeResize, o.pipeResize)]
  }

  function ContainerSettings(o: Options): seq<Setting> {
    if o.appContainer.enabled then [Enable] + CapabilitySettings(o.appContainer.capabilities) else []
  }

  function HostSettings(o: Options): seq<Setting> {
    ContainerSettings(o) + PipeSettings(o)
  }

  /** The arguments of conhost, without its own name. */
  function HostWords(r: HostRequest): seq<Wide> {
    [HOST] + (if r.options.inheritCursor then [INHERIT_CURSOR] else []) +
    (Words(HostSettings(r.options)) + ([SEPARATOR] + r.arguments))
  }

  function PipeWords(o: Options): seq<Wide> {
    [PIPE_IN, o.pipeIn, PIPE_OUT, o.pipeOut, PIPE_RESIZE, o.pipeResize]
  }

  lemma {:induction false} WordsJoin(a: seq<Setting>, b: seq<Setting>)
    ensures Words(a + b) == Words(a) + Words(b)
  {
    if a == [] {
      assert a + b == b;
    } else {
      assert (a + b)[1..] == a[1..] + b;
      WordsJoin(a[1..], b);
    }
  }

  method HostArguments(r: HostRequest) returns (conhostArguments: seq<Wide>)
    ensures conhostArguments == HostWords(r)
  {
    var o := r.options;
    conhostArguments := [HOST];
    if o.inheritCursor {
      conhostArguments := conhostArguments + [INHERIT_CURSOR];
    }
    ghost var start := conhostArguments;
    if o.appContainer.enabled {
      conhostArguments := conhostArguments + [APP_CONTAINER];
      ghost var written := [Enable];
      for i := 0 to |o.appContainer.capabilities|
        invariant conhostArguments == start + Words(written)
        invariant written == [Enable] + CapabilitySettings(o.appContainer.capabilities[..i])
      {
        ghost var setting := Named(Capability, o.appContainer.capabilities[i]);
        CapabilitiesExtended(o.appContainer.capabilities, i);
        WordsJoin(written, [setting]);
        conhostArguments := conhostArguments + [CAPABILITY, o.appContainer.capabilities[i]];
        written := written + [setting];
      }
      assert o.appContainer.capabilities[..|o.appContainer.capabilities|] == o.appContainer.capabilities;
    }
    assert conhostArguments == start + Words(ContainerSettings(o));
    conhostArguments := conhostArguments +
      [PIPE_IN, o.pipeIn, PIPE_OUT, o.pipeOut, PIPE_RESIZE, o.pipeResize, SEPARATOR];
    conhostArguments := conhostArguments + r.arguments;
    HostSettingsWords(o);
    assert PipeWords(o) + [SEPARATOR] == [PIPE_IN, o.pipeIn, PIPE_OUT, o.pipeOut, PIPE_RESIZE, o.pipeResize, SEPARATOR];
    Assembled(start, Words(ContainerSettings(o)), PipeWords(o), r.arguments);
  }

  lemma Assembled(start: seq<Wide>, container: seq<Wide>, pipes: seq<Wide>, arguments: seq<Wide>)
    ensures start + container + (pipes + [SEPARATOR]) + arguments ==
            start + ((container + pipes) + ([SEPARATOR] + arguments))
  {
  }

  lemma {:induction false} CapabilitiesExtended(capabilities: seq<Wide>, i: nat)
    requires i < |capabilities|
    ensures CapabilitySettings(capabilities[..i + 1]) ==
            CapabilitySettings(capabilities[..i]) + [Named(Capability, capabilities[i])]
  {
    if i > 0 {
      CapabilitiesExtended(capabilities[1..], i - 1);
      assert capabilities[1..][..i] == capabilities[..i + 1][1..];
      assert capabilities[1..][..i - 1] == capabilities[..i][1..];
    }
  }

  lemma HostSettingsWords(o: Options)
    ensures Words(HostSettings(o)) == Words(ContainerSettings(o)) + PipeWords(o)
  {
    var (first, second, third) := (Named(PipeIn, o.pipeIn), Named(PipeOut, o.pipeOut), Named(PipeResize, o.pipeResize));
    WordsJoin(ContainerSettings(o), PipeSettings(o));
    WordsJoin([first], [second, third]);
    WordsJoin([second], [third]);
    assert PipeSettings(o) == [first] + [second, third] && [second, third] == [second] + [third];
  }

  // ---- conhost reads back what the broker wrote ----

  function WithCapabilities(o: Options, more: seq<Wide>): Options {
    o.(appContainer := o.appContainer.(capabilities := o.appContainer.capabilities + more))
  }

  lemma {:induction false} CollectJoin(a: seq<Setting>, b: seq<Setting>, o: Options)
    requires Collect(a, o).Some?
    ensures Collect(a + b, o) == Collect(b, Collect(a, o).value)
    decreases |a|
  {
    if a == [] {
      assert a + b == b;
    } else {
      assert (a + b)[1..] == a[1..] + b;
      CollectJoin(a[1..], b, With(o, a[0]).value);
    }
  }

  lemma {:induction false} CollectCapabilities(capabilities: seq<Wide>, o: Options)
    requires forall i :: 0 <= i < |capabilities| ==> capabilities[i] != []
    ensures Collect(CapabilitySettings(capabilities), o) == Some(WithCapabilities(o, capabilities))
    decreases |capabilities|
  {
    if capabilities == [] {
      Append(o.appContainer.capabilities, [], []);
    } else {
      CollectCapabilities(capabilities[1..], WithCapabilities(o, [capabilities[0]]));
      assert capabilities == [capabilities[0]] + capabilities[1..];
      Append(o.appContainer.capabilities, capabilities[0], capabilities[1..]);
    }
  }

  lemma CollectPipes(o: Options, all: Options)
    requires o == all.(pipeIn := [], pipeOut := [], pipeResize := [])
    requires all.pipeIn != [] && all.pipeOut != [] && all.pipeResize != []
    ensures Collect(PipeSettings(all), o) == Some(all)
  {
    var s := PipeSettings(all);
    assert s[1..] == [s[1], s[2]] && s[1..][1..] == [s[2]] && s[1..][1..][1..] == [];
    var first := With(o, s[0]).value;
    var second := With(first, s[1]).value;
    assert Collect(s[1..][1..], second) == Some(all);
    assert Collect(s[1..], first) == Some(all);
  }

  lemma HostSettingsSay(o: Options)
    requires Complete(o)
    ensures Says(HostSettings(o), o)
  {
    var none := Cursor(o.inheritCursor);
    var noPipes := o.(pipeIn := [], pipeOut := [], pipeResize := []);
    assert Collect(ContainerSettings(o), none) == Some(noPipes) by {
      if o.appContainer.enabled {
        CollectCapabilities(o.appContainer.capabilities, With(none, Enable).value);
        Append([], [], o.appContainer.capabilities);
        assert ContainerSettings(o)[1..] == CapabilitySettings(o.appContainer.capabilities);
      }
    }
    CollectJoin(ContainerSettings(o), PipeSettings(o), none);
    CollectPipes(noPipes, o);
    CollectIsSays(HostSettings(o), o);
  }

  /** Conhost reads back exactly what the broker wrote. */
  lemma HostWordsParsed(conhost: Wide, r: HostRequest)
    requires Complete(r.options) && r.arguments != []
    ensures Parsed([conhost] + HostWords(r)) == Some(Invocation(r.options, r.arguments[0], r.arguments[1..]))
  {
    var v := Invocation(r.options, r.arguments[0], r.arguments[1..]);
    HostSettingsSay(r.options);
    WrittenParsed(conhost, HostSettings(r.options), v);
    WrittenHostWords(conhost, r, Words(HostSettings(r.options)));
  }

  lemma WrittenHostWords(conhost: Wide, r: HostRequest, spelled: seq<Wide>)
    requires r.arguments != []
    ensures [conhost] + ([HOST] + (if r.options.inheritCursor then [INHERIT_CURSOR] else []) +
                         (spelled + ([SEPARATOR] + r.arguments))) ==
            Head(conhost, r.options.inheritCursor) + (spelled + ([SEPARATOR, r.arguments[0]] + r.arguments[1..]))
  {
    assert [SEPARATOR] + r.arguments == [SEPARATOR, r.arguments[0]] + r.arguments[1..];
  }

  // ---- NUL-free words ----

  predicate OptionsNulFree(o: Options) {
    AllNulFree(o.appContainer.capabilities) && NulFree(o.pipeIn) && NulFree(o.pipeOut) && NulFree(o.pipeResize)
  }

  lemma PartsNulFree(a: seq<Wide>, b: seq<Wide>)
    ensures AllNulFree(a + b) <==> AllNulFree(a) && AllNulFree(b)
  {
    assert forall i :: 0 <= i < |a| ==> (a + b)[i] == a[i];
    assert forall i :: 0 <= i < |b| ==> (a + b)[|a| + i] == b[i];
  }

  lemma SwitchesNulFree()
    ensures NulFree(HOST) && NulFree(INHERIT_CURSOR) && NulFree(APP_CONTAINER) && NulFree(SEPARATOR)
    ensures NulFree(CAPABILITY) && NulFree(PIPE_IN) && NulFree(PIPE_OUT) && NulFree(PIPE_RESIZE)
  {
  }

  predicate SettingsNulFree(settings: seq<Setting>) {
    forall i :: 0 <= i < |settings| && settings[i].Named? ==> NulFree(settings[i].value)
  }

  lemma {:induction false} WordsNulFree(settings: seq<Setting>)
    ensures AllNulFree(Words(settings)) <==> SettingsNulFree(settings)
  {
    if settings != [] {
      SwitchesNulFree();
      PartsNulFree(WordsOf(settings[0]), Words(settings[1..]));
      assert settings[0].Named? ==> WordsOf(settings[0])[1] == settings[0].value;
      assert AllNulFree(WordsOf(settings[0])) <==> (settings[0].Named? ==> NulFree(settings[0].value));
      WordsNulFree(settings[1..]);
      assert forall i :: 0 <= i < |settings| - 1 ==> settings[i + 1] == settings[1..][i];
      assert SettingsNulFree(settings) ==> SettingsNulFree(settings[1..]);
    }
  }

  lemma {:induction false} ValuesNulFree(settings: seq<Setting>, name: Name)
    requires SettingsNulFree(settings)
    ensures AllNulFree(Values(settings, name))
  {
    if settings != [] {
      ValuesNulFree(settings[1..], name);
    }
  }

  lemma PipeNulFree(settings: seq<Setting>, name: Name, value: Wide)
    requires Values(settings, name) == Single(value) && SettingsNulFree(settings)
    ensures NulFree(value)
  {
    ValuesNulFree(settings, name);
    if value != [] {
      assert Values(settings, name)[0] == value;
    }
  }

  lemma SaysNulFree(settings: seq<Setting>, o: Options)
    requires Says(settings, o) && SettingsNulFree(settings)
    ensures OptionsNulFree(o)
  {
    ValuesNulFree(settings, Capability);
    PipeNulFree(settings, PipeIn, o.pipeIn);
    PipeNulFree(settings, PipeOut, o.pipeOut);
    PipeNulFree(settings, PipeResize, o.pipeResize);
  }

  lemma {:induction false} CapabilitySettingsNulFree(capabilities: seq<Wide>)
    requires AllNulFree(capabilities)
    ensures SettingsNulFree(CapabilitySettings(capabilities))
  {
    if capabilities != [] {
      CapabilitySettingsNulFree(capabilities[1..]);
    }
  }

  lemma HostWordsNulFree(r: HostRequest)
    requires OptionsNulFree(r.options) && AllNulFree(r.arguments)
    ensures AllNulFree(HostWords(r))
  {
    var switches := [HOST] + (if r.options.inheritCursor then [INHERIT_CURSOR] else []);
    SwitchesNulFree();
    CapabilitySettingsNulFree(r.options.appContainer.capabilities);
    WordsNulFree(HostSettings(r.options));
    PartsNulFree([SEPARATOR], r.arguments);
    PartsNulFree(Words(HostSettings(r.options)), [SEPARATOR] + r.arguments);
    PartsNulFree(switches, Words(HostSettings(r.options)) + ([SEPARATOR] + r.arguments));
  }

  lemma ParsedNulFree(words: seq<Wide>, v: Invocation)
    requires Parsed(words) == Some(v) && AllNulFree(words)
    ensures OptionsNulFree(v.options) && NulFree(v.executable) && AllNulFree(v.processArguments)
  {
    var settings := ParsedWritten(words, v);
    PartsNulFree(Head(words[0], v.options.inheritCursor), Words(settings) + Tail(v));
    PartsNulFree(Words(settings), Tail(v));
    PartsNulFree([SEPARATOR, v.executable], v.processArguments);
    assert [SEPARATOR, v.executable][1] == v.executable;
    WordsNulFree(settings);
    SaysNulFree(settings, v.options);
  }

  // ---- end to end ----

  /** Conhost's options and the arguments its target receives; None when one of the two command
      lines cannot be built or conhost rejects its own. */
  function Delivered(conhost: Wide, r: HostRequest): Option<(Options, seq<Wide>)> {
    var line := CommandLineOf(conhost, HostWords(r));
    if line.None? then None
    else
      var v := Parsed(Split(line.value));
      if v.None? then None
      else
        var target := CommandLineOf(v.value.executable, v.value.processArguments);
        if target.None? then None else Some((v.value.options, Split(target.value)))
  }

  /** What a caller can check before the launch. */
  predicate Deliverable(r: HostRequest) {
    && Complete(r.options) && NulFree(r.options.pipeIn) && NulFree(r.options.pipeOut) && NulFree(r.options.pipeResize)
    && r.arguments != [] && AllNulFree(r.arguments) && QUOTE !in r.arguments[0]
  }

  /** End to end: the target receives exactly the requested executable and arguments, and conhost
      exactly the requested options, if and only if the request is deliverable. */
  lemma DeliveredIff(conhost: Wide, r: HostRequest)
    requires QUOTE !in conhost && NulFree(conhost)
    ensures Delivered(conhost, r) == Some((r.options, r.arguments)) <==> Deliverable(r)
  {
    if Deliverable(r) {
      DeliverableDelivered(conhost, r);
    }
    if Delivered(conhost, r) == Some((r.options, r.arguments)) {
      DeliveredDeliverable(conhost, r);
    }
  }

  lemma DeliverableDelivered(conhost: Wide, r: HostRequest)
    requires QUOTE !in conhost && NulFree(conhost) && Deliverable(r)
    ensures Delivered(conhost, r) == Some((r.options, r.arguments))
  {
    HostWordsNulFree(r);
    SplitInvertsBuild(conhost, HostWords(r));
    HostWordsParsed(conhost, r);
    SplitInvertsBuild(r.arguments[0], r.arguments[1..]);
    assert r.arguments == [r.arguments[0]] + r.arguments[1..];
  }

  lemma DeliveredDeliverable(conhost: Wide, r: HostRequest)
    requires Delivered(conhost, r) == Some((r.options, r.arguments))
    ensures Deliverable(r)
  {
    var words := Split(CommandLineOf(conhost, HostWords(r)).value);
    SplitNulFree(CommandLineOf(conhost, HostWords(r)).value);
    var v := Parsed(words).value;
    ParsedNulFree(words, v);
    SplitInvertsBuild(v.executable, v.processArguments);
    SplitNulFree(CommandLineOf(v.executable, v.processArguments).value);
  }
}
