/** The handshake that decides how long the desktop lease is held: the broker
    (src/broker/InteractiveDesktopLeaseClient.cpp, `LaunchBrokerInteractiveProcess`, `Launch`,
    `ServeControlPipeRequest`, `FinishSession`) and the launcher's coordinator
    (src/launcher/InteractiveDesktopLeaseCoordinator.cpp), over a pipe that may break at any step. */
module LeaseHandshake {
  import opened DesktopAclLease
  import opened ChildProcesses
  import opened Wrappers
  import DesktopLease

  type Object = DesktopLease.Object

  datatype Message = AcquireRequest | AcquireReply(ok: bool) | ReleaseRequest | ReleaseReply

  datatype Phase =
    | Starting
    | Connected        // the lease pipe is open
    | AwaitAcquire     // the acquire request is sent
    | Holding          // the lease is acquired; about to create the child
    | Creating         // the child is created, suspended, and not yet handed over
    | Validating
    | Resuming         // its identity is validated
    | Serving          // it was resumed
    | Trying           // the one attempt to end its tree when the session ends
    | Confirming(release: bool)   // attempts until one succeeds; then the release, or only a reset
    | Releasing        // about to send the release request
    | AwaitRelease     // the release request is sent
    | Finished         // the connection is reset, or the broker died

  /** The broker's end: its phase and the session's child. */
  datatype Broker = Broker(phase: Phase, child: Child)

  datatype Task =
    | Connecting
    | AwaitRequest
    | Applying(next: nat)           // inside `Acquire`: the objects before `next` are done
    | Undoing(next: nat)            // its rollback
    | ReplyAcquire(ok: bool)
    | AwaitReleaseRequest
    | Removing(next: nat)           // inside `Release`
    | ReplyRelease
    | Destructing(next: nat)        // leaving the function: the lease object's destructor
    | Returned
    | Crashed

  /** The coordinator's end: what it does, how often its grant stands on each object, where its lease is
      marked, and whether its latest `Release` has returned an error so far. */
  datatype Coordinator = Coordinator(task: Task, grants: Grants, leased: set<Object>, failed: bool)

  datatype Pipe = Listening | Intact | Broken

  datatype State = State(broker: Broker, coordinator: Coordinator, pipe: Pipe,
                         toCoordinator: seq<Message>, toBroker: seq<Message>)

  // ---- the broker's steps ----

  datatype BrokerStep =
    | Connect | GiveUp | SendAcquire(sent: bool) | ReceiveAcquire | BrokerReadFails
    | CreateChild | CreateFails | KeepChild | AbandonChild(terminated: bool)
    | ValidateChild(ok: bool) | ResumeChild(ok: bool, runs: bool)
    | EndSession                  // the tree was seen gone, or the service stops, or the caller went away
    | Attempt(step: ChildProcesses.Step)   // inside `TerminateAndWaitForExit`
    | Unconfirmed                 // the attempt failed: `FinishSession(false)`, which releases nothing
    | Confirmed                   // an attempt succeeded
    | SendRelease(sent: bool) | ReceiveRelease | BrokerDies

  predicate BrokerMay(s: State, step: BrokerStep) {
    var (phase, child) := (s.broker.phase, s.broker.child);
    match step
    case Connect => phase.Starting? && s.pipe.Listening?
    case GiveUp => phase.Starting?
    case SendAcquire(sent) => phase.Connected? && (sent ==> s.pipe.Intact?)
    case ReceiveAcquire => phase.AwaitAcquire? && s.toBroker != []
    case BrokerReadFails => (phase.AwaitAcquire? || phase.AwaitRelease?) && s.pipe.Broken?
    case CreateChild => phase.Holding? && Enabled(child, Create)
    case CreateFails => phase.Holding? && Enabled(child, Drop)
    case KeepChild => phase.Creating? && Enabled(child, Keep)
    case AbandonChild(terminated) => phase.Creating? && Enabled(child, Abandon(terminated))
    case ValidateChild(_) => phase.Validating?
    case ResumeChild(ok, runs) =>
      phase.Resuming? && (if child.tree.root.Suspended? then Enabled(child, Resume(ok, runs)) else !runs)
    case EndSession => phase.Serving? && Enabled(child, Call)
    case Attempt(wait) => (phase.Trying? || phase.Confirming?) && IsWait(wait) && Enabled(child, wait) &&
                          (wait.Call? ==> phase.Confirming?)
    case Unconfirmed => phase.Trying? && child.wait.Outside? && !Over(child)
    case Confirmed => (phase.Trying? || phase.Confirming?) && Over(child)
    case SendRelease(sent) => phase.Releasing? && (sent ==> s.pipe.Intact?)
    case ReceiveRelease => phase.AwaitRelease? && s.toBroker != []
    case BrokerDies => !phase.Finished?
  }

  function WithPhase(s: State, phase: Phase): State {
    s.(broker := s.broker.(phase := phase))
  }

  function WithChild(s: State, step: ChildProcesses.Step): State
    requires Enabled(s.broker.child, step)
  {
    s.(broker := s.broker.(child := ChildProcesses.Next(s.broker.child, step)))
  }

  /** One end closes its handle. */
  function Closed(s: State): State {
    s.(pipe := Broken)
  }

  /** The broker resets its connection. */
  function ResetConnection(s: State): State {
    Closed(WithPhase(s, Finished))
  }

  function AfterBroker(s: State, step: BrokerStep): State
    requires BrokerMay(s, step)
  {
    match step
    case Connect => WithPhase(s, Connected).(pipe := Intact)
    case GiveUp => WithPhase(s, Finished)
    case SendAcquire(sent) =>
      if sent then WithPhase(s, AwaitAcquire).(toCoordinator := s.toCoordinator + [AcquireRequest])
      else ResetConnection(s)
    case ReceiveAcquire =>
      var t := s.(toBroker := s.toBroker[1..]);
      if s.toBroker[0] == AcquireReply(true) then WithPhase(t, Holding) else ResetConnection(t)
    case BrokerReadFails => ResetConnection(s)
    case CreateChild => WithPhase(WithChild(s, Create), Creating)
    case CreateFails => WithPhase(WithChild(s, Drop), Releasing)
    case KeepChild => WithPhase(WithChild(s, Keep), Validating)
    case AbandonChild(terminated) => WithPhase(WithChild(s, Abandon(terminated)), Releasing)
    case ValidateChild(ok) => WithPhase(s, if ok then Resuming else Confirming(true))
    case ResumeChild(ok, runs) =>
      WithPhase(if s.broker.child.tree.root.Suspended? then WithChild(s, Resume(ok, runs)) else s,
                if ok then Serving else Confirming(false))
    case EndSession => WithPhase(WithChild(s, Call), Trying)
    case Attempt(wait) => WithChild(s, wait)
    case Unconfirmed => WithPhase(s, Confirming(true))
    case Confirmed =>
      if s.broker.phase.Confirming? && !s.broker.phase.release then ResetConnection(s) else WithPhase(s, Releasing)
    case SendRelease(sent) =>
      if sent then WithPhase(s, AwaitRelease).(toCoordinator := s.toCoordinator + [ReleaseRequest])
      else ResetConnection(s)
    case ReceiveRelease => ResetConnection(s.(toBroker := s.toBroker[1..]))
    case BrokerDies => if s.pipe.Intact? then ResetConnection(s) else WithPhase(s, Finished)
  }

  // ---- the coordinator's steps ----

  datatype CoordinatorStep =
    | Cancel | Accept(valid: bool) | ReceiveRequest | CoordinatorReadFails
    | ApplyOne(grants: Grants, leased: set<Object>, ok: bool)
    | RemoveOne(grants: Grants, leased: set<Object>, ok: bool)
    | AllDone
    | SendAcquireReply(sent: bool) | ReceiveReleaseRequest | SendReleaseReply(sent: bool) | CoordinatorCrashes

  /** The order of `Release`. */
  function ReleasedAt(i: nat): Object {
    ObjectAt(if i < 3 then 2 - i else 0)
  }

  /** Inside `Release`, whoever calls it, with this many objects tried. */
  predicate Releases(task: Task) {
    task.Undoing? || task.Removing? || task.Destructing?
  }

  predicate CoordinatorMay(s: State, step: CoordinatorStep) {
    var c := s.coordinator;
    match step
    case Cancel => c.task.Connecting?
    case Accept(_) => c.task.Connecting? && !s.pipe.Listening?
    case ReceiveRequest => c.task.AwaitRequest? && s.toCoordinator != []
    case CoordinatorReadFails => (c.task.AwaitRequest? || c.task.AwaitReleaseRequest?) && s.pipe.Broken?
    case ApplyOne(grants, leased, ok) =>
      && c.task.Applying? && c.task.next < 3 && ObjectAt(c.task.next) in c.grants
      && Applied(c.grants, c.leased, ObjectAt(c.task.next), grants, leased, ok)
    case RemoveOne(grants, leased, ok) =>
      && Releases(c.task) && c.task.next < 3 && ReleasedAt(c.task.next) in c.grants
      && Removed(c.grants, c.leased, ReleasedAt(c.task.next), grants, leased, ok)
    case AllDone => (c.task.Applying? || Releases(c.task)) && c.task.next == 3
    case SendAcquireReply(sent) => c.task.ReplyAcquire? && (sent ==> s.pipe.Intact?)
    case ReceiveReleaseRequest => c.task.AwaitReleaseRequest? && s.toCoordinator != []
    case SendReleaseReply(sent) => c.task.ReplyRelease? && (sent ==> s.pipe.Intact?)
    case CoordinatorCrashes => !c.task.Returned? && !c.task.Crashed?
  }

  function WithTask(s: State, task: Task): State {
    s.(coordinator := s.coordinator.(task := task))
  }

  /** A call of `Release` starts. */
  function StartRelease(s: State, task: Task): State {
    s.(coordinator := s.coordinator.(task := task, failed := false))
  }

  function AfterOne(c: Coordinator, grants: Grants, leased: set<Object>, task: Task): Coordinator {
    Coordinator(task, grants, leased, c.failed)
  }

  function AfterCoordinator(s: State, step: CoordinatorStep): State
    requires CoordinatorMay(s, step)
  {
    var c := s.coordinator;
    match step
    case Cancel => Closed(WithTask(s, Returned))
    case Accept(valid) => if valid then WithTask(s, AwaitRequest) else Closed(WithTask(s, Returned))
    case ReceiveRequest =>
      var t := s.(toCoordinator := s.toCoordinator[1..]);
      if s.toCoordinator[0] == AcquireRequest then WithTask(t, Applying(0)) else StartRelease(t, Destructing(0))
    case CoordinatorReadFails => StartRelease(s, Destructing(0))
    case ApplyOne(grants, leased, ok) =>
      var task := if ok then Applying(c.task.next + 1) else Undoing(0);
      s.(coordinator := AfterOne(c, grants, leased, task).(failed := false))
    case RemoveOne(grants, leased, ok) =>
      s.(coordinator := AfterOne(c, grants, leased, NextRelease(c.task)).(failed := c.failed || !ok))
    case AllDone => AfterAll(s)
    case SendAcquireReply(sent) =>
      var t := if sent then s.(toBroker := s.toBroker + [AcquireReply(c.task.ok)]) else s;
      if sent && c.task.ok then WithTask(t, AwaitReleaseRequest) else StartRelease(t, Destructing(0))
    case ReceiveReleaseRequest =>
      StartRelease(s.(toCoordinator := s.toCoordinator[1..]),
                   if s.toCoordinator[0] == ReleaseRequest then Removing(0) else Destructing(0))
    case SendReleaseReply(sent) =>
      StartRelease(if sent then s.(toBroker := s.toBroker + [ReleaseReply]) else s, Destructing(0))
    case CoordinatorCrashes => Closed(WithTask(s, Crashed))
  }

  function NextRelease(task: Task): Task
    requires Releases(task)
  {
    match task
    case Undoing(next) => Undoing(next + 1)
    case Removing(next) => Removing(next + 1)
    case Destructing(next) => Destructing(next + 1)
  }

  function AfterAll(s: State): State
    requires s.coordinator.task.Applying? || Releases(s.coordinator.task)
  {
    match s.coordinator.task
    case Applying(_) => WithTask(s, ReplyAcquire(true))
    case Undoing(_) => WithTask(s, ReplyAcquire(false))
    case Removing(_) => WithTask(s, ReplyRelease)
    case Destructing(_) => Closed(WithTask(s, Returned))
  }

  // ---- the system ----

  datatype Step = ByBroker(broker: BrokerStep) | ByCoordinator(coordinator: CoordinatorStep)
                | ByKernel(kernel: ChildProcesses.Step) | PipeBreaks

  predicate May(s: State, step: Step) {
    match step
    case ByBroker(b) => BrokerMay(s, b)
    case ByCoordinator(c) => CoordinatorMay(s, c)
    case ByKernel(k) => IsKernel(k) && Enabled(s.broker.child, k)
    case PipeBreaks => s.pipe.Intact?
  }

  function After(s: State, step: Step): State
    requires May(s, step)
  {
    match step
    case ByBroker(b) => AfterBroker(s, b)
    case ByCoordinator(c) => AfterCoordinator(s, c)
    case ByKernel(k) => WithChild(s, k)
    case PipeBreaks => Closed(s)
  }

  const NO_GRANTS: Grants := map o | o in DesktopLease.ALL_OBJECTS :: 0
  const ALL_GRANTS: Grants := map o | o in DesktopLease.ALL_OBJECTS :: 1

  /** The job is there before the lease is asked for; the logon SID is fresh. */
  predicate Initial(s: State) {
    s == State(Broker(Starting, NO_CHILD.(job := true)), Coordinator(Connecting, NO_GRANTS, {}, false), Listening,
               [], [])
  }

  // ---- the invariant ----

  /** The objects tried by a `Release` that has got to `next`. */
  function Tried(next: nat): set<Object> {
    if next == 0 then {} else Tried(next - 1) + {ReleasedAt(next - 1)}
  }

  /** The marks say exactly where the grants stand, and how far `Acquire` and `Release` have got. */
  predicate Settled(c: Coordinator) {
    && c.grants.Keys == DesktopLease.ALL_OBJECTS && c.leased <= DesktopLease.ALL_OBJECTS
    && (forall o :: o in c.grants ==> c.grants[o] == if o in c.leased then 1 else 0)
    && match c.task
       case Connecting => c.leased == {}
       case AwaitRequest => c.leased == {}
       case Applying(next) => next <= 3 && c.leased == Leading(next)
       case Undoing(next) => next <= 3 && (c.failed || c.leased !! Tried(next))
       case ReplyAcquire(ok) => if ok then c.leased == DesktopLease.ALL_OBJECTS else c.failed || c.leased == {}
       case AwaitReleaseRequest => c.leased == DesktopLease.ALL_OBJECTS
       case Removing(next) => next <= 3 && (c.failed || c.leased !! Tried(next))
       case ReplyRelease => c.failed || c.leased == {}
       case Destructing(next) => next <= 3 && (c.failed || c.leased !! Tried(next))
       case Returned => c.failed || c.leased == {}
       case Crashed => true
  }

  predicate LeaseStands(s: State) {
    s.coordinator.task.AwaitReleaseRequest? && s.coordinator.leased == DesktopLease.ALL_OBJECTS
  }

  predicate Quiet(s: State) {
    s.toCoordinator == [] && s.toBroker == []
  }

  /** How far the two ends may be from each other while the pipe is intact. */
  predicate InStep(s: State) {
    var task := s.coordinator.task;
    match s.broker.phase
    case Starting => false
    case Connected => (task.Connecting? || task.AwaitRequest?) && Quiet(s)
    case AwaitAcquire =>
      || ((task.Connecting? || task.AwaitRequest?) && s.toCoordinator == [AcquireRequest] && s.toBroker == [])
      || ((task.Applying? || task.Undoing? || task.ReplyAcquire?) && Quiet(s))
      || (LeaseStands(s) && s.toCoordinator == [] && s.toBroker == [AcquireReply(true)])
      || (task.Destructing? && s.toCoordinator == [] && (s.toBroker == [AcquireReply(false)] || s.toBroker == []))
    case AwaitRelease =>
      || (LeaseStands(s) && s.toCoordinator == [ReleaseRequest])
      || task.Removing? || task.ReplyRelease? || task.Destructing?
    case Finished => false
    case _ => LeaseStands(s) && Quiet(s)
  }

  predicate Linked(s: State) {
    && (s.pipe.Intact? ==> InStep(s))
    && (s.pipe.Listening? ==>
          (s.broker.phase.Starting? || s.broker.phase.Finished?) && s.coordinator.task.Connecting? && Quiet(s))
  }

  /** The child in each phase of the broker. */
  predicate ChildFits(b: Broker) {
    && Sound(b.child)
    && match b.phase
       case Starting => b.child == NO_CHILD.(job := true)
       case Connected => b.child == NO_CHILD.(job := true)
       case AwaitAcquire => b.child == NO_CHILD.(job := true)
       case Holding => b.child == NO_CHILD.(job := true)
       case Creating => b.child.creating
       case Validating => b.child.tracked && !CanRun(b.child.tree) && b.child.wait.Outside?
       case Resuming => b.child.tracked && !CanRun(b.child.tree) && b.child.wait.Outside?
       case Serving => b.child.tracked && b.child.wait.Outside?
       case Trying => !b.child.creating
       case Confirming(_) => !b.child.creating
       case Releasing => Over(b.child)
       case AwaitRelease => Over(b.child)
       case Finished => true
  }

  predicate Inv(s: State) {
    Linked(s) && ChildFits(s.broker) && Settled(s.coordinator)
  }

  lemma BrokerKeepsLinked(s: State, step: BrokerStep)
    requires Linked(s) && BrokerMay(s, step)
    ensures Linked(AfterBroker(s, step))
  {
  }

  lemma MakingKeepsChild(s: State, step: BrokerStep)
    requires ChildFits(s.broker) && BrokerMay(s, step)
    requires step.CreateChild? || step.CreateFails? || step.KeepChild? || step.AbandonChild? || step.ResumeChild?
    ensures ChildFits(AfterBroker(s, step).broker)
  {
    var child := s.broker.child;
    match step
    case CreateChild => StepKeepsSound(child, Create);
    case CreateFails => StepKeepsSound(child, Drop);
    case KeepChild => StepKeepsSound(child, Keep);
    case AbandonChild(terminated) => StepKeepsSound(child, Abandon(terminated));
    case ResumeChild(ok, runs) =>
      if child.tree.root.Suspended? {
        StepKeepsSound(child, Resume(ok, runs));
      }
  }

  lemma EndingKeepsChild(s: State, step: BrokerStep)
    requires ChildFits(s.broker) && BrokerMay(s, step) && (step.EndSession? || step.Attempt?)
    ensures ChildFits(AfterBroker(s, step).broker)
  {
    var wait := if step.EndSession? then Call else step.step;
    StepKeepsSound(s.broker.child, wait);
  }

  lemma BrokerKeepsChild(s: State, step: BrokerStep)
    requires ChildFits(s.broker) && BrokerMay(s, step)
    ensures ChildFits(AfterBroker(s, step).broker)
  {
    if step.CreateChild? || step.CreateFails? || step.KeepChild? || step.AbandonChild? || step.ResumeChild? {
      MakingKeepsChild(s, step);
    } else if step.EndSession? || step.Attempt? {
      EndingKeepsChild(s, step);
    }
  }

  lemma CoordinatorKeepsLinked(s: State, step: CoordinatorStep)
    requires Linked(s) && CoordinatorMay(s, step)
    requires s.coordinator.task == ReplyAcquire(true) ==> s.coordinator.leased == DesktopLease.ALL_OBJECTS
    ensures Linked(AfterCoordinator(s, step))
  {
  }

  lemma ApplyKeepsSettled(c: Coordinator, step: CoordinatorStep)
    requires Settled(c) && step.ApplyOne? && c.task.Applying? && c.task.next < 3
    requires Applied(c.grants, c.leased, ObjectAt(c.task.next), step.grants, step.leased, step.ok)
    ensures Settled(AfterOne(c, step.grants, step.leased,
                             if step.ok then Applying(c.task.next + 1) else Undoing(0)).(failed := false))
  {
    LeadingStep(c.task.next);
  }

  lemma TriedMore(next: nat)
    requires next < 3
    ensures Tried(next + 1) == Tried(next) + {ReleasedAt(next)}
  {
  }

  lemma TriedAll()
    ensures Tried(3) == DesktopLease.ALL_OBJECTS
  {
    TriedMore(0);
    TriedMore(1);
    TriedMore(2);
  }

  /** One more object tried: it is no longer leased, or this `Release` reports an error. */
  lemma RemoveKeepsSettled(c: Coordinator, step: CoordinatorStep)
    requires Settled(c) && step.RemoveOne? && Releases(c.task) && c.task.next < 3
    requires Removed(c.grants, c.leased, ReleasedAt(c.task.next), step.grants, step.leased, step.ok)
    ensures Settled(AfterOne(c, step.grants, step.leased, NextRelease(c.task)).(failed := c.failed || !step.ok))
  {
    TriedMore(c.task.next);
  }

  lemma AllDoneKeepsSettled(s: State)
    requires Settled(s.coordinator) && CoordinatorMay(s, AllDone)
    ensures Settled(AfterAll(s).coordinator)
  {
    LeadingAll();
    TriedAll();
  }

  lemma CoordinatorKeepsSettled(s: State, step: CoordinatorStep)
    requires Settled(s.coordinator) && CoordinatorMay(s, step)
    ensures Settled(AfterCoordinator(s, step).coordinator)
  {
    if step.ApplyOne? {
      ApplyKeepsSettled(s.coordinator, step);
    } else if step.RemoveOne? {
      RemoveKeepsSettled(s.coordinator, step);
    } else if step.AllDone? {
      AllDoneKeepsSettled(s);
    }
  }

  lemma StepKeepsInv(s: State, step: Step)
    requires Inv(s) && May(s, step)
    ensures Inv(After(s, step))
  {
    match step {
      case ByBroker(b) =>
        BrokerKeepsLinked(s, b);
        BrokerKeepsChild(s, b);
      case ByCoordinator(c) =>
        CoordinatorKeepsLinked(s, c);
        CoordinatorKeepsSettled(s, c);
      case ByKernel(k) =>
        StepKeepsSound(s.broker.child, k);
      case PipeBreaks =>
    }
  }

  // ---- runs ----

  predicate Legal(s: State, steps: seq<Step>)
    decreases |steps|
  {
    |steps| > 0 ==> May(s, steps[0]) && Legal(After(s, steps[0]), steps[1..])
  }

  function Run(s: State, steps: seq<Step>): State
    requires Legal(s, steps)
    decreases |steps|
  {
    if |steps| == 0 then s else Run(After(s, steps[0]), steps[1..])
  }

  lemma {:induction false} RunKeepsInv(s: State, steps: seq<Step>)
    requires Inv(s) && Legal(s, steps)
    ensures Inv(Run(s, steps))
    decreases |steps|
  {
    if |steps| > 0 {
      StepKeepsInv(s, steps[0]);
      RunKeepsInv(After(s, steps[0]), steps[1..]);
    }
  }

  lemma InitialInv(s: State)
    requires Initial(s)
    ensures Inv(s)
  {
  }

  /** While any process of the child's tree can run and the pipe is intact, all three grants are held. */
  lemma GrantsWhileAlive(start: State, steps: seq<Step>)
    requires Initial(start) && Legal(start, steps)
    requires CanRun(Run(start, steps).broker.child.tree) && Run(start, steps).pipe.Intact?
    ensures Run(start, steps).coordinator.grants == ALL_GRANTS
  {
    InitialInv(start);
    RunKeepsInv(start, steps);
    var s := Run(start, steps);
    assert LeaseStands(s);
    assert s.coordinator.grants == ALL_GRANTS;
  }

  /** The step of the child that a step of the system is. */
  function ChildStep(s: State, step: Step): Option<ChildProcesses.Step> {
    match step
    case ByKernel(k) => Some(k)
    case ByBroker(CreateChild) => Some(Create)
    case ByBroker(CreateFails) => Some(Drop)
    case ByBroker(KeepChild) => Some(Keep)
    case ByBroker(AbandonChild(terminated)) => Some(Abandon(terminated))
    case ByBroker(ResumeChild(ok, runs)) => if s.broker.child.tree.root.Suspended? then Some(Resume(ok, runs)) else None
    case ByBroker(EndSession) => Some(Call)
    case ByBroker(Attempt(wait)) => Some(wait)
    case _ => None
  }

  lemma StepMovesChild(s: State, step: Step)
    requires May(s, step)
    ensures var c := ChildStep(s, step);
            && (c.Some? ==> Enabled(s.broker.child, c.value))
            && After(s, step).broker.child ==
               (if c.Some? then ChildProcesses.Next(s.broker.child, c.value) else s.broker.child)
            && (c == Some(Abandon(false)) <==> step == ByBroker(AbandonChild(false)))
            && (c == Some(RootExits) <==> step == ByKernel(RootExits))
  {
    if step.ByBroker? {
      BrokerMovesChild(s, step.broker);
    }
  }

  lemma BrokerMovesChild(s: State, step: BrokerStep)
    requires BrokerMay(s, step)
    ensures var c := ChildStep(s, ByBroker(step));
            && (c.Some? ==> Enabled(s.broker.child, c.value) && c != Some(RootExits))
            && AfterBroker(s, step).broker.child ==
               (if c.Some? then ChildProcesses.Next(s.broker.child, c.value) else s.broker.child)
            && (c == Some(Abandon(false)) <==> step == AbandonChild(false))
  {
  }

  /** What a run does to the child. */
  lemma {:induction false} RunMovesChild(s: State, steps: seq<Step>) returns (child: seq<ChildProcesses.Step>)
    requires Legal(s, steps)
    ensures ChildProcesses.Legal(s.broker.child, child)
    ensures ChildProcesses.Run(s.broker.child, child) == Run(s, steps).broker.child
    ensures Abandon(false) in child <==> ByBroker(AbandonChild(false)) in steps
    ensures RootExits in child <==> ByKernel(RootExits) in steps
    decreases |steps|
  {
    child := [];
    if |steps| > 0 {
      var c := ChildStep(s, steps[0]);
      StepMovesChild(s, steps[0]);
      var more := RunMovesChild(After(s, steps[0]), steps[1..]);
      if c.Some? {
        child := [c.value] + more;
        assert child[1..] == more;
      } else {
        child := more;
      }
    }
  }

  /** When the broker can send its release, nothing of the tree can run; and a process is left exactly if
      the creation of the child failed late, its process could not be terminated, and it has not exited
      since. */
  lemma ReleaseAfterExit(start: State, steps: seq<Step>, sent: bool)
    requires Initial(start) && Legal(start, steps) && BrokerMay(Run(start, steps), SendRelease(sent))
    ensures !CanRun(Run(start, steps).broker.child.tree)
    ensures Alive(Run(start, steps).broker.child.tree) != 0 <==>
            ByBroker(AbandonChild(false)) in steps && ByKernel(RootExits) !in steps
  {
    InitialInv(start);
    RunKeepsInv(start, steps);
    var child := RunMovesChild(start, steps);
    OverMeansGone(start.broker.child, child);
  }

  /** So the broker keeps its promise to the letter unless terminating a process fails. */
  lemma ReleaseAfterWholeTree(start: State, steps: seq<Step>, sent: bool)
    requires Initial(start) && Legal(start, steps) && BrokerMay(Run(start, steps), SendRelease(sent))
    requires ByBroker(AbandonChild(false)) !in steps
    ensures Alive(Run(start, steps).broker.child.tree) == 0
  {
    ReleaseAfterExit(start, steps, sent);
  }

  lemma RunPrepended(s: State, step: Step, steps: seq<Step>)
    requires May(s, step) && Legal(After(s, step), steps)
    ensures Legal(s, [step] + steps) && Run(s, [step] + steps) == Run(After(s, step), steps)
  {
    assert ([step] + steps)[1..] == steps;
  }

  // An acquisition without any trouble, up to the lease that stands.

  function Applies(next: nat, grants: Grants, leased: set<Object>): State {
    State(Broker(AwaitAcquire, NO_CHILD.(job := true)), Coordinator(Applying(next), grants, leased, false), Intact,
          [], [])
  }

  function Obtained(): State {
    State(Broker(Holding, NO_CHILD.(job := true)),
          Coordinator(AwaitReleaseRequest, ALL_GRANTS, DesktopLease.ALL_OBJECTS, false), Intact, [], [])
  }

  lemma Requested(start: State, after: seq<Step>) returns (steps: seq<Step>)
    requires Initial(start) && Legal(Applies(0, NO_GRANTS, {}), after)
    ensures Legal(start, steps) && Run(start, steps) == Run(Applies(0, NO_GRANTS, {}), after)
  {
    var s1 := After(start, ByBroker(Connect));
    var s2 := After(s1, ByBroker(SendAcquire(true)));
    var s3 := After(s2, ByCoordinator(Accept(true)));
    assert After(s3, ByCoordinator(ReceiveRequest)) == Applies(0, NO_GRANTS, {});
    RunPrepended(s3, ByCoordinator(ReceiveRequest), after);
    steps := [ByCoordinator(ReceiveRequest)] + after;
    RunPrepended(s2, ByCoordinator(Accept(true)), steps);
    steps := [ByCoordinator(Accept(true))] + steps;
    RunPrepended(s1, ByBroker(SendAcquire(true)), steps);
    steps := [ByBroker(SendAcquire(true))] + steps;
    RunPrepended(start, ByBroker(Connect), steps);
    steps := [ByBroker(Connect)] + steps;
  }

  lemma OneApplied(next: nat, grants: Grants, leased: set<Object>, after: seq<Step>) returns (steps: seq<Step>)
    requires next < 3 && ObjectAt(next) in grants && grants[ObjectAt(next)] == 0 && ObjectAt(next) !in leased
    requires Legal(Applies(next + 1, grants[ObjectAt(next) := 1], leased + {ObjectAt(next)}), after)
    ensures Legal(Applies(next, grants, leased), steps)
    ensures Run(Applies(next, grants, leased), steps) ==
            Run(Applies(next + 1, grants[ObjectAt(next) := 1], leased + {ObjectAt(next)}), after)
  {
    var step := ByCoordinator(ApplyOne(grants[ObjectAt(next) := 1], leased + {ObjectAt(next)}, true));
    RunPrepended(Applies(next, grants, leased), step, after);
    steps := [step] + after;
  }

  lemma Replied(after: seq<Step>) returns (steps: seq<Step>)
    requires Legal(Obtained(), after)
    ensures var s := Applies(3, ALL_GRANTS, DesktopLease.ALL_OBJECTS);
            Legal(s, steps) && Run(s, steps) == Run(Obtained(), after)
  {
    var s := Applies(3, ALL_GRANTS, DesktopLease.ALL_OBJECTS);
    var s1 := After(s, ByCoordinator(AllDone));
    var s2 := After(s1, ByCoordinator(SendAcquireReply(true)));
    assert After(s2, ByBroker(ReceiveAcquire)) == Obtained();
    RunPrepended(s2, ByBroker(ReceiveAcquire), after);
    steps := [ByBroker(ReceiveAcquire)] + after;
    RunPrepended(s1, ByCoordinator(SendAcquireReply(true)), steps);
    steps := [ByCoordinator(SendAcquireReply(true))] + steps;
    RunPrepended(s, ByCoordinator(AllDone), steps);
    steps := [ByCoordinator(AllDone)] + steps;
  }

  lemma LeaseObtained(start: State, after: seq<Step>) returns (steps: seq<Step>)
    requires Initial(start) && Legal(Obtained(), after)
    ensures Legal(start, steps) && Run(start, steps) == Run(Obtained(), after)
  {
    var one, two := NO_GRANTS[ObjectAt(0) := 1], {} + {ObjectAt(0)};
    assert one[ObjectAt(1) := 1][ObjectAt(2) := 1] == ALL_GRANTS;
    assert two + {ObjectAt(1)} + {ObjectAt(2)} == DesktopLease.ALL_OBJECTS;
    steps := Replied(after);
    steps := OneApplied(2, one[ObjectAt(1) := 1], two + {ObjectAt(1)}, steps);
    steps := OneApplied(1, one, two, steps);
    steps := OneApplied(0, NO_GRANTS, {}, steps);
    steps := Requested(start, steps);
  }

  /** Under a lease, the creation of the child fails late and its process cannot be terminated. */
  lemma CreationFails() returns (steps: seq<Step>, stranded: State)
    ensures Legal(Obtained(), steps) && Run(Obtained(), steps) == stranded
    ensures BrokerMay(stranded, SendRelease(true)) && Alive(stranded.broker.child.tree) == 1
  {
    var t := After(Obtained(), ByBroker(CreateChild));
    stranded := After(t, ByBroker(AbandonChild(false)));
    RunPrepended(t, ByBroker(AbandonChild(false)), []);
    RunPrepended(Obtained(), ByBroker(CreateChild), [ByBroker(AbandonChild(false))] + []);
    steps := [ByBroker(CreateChild)] + ([ByBroker(AbandonChild(false))] + []);
  }

  /** That exception happens in a run: when the creation of the child fails after its process exists, and
      the process cannot be terminated, the release is sent while the process still stands suspended. */
  lemma ReleaseBesideSuspended(start: State) returns (steps: seq<Step>)
    requires Initial(start)
    ensures Legal(start, steps) && BrokerMay(Run(start, steps), SendRelease(true))
    ensures Alive(Run(start, steps).broker.child.tree) == 1
  {
    var after, stranded := CreationFails();
    steps := LeaseObtained(start, after);
  }

  /** An unconfirmed end releases nothing: the broker goes back to ending the tree. */
  lemma UnconfirmedReleasesNothing(s: State)
    requires Inv(s) && BrokerMay(s, Unconfirmed)
    ensures var t := After(s, ByBroker(Unconfirmed));
            && t.toCoordinator == s.toCoordinator && t.pipe == s.pipe
            && !BrokerMay(t, Confirmed) && !BrokerMay(t, SendRelease(true)) && !BrokerMay(t, SendRelease(false))
            && BrokerMay(t, Attempt(Call))
  {
  }

  /** The child is resumed only under a lease that stands, unless the pipe has already broken. */
  lemma ResumedUnderLease(start: State, steps: seq<Step>)
    requires Initial(start) && Legal(start, steps) && BrokerMay(Run(start, steps), ResumeChild(true, true))
    ensures Run(start, steps).pipe.Intact? ==> LeaseStands(Run(start, steps))
    ensures !Run(start, steps).pipe.Listening?
  {
    InitialInv(start);
    RunKeepsInv(start, steps);
  }

  /** The coordinator never returns with a grant still in place unless its last `Release` returned an
      error; at every moment the grants stand exactly where the lease object marks them. */
  lemma ReturnsWithoutGrants(start: State, steps: seq<Step>)
    requires Initial(start) && Legal(start, steps)
    ensures var c := Run(start, steps).coordinator;
            && (forall o :: o in DesktopLease.ALL_OBJECTS ==>
                  o in c.grants && c.grants[o] == if o in c.leased then 1 else 0)
            && (c.task.Returned? && !c.failed ==> c.grants == NO_GRANTS)
  {
    InitialInv(start);
    RunKeepsInv(start, steps);
  }

  // ---- the coordinator gets away ----

  function Distance(task: Task): nat {
    match task
    case Connecting => 21
    case AwaitRequest => 20
    case Applying(next) => 16 + if next < 3 then 3 - next else 0
    case Undoing(next) => 12 + if next < 3 then 3 - next else 0
    case ReplyAcquire(_) => 11
    case AwaitReleaseRequest => 10
    case Removing(next) => 6 + if next < 3 then 3 - next else 0
    case ReplyRelease => 5
    case Destructing(next) => 1 + if next < 3 then 3 - next else 0
    case _ => 0
  }

  predicate Gone(task: Task) {
    task.Returned? || task.Crashed?
  }

  lemma OwnStepsLeadAway(s: State, step: CoordinatorStep)
    requires CoordinatorMay(s, step)
    ensures Distance(AfterCoordinator(s, step).coordinator.task) < Distance(s.coordinator.task)
  {
  }

  lemma BrokerLeavesCoordinator(s: State, step: BrokerStep)
    requires BrokerMay(s, step)
    ensures AfterBroker(s, step).coordinator == s.coordinator
  {
  }

  /** Each step of the coordinator brings it nearer to its return, and no other step takes it away. */
  lemma StepsLeadAway(s: State, step: Step)
    requires May(s, step)
    ensures step.ByCoordinator? ==> Distance(After(s, step).coordinator.task) < Distance(s.coordinator.task)
    ensures !step.ByCoordinator? ==> After(s, step).coordinator == s.coordinator
  {
    match step
    case ByBroker(b) => BrokerLeavesCoordinator(s, b);
    case ByCoordinator(c) => OwnStepsLeadAway(s, c);
    case _ =>
  }

  /** Once the pipe is broken the coordinator waits for nobody. */
  lemma NeverWaits(s: State) returns (step: CoordinatorStep)
    requires Inv(s) && s.pipe.Broken? && !Gone(s.coordinator.task)
    ensures CoordinatorMay(s, step) && !step.CoordinatorCrashes?
  {
    var c := s.coordinator;
    match c.task {
      case Connecting => step := Accept(true);
      case AwaitRequest => step := CoordinatorReadFails;
      case ReplyAcquire(_) => step := SendAcquireReply(false);
      case AwaitReleaseRequest => step := CoordinatorReadFails;
      case ReplyRelease => step := SendReleaseReply(false);
      case Applying(next) =>
        if next < 3 {
          LeadingStep(next);
        }
        step := if next == 3 then AllDone else ApplyOne(c.grants, c.leased, false);
      case Undoing(next) => step := RemovalOf(c);
      case Removing(next) => step := RemovalOf(c);
      case Destructing(next) => step := RemovalOf(c);
    }
  }

  function RemovalOf(c: Coordinator): CoordinatorStep
    requires Releases(c.task)
  {
    if c.task.next == 3 then AllDone else RemoveOne(c.grants, c.leased, ReleasedAt(c.task.next) !in c.leased)
  }

  function OwnSteps(steps: seq<Step>): nat {
    if steps == [] then 0 else (if steps[0].ByCoordinator? then 1 else 0) + OwnSteps(steps[1..])
  }

  /** So every schedule from a broken pipe in which the coordinator takes its steps ends: it has at most
      twenty-one, and as long as it has not returned it can take one. */
  lemma {:induction false} EveryScheduleEnds(s: State, steps: seq<Step>)
    requires Legal(s, steps)
    ensures OwnSteps(steps) + Distance(Run(s, steps).coordinator.task) <= Distance(s.coordinator.task)
    decreases |steps|
  {
    if |steps| > 0 {
      StepsLeadAway(s, steps[0]);
      EveryScheduleEnds(After(s, steps[0]), steps[1..]);
    }
  }

  lemma BrokenPipeReturns(s: State, steps: seq<Step>)
    requires Inv(s) && s.pipe.Broken? && Legal(s, steps)
    ensures OwnSteps(steps) <= 21
    ensures Gone(Run(s, steps).coordinator.task) ||
            exists step :: CoordinatorMay(Run(s, steps), step) && !step.CoordinatorCrashes?
    ensures OwnSteps(steps) >= Distance(s.coordinator.task) ==> Gone(Run(s, steps).coordinator.task)
  {
    EveryScheduleEnds(s, steps);
    RunKeepsInv(s, steps);
    StaysBroken(s, steps);
    if !Gone(Run(s, steps).coordinator.task) {
      var step := NeverWaits(Run(s, steps));
    }
  }

  lemma {:induction false} StaysBroken(s: State, steps: seq<Step>)
    requires s.pipe.Broken? && Legal(s, steps)
    ensures Run(s, steps).pipe.Broken?
    decreases |steps|
  {
    if |steps| > 0 {
      StaysBroken(After(s, steps[0]), steps[1..]);
    }
  }
}
