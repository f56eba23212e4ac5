/** All interleavings of broker workers: launches with their session's end, and configuration
    requests, over the reservation table, the four kinds of mutex and each session's job
    (src/broker/BrokerApplication.cpp, src/broker/BrokerPipeServer.cpp). */
module Workers {
  import opened Sessions
  import opened Wrappers
  import ChildProcesses

  datatype Lock = LaunchMutex | SessionMutex | ReadScopeMutex | ScopeLogMutex(account: AccountName)

  function Rank(lock: Lock): (r: nat)
    ensures r < 4
  {
    match lock
    case LaunchMutex => 0
    case SessionMutex => 1
    case ReadScopeMutex => 2
    case ScopeLogMutex(_) => 3
  }

  /** Where a worker is. The comments name the mutexes it holds besides those of `Inner`. */
  datatype Phase =
    | Start                        // about to reserve
    | Reserving | Reserved | Rejected   // session
    | Waiting                      // reserved, wants the launch mutex
    | Launching                    // launch
    | Failing                      // launch; ending the job tree, in a loop
    | FailWaiting                  // launch; the tree is confirmed gone, wants the session mutex
    | FailReleasing | FailReleased // launch, session
    | FailExit                     // launch
    | Serving                      // none; the launch succeeded
    | Trying                       // none; the one attempt to end the tree
    | Retrying                     // none; after `FinishSession(false)`, ending the tree in a loop
    | Ending                       // none; the tree is confirmed gone, wants the session mutex
    | EndReleasing | EndReleased   // session
    | ConfigureStart               // a deletion, wants the launch mutex
    | Configuring                  // launch; wants the session mutex for HasActiveSession
    | Checking                     // launch, session
    | Checked(active: bool)        // launch, session
    | Deleting                     // launch; no session was found
    | ConfigureExit                // launch
    | Finished

  /** Calls into the scope and its log, nested inside a phase: the scope's mutex, then the log's
      mutex through the observer, or the log's mutex alone for Join and Leave. */
  datatype Inner = Outside | InScope | InScopeLog | InLog

  datatype Worker = Worker(account: AccountName, restrict: bool, phase: Phase, inner: Inner, asks: Option<Lock>,
                           child: ChildProcesses.Child, reserved: bool, releases: nat)

  datatype State = State(table: Table, workers: seq<Worker>)

  // ---- mutexes ----

  predicate HoldsLaunch(w: Worker) {
    || w.phase.Launching? || w.phase.Failing? || w.phase.FailWaiting? || w.phase.FailReleasing? || w.phase.FailReleased?
    || w.phase.FailExit? || w.phase.Configuring? || w.phase.Checking? || w.phase.Checked? || w.phase.Deleting?
    || w.phase.ConfigureExit?
  }

  predicate HoldsSession(w: Worker) {
    || w.phase.Reserving? || w.phase.Reserved? || w.phase.Rejected? || w.phase.FailReleasing?
    || w.phase.FailReleased? || w.phase.EndReleasing? || w.phase.EndReleased? || w.phase.Checking?
    || w.phase.Checked?
  }

  predicate Holds(w: Worker, lock: Lock) {
    match lock
    case LaunchMutex => HoldsLaunch(w)
    case SessionMutex => HoldsSession(w)
    case ReadScopeMutex => w.inner.InScope? || w.inner.InScopeLog?
    case ScopeLogMutex(account) => (w.inner.InScopeLog? || w.inner.InLog?) && account == w.account
  }

  /** The mutex the worker is blocked on or about to take. */
  function Wants(w: Worker): Option<Lock> {
    if w.phase.Start? || w.phase.FailWaiting? || w.phase.Ending? || w.phase.Configuring? then Some(SessionMutex)
    else if w.phase.Waiting? || w.phase.ConfigureStart? then Some(LaunchMutex)
    else w.asks
  }

  /** Phases whose code calls into the read scope or its log. */
  predicate CallsScope(phase: Phase) {
    || phase.Reserving? || phase.Launching? || phase.FailReleasing? || phase.EndReleasing?
    || phase.FailReleased? || phase.EndReleased?
  }

  predicate MayAsk(w: Worker, lock: Lock) {
    && CallsScope(w.phase) && w.asks.None?
    && match w.inner
       case Outside => lock == ReadScopeMutex || (lock == ScopeLogMutex(w.account) && !w.phase.Launching?)
       case InScope => lock == ScopeLogMutex(w.account)
       case _ => false
  }

  predicate Idle(w: Worker) {
    w.inner == Outside && w.asks.None?
  }

  ghost predicate Free(s: State, lock: Lock) {
    forall j :: 0 <= j < |s.workers| ==> !Holds(s.workers[j], lock)
  }

  // ---- steps ----

  datatype Step =
    | Ask(lock: Lock)              // reach a lock_guard inside a scope call
    | Acquire                      // the mutex the worker wants is free
    | Leave                        // leave the innermost scope call
    | Decide(restoreFails: bool)   // the body of TryReserveSession
    | Kernel(child: ChildProcesses.Step)   // a process of the job starts or exits
    | Make(child: ChildProcesses.Step)     // Launch makes its child
    | EnsureScope                  // BrokerReadScope::Ensure under its mutex
    | Succeed                      // the child is resumed and Launch returns success
    | Fail                         // Launch fails and starts to end the job tree
    | EndSession                   // the session is over and its tree has to be ended
    | Attempt(child: ChildProcesses.Step)  // inside TerminateAndWaitForExit
    | Unconfirmed                  // the attempt failed: FinishSession(false), which releases nothing
    | Confirmed                    // an attempt succeeded
    | ReleaseOne(restoreFails: bool)   // the body of ReleaseSession
    | Look                         // the body of HasActiveSession
    | Delete                       // registration_.Delete
    | Unlock                       // leave the outermost lock_guard of the phase

  ghost predicate Enabled(s: State, i: nat, step: Step)
    requires i < |s.workers|
  {
    var w := s.workers[i];
    match step
    case Ask(lock) => MayAsk(w, lock)
    case Acquire => Wants(w).Some? && Free(s, Wants(w).value)
    case Leave => w.inner != Outside && w.asks.None?
    case Decide(_) => w.phase.Reserving? && Idle(w)
    case Kernel(step) => ChildProcesses.IsKernel(step) && ChildProcesses.Enabled(w.child, step)
    case Make(step) => w.phase.Launching? && Idle(w) && Makes(step) && ChildProcesses.Enabled(w.child, step)
    case EnsureScope => w.phase.Launching? && w.inner.InScope? && w.asks.None? && w.restrict
    case Succeed => w.phase.Launching? && Idle(w) && w.child.tracked
    case Fail => w.phase.Launching? && Idle(w) && !w.child.creating
    case EndSession => w.phase.Serving? && ChildProcesses.Enabled(w.child, ChildProcesses.Call)
    case Attempt(step) =>
      && (w.phase.Failing? || w.phase.Trying? || w.phase.Retrying?)
      && ChildProcesses.IsWait(step) && ChildProcesses.Enabled(w.child, step) && (step.Call? ==> !w.phase.Trying?)
    case Unconfirmed => w.phase.Trying? && w.child.wait.Outside? && !ChildProcesses.Over(w.child)
    case Confirmed => (w.phase.Failing? || w.phase.Trying? || w.phase.Retrying?) && ChildProcesses.Over(w.child)
    case ReleaseOne(_) => (w.phase.FailReleasing? || w.phase.EndReleasing?) && Idle(w)
    case Look => w.phase.Checking?
    case Delete => w.phase.Deleting?
    case Unlock =>
      Idle(w) && (w.phase.Reserved? || w.phase.Rejected? || w.phase.FailReleased? || w.phase.FailExit? ||
                  w.phase.EndReleased? || w.phase.Checked? || w.phase.ConfigureExit?)
  }

  /** Steps of `Launch` on the child before it succeeds; a resumption may fail and yet have its effect. */
  predicate Makes(step: ChildProcesses.Step) {
    || step.OpenJob? || step.Create? || step.Keep? || step.Abandon? || step.Drop?
    || (step.Resume? && !step.ok)
  }

  function WithChild(w: Worker, step: ChildProcesses.Step): Worker {
    if ChildProcesses.Enabled(w.child, step) then w.(child := ChildProcesses.Next(w.child, step)) else w
  }

  function AfterAcquire(w: Worker): Worker {
    match w.phase
    case Start => w.(phase := Reserving)
    case Waiting => w.(phase := Launching)
    case FailWaiting => w.(phase := FailReleasing)
    case Ending => w.(phase := EndReleasing)
    case ConfigureStart => w.(phase := Configuring)
    case Configuring => w.(phase := Checking)
    case _ =>
      w.(asks := None,
         inner := if w.inner.InScope? then InScopeLog
                  else if w.asks == Some(ReadScopeMutex) then InScope else InLog)
  }

  function AfterUnlock(w: Worker): Phase {
    match w.phase
    case Reserved => Waiting
    case FailReleased => FailExit
    case Checked(active) => if active then ConfigureExit else Deleting
    case _ => Finished
  }

  function NextWorker(s: State, i: nat, step: Step): Worker
    requires i < |s.workers|
  {
    var w := s.workers[i];
    match step
    case Ask(lock) => w.(asks := Some(lock))
    case Acquire => AfterAcquire(w)
    case Leave => w.(inner := if w.inner.InScopeLog? then InScope else Outside)
    case Decide(fails) =>
      var ok := Reserve(s.table, w.account, w.restrict, fails).1;
      w.(phase := if ok then Reserved else Rejected, reserved := ok)
    case Kernel(step) => WithChild(w, step)
    case Make(step) => WithChild(w, step)
    case EnsureScope => w
    case Succeed => WithChild(w, ChildProcesses.Resume(true, true)).(phase := Serving)
    case Fail => w.(phase := Failing)
    case EndSession => WithChild(w, ChildProcesses.Call).(phase := Trying)
    case Attempt(step) => WithChild(w, step)
    case Unconfirmed => w.(phase := Retrying)
    case Confirmed => w.(phase := if w.phase.Failing? then FailWaiting else Ending)
    case ReleaseOne(_) =>
      w.(phase := if w.phase.FailReleasing? then FailReleased else EndReleased, releases := w.releases + 1)
    case Look => w.(phase := Checked(w.account in s.table.accounts))
    case Delete => w.(phase := ConfigureExit)
    case Unlock => w.(phase := AfterUnlock(w))
  }

  function NextTable(s: State, i: nat, step: Step): Table
    requires i < |s.workers|
  {
    var w := s.workers[i];
    match step
    case Decide(fails) => Reserve(s.table, w.account, w.restrict, fails).0
    case EnsureScope => Sessions.Ensure(s.table, w.account)
    case ReleaseOne(fails) => Release(s.table, w.account, fails).0
    case _ => s.table
  }

  function Next(s: State, i: nat, step: Step): State
    requires i < |s.workers|
  {
    State(NextTable(s, i, step), s.workers[i := NextWorker(s, i, step)])
  }

  // ---- sessions ----

  /** Admitted and not yet released. */
  predicate Live(w: Worker) {
    w.reserved && w.releases == 0
  }

  /** Live and past the launch mutex. */
  predicate PastLaunch(w: Worker) {
    || w.phase.Launching? || w.phase.Failing? || w.phase.FailWaiting? || w.phase.FailReleasing? || w.phase.Serving?
    || w.phase.Trying? || w.phase.Retrying? || w.phase.Ending? || w.phase.EndReleasing?
  }

  function LiveAmong(workers: seq<Worker>): set<nat> {
    set i: nat | i < |workers| && Live(workers[i])
  }

  function AccountAmong(workers: seq<Worker>, account: AccountName): set<nat> {
    set i: nat | i < |workers| && Live(workers[i]) && workers[i].account == account
  }

  function LiveSessions(s: State): set<nat> {
    LiveAmong(s.workers)
  }

  function LiveOf(s: State, account: AccountName): set<nat> {
    AccountAmong(s.workers, account)
  }

  /** What a worker's fields say about its phase. */
  predicate Coherent(w: Worker) {
    && (w.reserved <==> !(w.phase.Start? || w.phase.Reserving? || w.phase.Rejected? || w.phase.ConfigureStart? ||
                          w.phase.Configuring? || w.phase.Checking? || w.phase.Checked? || w.phase.Deleting? ||
                          w.phase.ConfigureExit?) && (w.phase.Finished? ==> w.releases == 1))
    && w.releases == (if w.phase.FailReleased? || w.phase.FailExit? || w.phase.EndReleased? ||
                         (w.phase.Finished? && w.reserved) then 1 else 0)
    && (!CallsScope(w.phase) ==> Idle(w))
    && (w.asks.Some? ==> MayAsk(w.(asks := None), w.asks.value))
  }

  /** The job in each phase: none before the launch, and none that could run from the release on. */
  predicate ChildFits(w: Worker) {
    && ChildProcesses.Sound(w.child)
    && (w.phase.Launching? ==> w.child.wait.Outside?)
    && (w.phase.Serving? ==> w.child.tracked && w.child.wait.Outside?)
    && (w.phase.Failing? || w.phase.Trying? || w.phase.Retrying? ==> !w.child.creating)
    && (!w.phase.Launching? && !w.phase.Serving? && !w.phase.Failing? && !w.phase.Trying? && !w.phase.Retrying? ==>
          ChildProcesses.Over(w.child))
  }

  ghost predicate Exclusive(s: State) {
    forall i, j, lock :: 0 <= i < j < |s.workers| ==> !(Holds(s.workers[i], lock) && Holds(s.workers[j], lock))
  }

  /** The table counts exactly the live sessions, account by account and in all. */
  ghost predicate Counted(s: State) {
    && s.table.total == |LiveSessions(s)|
    && forall a :: CountOf(s.table, a) == |LiveOf(s, a)|
  }

  /** Every live session agrees with its account's entry, hence all of an account's with each other,
      on `restrictAccess`. */
  ghost predicate Agreed(s: State) {
    forall i :: 0 <= i < |s.workers| && Live(s.workers[i]) ==>
      s.workers[i].account in s.table.accounts &&
      s.table.accounts[s.workers[i].account].readScope.Some? == s.workers[i].restrict
  }

  /** From a look that found no session to the deletion, no session of the account is past the
      launch mutex. */
  ghost predicate DeletionSafe(s: State) {
    forall c, i :: 0 <= c < |s.workers| && 0 <= i < |s.workers| && AboutToDelete(s.workers[c]) &&
                   s.workers[i].account == s.workers[c].account ==>
                     !PastLaunch(s.workers[i])
  }

  ghost predicate Inv(s: State) {
    && (forall i :: 0 <= i < |s.workers| ==> Coherent(s.workers[i]) && ChildFits(s.workers[i]))
    && Exclusive(s) && Admissible(s.table) && Counted(s) && Agreed(s) && DeletionSafe(s)
  }

  predicate Initial(s: State) {
    && s.table == Table(map[], 0)
    && forall i :: 0 <= i < |s.workers| ==>
         var w := s.workers[i];
         (w.phase.Start? || w.phase.ConfigureStart?) && Idle(w) && w.child == ChildProcesses.NO_CHILD &&
         !w.reserved && w.releases == 0
  }

  lemma InitialInv(s: State)
    requires Initial(s)
    ensures Inv(s)
  {
    assert LiveSessions(s) == {};
    forall a
      ensures CountOf(s.table, a) == |LiveOf(s, a)|
    {
      assert LiveOf(s, a) == {};
    }
  }

  // ---- one step keeps each part ----

  lemma KeepsCoherent(s: State, i: nat, step: Step)
    requires i < |s.workers| && Coherent(s.workers[i]) && Enabled(s, i, step)
    ensures Coherent(NextWorker(s, i, step))
    ensures NextWorker(s, i, step).account == s.workers[i].account
    ensures NextWorker(s, i, step).restrict == s.workers[i].restrict
  {
  }

  lemma KeepsChild(s: State, i: nat, step: Step)
    requires i < |s.workers| && ChildFits(s.workers[i]) && Enabled(s, i, step)
    ensures ChildFits(NextWorker(s, i, step))
  {
    var child := s.workers[i].child;
    match step
    case Kernel(k) => ChildProcesses.StepKeepsSound(child, k);
    case Make(m) => ChildProcesses.StepKeepsSound(child, m);
    case Attempt(a) => ChildProcesses.StepKeepsSound(child, a);
    case EndSession => ChildProcesses.StepKeepsSound(child, ChildProcesses.Call);
    case Succeed =>
      if ChildProcesses.Enabled(child, ChildProcesses.Resume(true, true)) {
        ChildProcesses.StepKeepsSound(child, ChildProcesses.Resume(true, true));
      }
    case _ =>
  }

  /** A worker comes to hold a mutex only by acquiring it. */
  lemma GainsByAcquire(s: State, i: nat, step: Step, lock: Lock)
    requires i < |s.workers| && Coherent(s.workers[i]) && Enabled(s, i, step)
    requires Holds(NextWorker(s, i, step), lock) && !Holds(s.workers[i], lock)
    ensures step == Acquire && Wants(s.workers[i]) == Some(lock)
  {
  }

  lemma KeepsExclusive(s: State, i: nat, step: Step)
    requires Inv(s) && i < |s.workers| && Enabled(s, i, step)
    ensures Exclusive(Next(s, i, step))
  {
    var t := Next(s, i, step);
    forall j, k, lock | 0 <= j < k < |t.workers|
      ensures !(Holds(t.workers[j], lock) && Holds(t.workers[k], lock))
    {
      if Holds(t.workers[i], lock) && !Holds(s.workers[i], lock) {
        GainsByAcquire(s, i, step, lock);
      }
    }
  }

  /** What a step does to the table: the account's count changes by so much and nothing else that
      concerns a session. */
  ghost predicate Tallies(before: Table, after: Table, account: AccountName, restrict: bool, change: int) {
    && Admissible(after)
    && after.total == before.total + change
    && CountOf(after, account) == CountOf(before, account) + change
    && (forall a :: a != account ==> CountOf(after, a) == CountOf(before, a))
    && (forall a :: a in before.accounts && CountOf(after, a) > 0 ==>
          a in after.accounts && after.accounts[a].readScope.Some? == before.accounts[a].readScope.Some?)
    && (change == 1 ==> account in after.accounts && after.accounts[account].readScope.Some? == restrict)
  }

  function Change(s: State, i: nat, step: Step): int
    requires i < |s.workers|
  {
    (if Live(NextWorker(s, i, step)) then 1 else 0) - (if Live(s.workers[i]) then 1 else 0)
  }

  lemma DecideTallies(t: Table, account: AccountName, restrict: bool, fails: bool)
    requires Admissible(t)
    ensures var r := Reserve(t, account, restrict, fails);
            Tallies(t, r.0, account, restrict, if r.1 then 1 else 0)
  {
    ReserveKeepsAdmissible(t, account, restrict, fails);
  }

  lemma ReleaseTallies(t: Table, account: AccountName, restrict: bool, fails: bool)
    requires Admissible(t) && CountOf(t, account) > 0
    ensures Tallies(t, Release(t, account, fails).0, account, restrict, -1)
  {
    ReleaseKeepsAdmissible(t, account, fails);
  }

  lemma EnsureTallies(t: Table, account: AccountName, restrict: bool)
    requires Admissible(t)
    ensures Tallies(t, Sessions.Ensure(t, account), account, restrict, 0)
  {
    EnsureKeepsAdmissible(t, account);
  }

  /** The three ways a step touches the table. */
  lemma KeepsTable(s: State, i: nat, step: Step)
    requires Inv(s) && i < |s.workers| && Enabled(s, i, step)
    ensures Tallies(s.table, NextTable(s, i, step), s.workers[i].account, s.workers[i].restrict, Change(s, i, step))
  {
    var w := s.workers[i];
    match step
    case Decide(fails) =>
      DecideTallies(s.table, w.account, w.restrict, fails);
    case ReleaseOne(fails) =>
      LiveSessionsOfAccount(s, i);
      ReleaseTallies(s.table, w.account, w.restrict, fails);
    case EnsureScope =>
      EnsureTallies(s.table, w.account, w.restrict);
    case _ =>
      KeepsLive(s, i, step);
  }

  lemma KeepsLive(s: State, i: nat, step: Step)
    requires i < |s.workers| && !step.Decide? && !step.ReleaseOne? && !step.EnsureScope?
    ensures Change(s, i, step) == 0 && NextTable(s, i, step) == s.table
  {
  }

  lemma KeepsCounted(s: State, i: nat, step: Step)
    requires Inv(s) && i < |s.workers| && Enabled(s, i, step)
    ensures Counted(Next(s, i, step))
  {
    KeepsCoherent(s, i, step);
    KeepsTable(s, i, step);
    if !Live(s.workers[i]) && Live(NextWorker(s, i, step)) {
      LiveGains(s.workers, i, NextWorker(s, i, step));
    } else if Live(s.workers[i]) && !Live(NextWorker(s, i, step)) {
      LiveLoses(s.workers, i, NextWorker(s, i, step));
    } else {
      LiveSame(s.workers, i, NextWorker(s, i, step));
    }
  }

  lemma KeepsAgreed(s: State, i: nat, step: Step)
    requires Inv(s) && i < |s.workers| && Enabled(s, i, step)
    ensures Agreed(Next(s, i, step))
  {
    var t := Next(s, i, step);
    KeepsCoherent(s, i, step);
    KeepsTable(s, i, step);
    KeepsCounted(s, i, step);
    forall k | 0 <= k < |t.workers| && Live(t.workers[k])
      ensures t.workers[k].account in t.table.accounts
      ensures t.table.accounts[t.workers[k].account].readScope.Some? == t.workers[k].restrict
    {
      assert k in LiveOf(t, t.workers[k].account);
      assert CountOf(t.table, t.workers[k].account) > 0;
    }
  }

  lemma LiveSessionsOfAccount(s: State, i: nat)
    requires Counted(s) && i < |s.workers| && Live(s.workers[i])
    ensures CountOf(s.table, s.workers[i].account) > 0 && s.table.total > 0
  {
    assert i in LiveOf(s, s.workers[i].account);
    assert i in LiveSessions(s);
  }

  lemma LiveGains(workers: seq<Worker>, i: nat, w: Worker)
    requires i < |workers| && !Live(workers[i]) && Live(w) && w.account == workers[i].account
    ensures |LiveAmong(workers[i := w])| == |LiveAmong(workers)| + 1
    ensures forall a :: |AccountAmong(workers[i := w], a)| ==
                        |AccountAmong(workers, a)| + if a == w.account then 1 else 0
  {
    assert LiveAmong(workers[i := w]) == LiveAmong(workers) + {i};
    forall a
      ensures |AccountAmong(workers[i := w], a)| == |AccountAmong(workers, a)| + if a == w.account then 1 else 0
    {
      AccountGains(workers, i, w, a);
    }
  }

  lemma AccountGains(workers: seq<Worker>, i: nat, w: Worker, a: AccountName)
    requires i < |workers| && !Live(workers[i]) && Live(w) && w.account == workers[i].account
    ensures |AccountAmong(workers[i := w], a)| == |AccountAmong(workers, a)| + if a == w.account then 1 else 0
  {
    var before, after := AccountAmong(workers, a), AccountAmong(workers[i := w], a);
    if a == w.account {
      assert after - {i} == before && i in after;
    } else {
      assert after == before;
    }
  }

  lemma LiveLoses(workers: seq<Worker>, i: nat, w: Worker)
    requires i < |workers| && Live(workers[i]) && !Live(w) && w.account == workers[i].account
    ensures |LiveAmong(workers[i := w])| == |LiveAmong(workers)| - 1
    ensures forall a :: |AccountAmong(workers[i := w], a)| ==
                        |AccountAmong(workers, a)| - if a == w.account then 1 else 0
  {
    assert LiveAmong(workers[i := w]) == LiveAmong(workers) - {i} && i in LiveAmong(workers);
    forall a
      ensures |AccountAmong(workers[i := w], a)| == |AccountAmong(workers, a)| - if a == w.account then 1 else 0
    {
      if a == w.account {
        assert i in AccountAmong(workers, a);
        assert AccountAmong(workers[i := w], a) == AccountAmong(workers, a) - {i};
      } else {
        assert AccountAmong(workers[i := w], a) == AccountAmong(workers, a);
      }
    }
  }

  lemma LiveSame(workers: seq<Worker>, i: nat, w: Worker)
    requires i < |workers| && Live(workers[i]) == Live(w) && w.account == workers[i].account
    ensures LiveAmong(workers[i := w]) == LiveAmong(workers)
    ensures forall a :: AccountAmong(workers[i := w], a) == AccountAmong(workers, a)
  {
  }

  lemma LookFindsNone(s: State, account: AccountName, k: nat)
    requires Inv(s) && account !in s.table.accounts && k < |s.workers| && s.workers[k].account == account
    ensures !PastLaunch(s.workers[k])
  {
    assert Coherent(s.workers[k]);
  }

  predicate AboutToDelete(w: Worker) {
    w.phase == Checked(false) || w.phase == Deleting
  }

  /** Only acquiring the launch mutex gets a session past it; only a look that finds nothing starts a
      deletion, which holds that mutex. */
  lemma DeletionSteps(s: State, i: nat, step: Step)
    requires i < |s.workers| && Coherent(s.workers[i]) && Enabled(s, i, step)
    ensures PastLaunch(NextWorker(s, i, step)) && !PastLaunch(s.workers[i]) ==> Free(s, LaunchMutex)
    ensures AboutToDelete(NextWorker(s, i, step)) && !AboutToDelete(s.workers[i]) ==>
              s.workers[i].account !in s.table.accounts
    ensures AboutToDelete(s.workers[i]) ==> Holds(s.workers[i], LaunchMutex)
    ensures PastLaunch(NextWorker(s, i, step)) ==> !AboutToDelete(NextWorker(s, i, step))
  {
  }

  lemma KeepsDeletionSafe(s: State, i: nat, step: Step)
    requires Inv(s) && i < |s.workers| && Enabled(s, i, step)
    ensures DeletionSafe(Next(s, i, step))
  {
    var after := s.workers[i := NextWorker(s, i, step)];
    forall c, k | 0 <= c < |after| && 0 <= k < |after| &&
                  AboutToDelete(after[c]) && after[k].account == after[c].account
      ensures !PastLaunch(after[k])
    {
      KeepsPairSafe(s, i, step, c, k);
    }
  }

  lemma KeepsPairSafe(s: State, i: nat, step: Step, c: nat, k: nat)
    requires Inv(s) && i < |s.workers| && Enabled(s, i, step) && c < |s.workers| && k < |s.workers|
    requires var after := s.workers[i := NextWorker(s, i, step)];
             AboutToDelete(after[c]) && after[k].account == after[c].account
    ensures !PastLaunch(s.workers[i := NextWorker(s, i, step)][k])
  {
    KeepsCoherent(s, i, step);
    DeletionSteps(s, i, step);
    if !AboutToDelete(s.workers[c]) {
      LookFindsNone(s, s.workers[c].account, k);
    } else {
      assert Holds(s.workers[c], LaunchMutex);
    }
  }

  lemma StepKeepsInv(s: State, i: nat, step: Step)
    requires Inv(s) && i < |s.workers| && Enabled(s, i, step)
    ensures Inv(Next(s, i, step))
  {
    KeepsCoherent(s, i, step);
    KeepsChild(s, i, step);
    KeepsExclusive(s, i, step);
    KeepsTable(s, i, step);
    KeepsCounted(s, i, step);
    KeepsAgreed(s, i, step);
    KeepsDeletionSafe(s, i, step);
  }

  // ---- runs ----

  datatype Event = Event(worker: nat, step: Step)

  function Run(s: State, events: seq<Event>): State
    requires Legal(s, events)
    decreases |events|
  {
    if |events| == 0 then s else Run(Next(s, events[0].worker, events[0].step), events[1..])
  }

  ghost predicate Legal(s: State, events: seq<Event>)
    decreases |events|
  {
    |events| > 0 ==>
      && events[0].worker < |s.workers| && Enabled(s, events[0].worker, events[0].step)
      && Legal(Next(s, events[0].worker, events[0].step), events[1..])
  }

  lemma {:induction false} RunKeepsInv(s: State, events: seq<Event>)
    requires Inv(s) && Legal(s, events)
    ensures Inv(Run(s, events))
    decreases |events|
  {
    if |events| > 0 {
      StepKeepsInv(s, events[0].worker, events[0].step);
      RunKeepsInv(Next(s, events[0].worker, events[0].step), events[1..]);
    }
  }

  /** Admission: in every reachable state the count is the sum of the per-account counts and at most
      four, no account has more than two sessions, an account's live sessions agree on
      `restrictAccess`, and an entry without sessions has un-restored ACEs. */
  lemma AdmissionInvariant(start: State, events: seq<Event>)
    requires Initial(start) && Legal(start, events)
    ensures var s := Run(start, events);
            && |LiveSessions(s)| == s.table.total == Sum(s.table.accounts) && s.table.total <= MAXIMUM_SESSIONS
            && (forall a :: |LiveOf(s, a)| == CountOf(s.table, a) <= MAXIMUM_SESSIONS_PER_ACCOUNT)
            && (forall i, j :: 0 <= i < |s.workers| && 0 <= j < |s.workers| && Live(s.workers[i]) &&
                               Live(s.workers[j]) && s.workers[i].account == s.workers[j].account ==>
                                 s.workers[i].restrict == s.workers[j].restrict)
            && (forall a :: a in s.table.accounts && LiveOf(s, a) == {} ==>
                  s.table.accounts[a].readScope == Some(Scope(true)))
  {
    InitialInv(start);
    RunKeepsInv(start, events);
  }

  /** The step runs `BrokerReadScope::Restore` on the account's scope. */
  predicate Restores(s: State, i: nat, step: Step)
    requires i < |s.workers|
  {
    var w := s.workers[i];
    && w.account in s.table.accounts && s.table.accounts[w.account].readScope.Some?
    && match step
       case Decide(_) => MayReserve(s.table, w.account, w.restrict) && CountOf(s.table, w.account) == 0
       case ReleaseOne(_) => CountOf(s.table, w.account) == 1
       case _ => false
  }

  /** The step of its child that a worker's step is. */
  function ChildStep(w: Worker, step: Step): Option<ChildProcesses.Step> {
    match step
    case Kernel(k) => Some(k)
    case Make(m) => Some(m)
    case EndSession => Some(ChildProcesses.Call)
    case Attempt(a) => Some(a)
    case Succeed => if ChildProcesses.Enabled(w.child, ChildProcesses.Resume(true, true))
                    then Some(ChildProcesses.Resume(true, true)) else None
    case _ => None
  }

  lemma StepMovesChild(s: State, i: nat, step: Step)
    requires i < |s.workers| && Enabled(s, i, step)
    ensures var w, c := s.workers[i], ChildStep(s.workers[i], step);
            && (c.Some? ==> ChildProcesses.Enabled(w.child, c.value))
            && NextWorker(s, i, step).child == (if c.Some? then ChildProcesses.Next(w.child, c.value) else w.child)
            && (c == Some(ChildProcesses.Abandon(false)) <==> step == Make(ChildProcesses.Abandon(false)))
            && (c == Some(ChildProcesses.RootExits) <==> step == Kernel(ChildProcesses.RootExits))
  {
  }

  /** What a run does to one worker's child. */
  lemma {:induction false} RunMovesChild(s: State, events: seq<Event>, i: nat) returns (child: seq<ChildProcesses.Step>)
    requires Legal(s, events) && i < |s.workers|
    ensures |Run(s, events).workers| == |s.workers| && ChildProcesses.Legal(s.workers[i].child, child)
    ensures ChildProcesses.Run(s.workers[i].child, child) == Run(s, events).workers[i].child
    ensures ChildProcesses.Abandon(false) in child <==> Event(i, Make(ChildProcesses.Abandon(false))) in events
    ensures ChildProcesses.RootExits in child <==> Event(i, Kernel(ChildProcesses.RootExits)) in events
    decreases |events|
  {
    child := [];
    if |events| > 0 {
      var e := events[0];
      StepMovesChild(s, e.worker, e.step);
      var more := RunMovesChild(Next(s, e.worker, e.step), events[1..], i);
      child := more;
      if e.worker == i && ChildStep(s.workers[i], e.step).Some? {
        child := [ChildStep(s.workers[i], e.step).value] + more;
        assert child[1..] == more;
      }
    }
  }

  /** Nothing of the worker's tree can run, and a process is left exactly if the creation of its child
      failed late, its process could not be terminated, and it has not exited since. */
  predicate TreeGone(w: Worker, i: nat, events: seq<Event>) {
    && !ChildProcesses.CanRun(w.child.tree)
    && (ChildProcesses.Alive(w.child.tree) != 0 <==>
          && Event(i, Make(ChildProcesses.Abandon(false))) in events
          && Event(i, Kernel(ChildProcesses.RootExits)) !in events)
  }

  lemma GoneTree(start: State, events: seq<Event>, i: nat)
    requires Initial(start) && Legal(start, events) && i < |start.workers|
    requires |Run(start, events).workers| == |start.workers| && ChildProcesses.Over(Run(start, events).workers[i].child)
    ensures TreeGone(Run(start, events).workers[i], i, events)
  {
    var child := RunMovesChild(start, events, i);
    ChildProcesses.OverMeansGone(start.workers[i].child, child);
  }

  lemma {:induction false} SameWorkers(s: State, events: seq<Event>)
    requires Legal(s, events)
    ensures |Run(s, events).workers| == |s.workers|
    decreases |events|
  {
    if |events| > 0 {
      SameWorkers(Next(s, events[0].worker, events[0].step), events[1..]);
    }
  }

  /** Lifetime safety of the scope: in every run, a scope is restored only when no other session of
      its account is live and the releasing session's own job tree is gone. */
  lemma ScopeOutlivesSessions(start: State, events: seq<Event>, i: nat, step: Step)
    requires Initial(start) && Legal(start, events)
    requires var s := Run(start, events); i < |s.workers| && Enabled(s, i, step) && Restores(s, i, step)
    ensures var s := Run(start, events);
            && LiveOf(s, s.workers[i].account) <= {i}
            && TreeGone(s.workers[i], i, events)
  {
    InitialInv(start);
    RunKeepsInv(start, events);
    var s := Run(start, events);
    SameWorkers(start, events);
    GoneTree(start, events, i);
    var live := LiveOf(s, s.workers[i].account);
    assert Coherent(s.workers[i]);
    if step.ReleaseOne? {
      assert i in live;
      assert |live - {i}| == 0;
    }
  }

  /** Lifetime safety of the account: in every run, `registration_.Delete` runs only while no session
      of the account is past the launch mutex and unreleased. */
  lemma DeletionSparesSessions(start: State, events: seq<Event>, i: nat, k: nat)
    requires Initial(start) && Legal(start, events)
    requires var s := Run(start, events);
             i < |s.workers| && Enabled(s, i, Delete) && k < |s.workers| && s.workers[k].account == s.workers[i].account
    ensures !PastLaunch(Run(start, events).workers[k])
  {
    InitialInv(start);
    RunKeepsInv(start, events);
  }

  /** Exactly once: a release happens only for a live session whose job tree is gone, and a finished
      worker has released as often as it was admitted. */
  lemma ReleasedExactlyOnce(start: State, events: seq<Event>, i: nat)
    requires Initial(start) && Legal(start, events) && i < |Run(start, events).workers|
    ensures var w := Run(start, events).workers[i];
            && (forall fails :: Enabled(Run(start, events), i, ReleaseOne(fails)) ==>
                  Live(w) && TreeGone(w, i, events))
            && w.releases <= (if w.reserved then 1 else 0)
            && (w.phase.Finished? ==> w.releases == if w.reserved then 1 else 0)
  {
    InitialInv(start);
    RunKeepsInv(start, events);
    var w := Run(start, events).workers[i];
    assert Coherent(w) && ChildFits(w);
    if w.phase.FailReleasing? || w.phase.EndReleasing? {
      SameWorkers(start, events);
      GoneTree(start, events, i);
    }
  }

  /** So a reservation outlives the whole tree unless terminating a process fails. */
  lemma ReleasedAfterWholeTree(start: State, events: seq<Event>, i: nat, fails: bool)
    requires Initial(start) && Legal(start, events) && i < |Run(start, events).workers|
    requires Enabled(Run(start, events), i, ReleaseOne(fails))
    requires Event(i, Make(ChildProcesses.Abandon(false))) !in events
    ensures ChildProcesses.Alive(Run(start, events).workers[i].child.tree) == 0
  {
    ReleasedExactlyOnce(start, events, i);
  }

  // ---- deadlock freedom ----

  ghost predicate Blocked(s: State, i: nat)
    requires i < |s.workers|
  {
    Wants(s.workers[i]).Some? && !Free(s, Wants(s.workers[i]).value)
  }

  /** One strict order: a worker that wants a mutex holds only lower ones. */
  lemma MutexOrder(w: Worker, lock: Lock, held: Lock)
    requires Coherent(w) && Wants(w) == Some(lock) && Holds(w, held)
    ensures Rank(held) < Rank(lock)
  {
  }

  function Distance(w: Worker): nat {
    if Wants(w).Some? then 4 - Rank(Wants(w).value) else 0
  }

  lemma OwnerIsCloser(w: Worker, lock: Lock)
    requires Coherent(w) && Holds(w, lock)
    ensures !w.phase.Finished? && Distance(w) < 4 - Rank(lock)
  {
    if Wants(w).Some? {
      MutexOrder(w, Wants(w).value, lock);
    }
  }

  /** Following the owners of wanted mutexes ends at a worker that is not blocked. */
  lemma {:induction false} Unblocked(s: State, i: nat) returns (j: nat)
    requires Inv(s) && i < |s.workers| && !s.workers[i].phase.Finished?
    ensures j < |s.workers| && !s.workers[j].phase.Finished? && !Blocked(s, j)
    decreases Distance(s.workers[i])
  {
    if !Blocked(s, i) {
      return i;
    }
    var lock := Wants(s.workers[i]).value;
    var k :| 0 <= k < |s.workers| && Holds(s.workers[k], lock);
    OwnerIsCloser(s.workers[k], lock);
    j := Unblocked(s, k);
  }

  function PhaseRank(phase: Phase): nat {
    match phase
    case Start => 16 case Reserving => 15 case Reserved => 14 case Rejected => 1 case Waiting => 13
    case Launching => 12 case Failing => 9 case FailWaiting => 8 case FailReleasing => 7 case FailReleased => 6
    case FailExit => 5
    case Serving => 11 case Trying => 10 case Retrying => 9
    case Ending => 8 case EndReleasing => 7 case EndReleased => 6
    case ConfigureStart => 16 case Configuring => 15 case Checking => 14 case Checked(_) => 13 case Deleting => 12
    case ConfigureExit => 11
    case Finished => 0
  }

  /** How much a worker still has to do if nothing but its end is wanted. */
  function Potential(w: Worker): nat {
    PhaseRank(w.phase) + ChildProcesses.Effort(w.child) + (if w.asks.Some? then 2 else 0)
    + match w.inner case Outside => 0 case InScope => 1 case InLog => 1 case InScopeLog => 2
  }

  /** A worker that is not blocked can take a step towards its end. */
  lemma UnblockedMoves(s: State, i: nat) returns (step: Step)
    requires i < |s.workers| && Coherent(s.workers[i]) && ChildFits(s.workers[i])
    requires !s.workers[i].phase.Finished? && !Blocked(s, i)
    ensures Enabled(s, i, step) && Potential(NextWorker(s, i, step)) < Potential(s.workers[i])
  {
    var w := s.workers[i];
    if Wants(w).Some? {
      return Acquire;
    }
    if w.inner != Outside {
      return Leave;
    }
    if w.phase.Failing? || w.phase.Trying? || w.phase.Retrying? {
      step := EndingMove(w);
      EndingMoves(s, i, step);
    } else {
      step := PhaseMoves(s, i);
    }
  }

  lemma PhaseMoves(s: State, i: nat) returns (step: Step)
    requires i < |s.workers| && Coherent(s.workers[i]) && ChildFits(s.workers[i])
    requires !s.workers[i].phase.Finished? && Wants(s.workers[i]).None? && s.workers[i].inner == Outside
    requires !s.workers[i].phase.Failing? && !s.workers[i].phase.Trying? && !s.workers[i].phase.Retrying?
    ensures Enabled(s, i, step) && Potential(NextWorker(s, i, step)) < Potential(s.workers[i])
  {
    var w := s.workers[i];
    match w.phase {
      case Reserving => step := Decide(false);
      case Launching =>
        step := if w.child.creating then Make(ChildProcesses.Abandon(w.child.tree.root.Exited?)) else Fail;
      case Serving => step := EndSession;
      case FailReleasing => step := ReleaseOne(false);
      case EndReleasing => step := ReleaseOne(false);
      case Checking => step := Look;
      case Deleting => step := Delete;
      case _ => step := Unlock;
    }
  }

  lemma EndingMoves(s: State, i: nat, step: Step)
    requires i < |s.workers| && ChildFits(s.workers[i])
    requires var w := s.workers[i]; (w.phase.Failing? || w.phase.Trying? || w.phase.Retrying?) && step == EndingMove(w)
    ensures Enabled(s, i, step) && Potential(NextWorker(s, i, step)) < Potential(s.workers[i])
  {
  }

  function EndingMove(w: Worker): (step: Step)
    requires ChildFits(w) && (w.phase.Failing? || w.phase.Trying? || w.phase.Retrying?)
    ensures step.Confirmed? ==> ChildProcesses.Over(w.child)
    ensures step.Unconfirmed? ==> w.phase.Trying? && w.child.wait.Outside? && !ChildProcesses.Over(w.child)
    ensures step.Kernel? ==> ChildProcesses.IsKernel(step.child)
    ensures step.Attempt? ==> ChildProcesses.IsWait(step.child) && (step.child.Call? ==> !w.phase.Trying?)
    ensures step.Kernel? || step.Attempt? ==>
              ChildProcesses.Enabled(w.child, step.child) &&
              ChildProcesses.Effort(ChildProcesses.Next(w.child, step.child)) < ChildProcesses.Effort(w.child)
    ensures step.Confirmed? || step.Unconfirmed? || step.Kernel? || step.Attempt?
  {
    if ChildProcesses.Over(w.child) then Confirmed
    else if w.phase.Trying? && w.child.wait.Outside? then Unconfirmed
    else
      var next := ChildProcesses.NextAdvance(w.child);
      if ChildProcesses.IsKernel(next) then Kernel(next) else Attempt(next)
  }

  /** Deadlock freedom: while any worker is unfinished, some worker can move towards its end. */
  lemma NeverStuck(start: State, events: seq<Event>, i: nat)
    requires Initial(start) && Legal(start, events)
    requires i < |Run(start, events).workers| && !Run(start, events).workers[i].phase.Finished?
    ensures var s := Run(start, events);
            exists j, step :: 0 <= j < |s.workers| && Enabled(s, j, step) &&
                              Potential(NextWorker(s, j, step)) < Potential(s.workers[j])
  {
    InitialInv(start);
    RunKeepsInv(start, events);
    var s := Run(start, events);
    var j := Unblocked(s, i);
    var step := UnblockedMoves(s, j);
  }

  // ---- every reachable state can be wound up ----

  function Work(workers: seq<Worker>): nat {
    if workers == [] then 0 else Potential(workers[0]) + Work(workers[1..])
  }

  lemma {:induction false} WorkUpdated(workers: seq<Worker>, i: nat, w: Worker)
    requires i < |workers|
    ensures Work(workers[i := w]) == Work(workers) - Potential(workers[i]) + Potential(w)
  {
    if i == 0 {
      assert workers[0 := w][1..] == workers[1..];
    } else {
      assert workers[i := w][1..] == workers[1..][i - 1 := w];
      WorkUpdated(workers[1..], i - 1, w);
    }
  }

  predicate AllFinished(s: State) {
    forall i :: 0 <= i < |s.workers| ==> s.workers[i].phase.Finished?
  }

  /** From every state of every run all workers can still finish, whatever mutexes are held and however
      many processes are left. */
  lemma {:induction false} AllCanFinish(s: State) returns (events: seq<Event>)
    requires Inv(s)
    ensures Legal(s, events) && AllFinished(Run(s, events))
    decreases Work(s.workers)
  {
    events := [];
    if !AllFinished(s) {
      var i :| 0 <= i < |s.workers| && !s.workers[i].phase.Finished?;
      var j := Unblocked(s, i);
      var step := UnblockedMoves(s, j);
      WorkUpdated(s.workers, j, NextWorker(s, j, step));
      StepKeepsInv(s, j, step);
      var more := AllCanFinish(Next(s, j, step));
      events := [Event(j, step)] + more;
      assert events[1..] == more;
    }
  }
}
