/** `BrokerChildProcess` (src/broker/BrokerProcessLauncher.cpp): a child, its descendants in the job, and
    the broker's attempts to end them all. Waits may time out and job queries may fail. */
module ChildProcesses {
  datatype Root = Absent | Suspended | Running | Exited

  /** The processes of a session: the created one, and its living descendants. */
  datatype Tree = Tree(root: Root, others: nat)

  function Alive(t: Tree): nat {
    (if t.root.Suspended? || t.root.Running? then 1 else 0) + t.others
  }

  /** Some process of the tree can run. */
  predicate CanRun(t: Tree) {
    t.root.Running? || t.others > 0
  }

  /** Where the broker is in `TerminateAndWaitForExit`. */
  datatype Wait = Outside | Terminating | AwaitingRoot | AwaitingTree

  /** `job` and `tracked` are the handles `job_` and `process_`; while `creating`, the new process is still
      in the hands of `CreateSuspendedInJob`. */
  datatype Child = Child(job: bool, creating: bool, tracked: bool, tree: Tree, wait: Wait)

  const NO_CHILD := Child(false, false, false, Tree(Absent, 0), Outside)

  datatype Step =
    // the processes and the kernel
    | Spawn | RootExits | OtherExits
    // making the child
    | OpenJob
    | Create                       // created suspended, to be assigned to the job
    | Keep                         // handed over to the session
    // The creation fails late: `SuspendedProcess` terminates the process and waits for it, or cannot; then
    // `Reset`. A process already assigned is killed when the job closes, but not waited for: `RootExits`.
    | Abandon(terminated: bool)
    | Drop                         // `Reset` before there is a process
    | Resume(ok: bool, runs: bool)
    // `TerminateAndWaitForExit`
    | Call
    | TerminateJob
    | RootSignaled | RootTimesOut
    | QueryEmpty                   // no active process: `Reset`, and true is returned
    | QueryBusy | QueryTimesOut | QueryFails

  predicate Enabled(c: Child, step: Step) {
    match step
    case Spawn => CanRun(c.tree)
    case RootExits => c.tree.root.Suspended? || c.tree.root.Running?
    case OtherExits => c.tree.others > 0
    case OpenJob => !c.job && c.tree.root.Absent?
    case Create => c.job && c.tree.root.Absent? && c.wait.Outside?
    case Keep => c.creating
    case Abandon(terminated) => c.creating && (terminated ==> c.tree.root.Exited?)
    case Drop => c.job && c.tree.root.Absent? && c.wait.Outside?
    case Resume(ok, runs) => c.tracked && c.tree.root.Suspended? && c.wait.Outside? && (ok ==> runs)
    case Call => c.job && !c.creating && c.wait.Outside?
    case TerminateJob => c.wait.Terminating?
    case RootSignaled => c.wait.AwaitingRoot? && !c.tree.root.Suspended? && !c.tree.root.Running?
    case RootTimesOut => c.wait.AwaitingRoot?
    case QueryEmpty => c.wait.AwaitingTree? && Alive(c.tree) == 0
    case QueryBusy => c.wait.AwaitingTree? && Alive(c.tree) > 0
    case QueryTimesOut => c.wait.AwaitingTree? && Alive(c.tree) > 0
    case QueryFails => c.wait.AwaitingTree?
  }

  function Next(c: Child, step: Step): Child
    requires Enabled(c, step)
  {
    match step
    case Spawn => c.(tree := c.tree.(others := c.tree.others + 1))
    case RootExits => c.(tree := c.tree.(root := Exited))
    case OtherExits => c.(tree := c.tree.(others := c.tree.others - 1))
    case OpenJob => c.(job := true)
    case Create => c.(creating := true, tree := c.tree.(root := Suspended))
    case Keep => c.(creating := false, tracked := true)
    case Abandon(_) => Reset(c)
    case Drop => Reset(c)
    case Resume(_, runs) => if runs then c.(tree := c.tree.(root := Running)) else c
    case Call => c.(wait := Terminating)
    case TerminateJob => c.(wait := if c.tracked then AwaitingRoot else AwaitingTree)
    case RootSignaled => c.(wait := AwaitingTree)
    case RootTimesOut => c.(wait := Outside)
    case QueryEmpty => Reset(c)
    case QueryBusy => c
    case QueryTimesOut => c.(wait := Outside)
    case QueryFails => c.(wait := Outside)
  }

  function Reset(c: Child): Child {
    c.(job := false, creating := false, tracked := false, wait := Outside)
  }

  /** Steps nobody decides to take. */
  predicate IsKernel(step: Step) {
    step.Spawn? || step.RootExits? || step.OtherExits?
  }

  /** Steps inside `TerminateAndWaitForExit`, its call included. */
  predicate IsWait(step: Step) {
    || step.Call? || step.TerminateJob? || step.RootSignaled? || step.RootTimesOut?
    || step.QueryEmpty? || step.QueryBusy? || step.QueryTimesOut? || step.QueryFails?
  }

  /** Once the job handle is closed nothing of the tree can run; only a process that was never resumed,
      and could not be terminated when its creation failed, may still be there. */
  predicate Sound(c: Child) {
    && (!c.job ==> !CanRun(c.tree) && !c.creating && !c.tracked && c.wait.Outside?)
    && (c.tree.root.Absent? || c.tree.root.Suspended? ==> c.tree.others == 0)
    && (c.tree.root.Absent? ==> !c.creating && !c.tracked)
    && (c.creating ==> !c.tracked && !CanRun(c.tree) && c.wait.Outside?)
  }

  lemma StepKeepsSound(c: Child, step: Step)
    requires Sound(c) && Enabled(c, step)
    ensures Sound(Next(c, step))
  {
  }

  /** A session may be given up: its job handle is closed. */
  predicate Over(c: Child) {
    !c.job
  }

  /** Nothing but opening a new job undoes that, and nothing comes to life any more. */
  lemma OverStays(c: Child, step: Step)
    requires Sound(c) && Over(c) && Enabled(c, step) && !step.OpenJob?
    ensures Over(Next(c, step)) && Alive(Next(c, step).tree) <= Alive(c.tree)
  {
  }

  /** A call of `TerminateAndWaitForExit` returns true only when no process is alive. */
  lemma ReturnsTrueWhenEmpty(c: Child, step: Step)
    requires Sound(c) && Enabled(c, step) && IsWait(step) && Over(Next(c, step)) && !Over(c)
    ensures Alive(Next(c, step).tree) == 0
  {
  }

  // ---- what is left when it is over ----

  /** The process whose creation failed is still there. */
  predicate Stranded(c: Child) {
    Over(c) && c.tree.root.Suspended?
  }

  /** A step strands a process only by abandoning one it could not terminate; only its exit ends that. */
  lemma StepStrands(c: Child, step: Step)
    requires Sound(c) && Enabled(c, step)
    ensures Stranded(Next(c, step)) <==>
            (Stranded(c) && step != RootExits) || (step == Abandon(false) && c.tree.root.Suspended?)
    ensures c.tree.root.Exited? ==> Next(c, step).tree.root.Exited?
    ensures !c.tree.root.Exited? && Next(c, step).tree.root.Exited? ==> step == RootExits
    ensures step == RootExits ==> Next(c, step).tree.root.Exited?
    ensures Stranded(c) ==> step != Abandon(false)
    ensures step == Abandon(false) ==> c.tree.root.Suspended? || c.tree.root.Exited?
  {
  }

  predicate Legal(c: Child, steps: seq<Step>)
    decreases |steps|
  {
    |steps| > 0 ==> Enabled(c, steps[0]) && Legal(Next(c, steps[0]), steps[1..])
  }

  function Run(c: Child, steps: seq<Step>): Child
    requires Legal(c, steps)
    decreases |steps|
  {
    if |steps| == 0 then c else Run(Next(c, steps[0]), steps[1..])
  }

  lemma {:induction false} RunKeepsSound(c: Child, steps: seq<Step>)
    requires Sound(c) && Legal(c, steps)
    ensures Sound(Run(c, steps))
    ensures c.tree.root.Exited? ==> Run(c, steps).tree.root.Exited?
    decreases |steps|
  {
    if |steps| > 0 {
      StepKeepsSound(c, steps[0]);
      StepStrands(c, steps[0]);
      RunKeepsSound(Next(c, steps[0]), steps[1..]);
    }
  }

  lemma {:induction false} StrandedStays(c: Child, steps: seq<Step>)
    requires Sound(c) && Stranded(c) && Legal(c, steps)
    ensures Stranded(Run(c, steps)) <==> RootExits !in steps
    decreases |steps|
  {
    if |steps| > 0 {
      var next, rest := Next(c, steps[0]), steps[1..];
      StepKeepsSound(c, steps[0]);
      StepStrands(c, steps[0]);
      if steps[0] == RootExits {
        RunKeepsSound(next, rest);
      } else {
        StrandedStays(next, rest);
      }
    }
  }

  /** Over whole runs: a process is stranded exactly if one was abandoned without being terminated and
      has not exited since. */
  lemma {:induction false} RunStrands(c: Child, steps: seq<Step>)
    requires Sound(c) && !Stranded(c) && !c.tree.root.Exited? && Legal(c, steps)
    ensures Stranded(Run(c, steps)) <==> Abandon(false) in steps && RootExits !in steps
    decreases |steps|
  {
    if |steps| > 0 {
      var next, rest := Next(c, steps[0]), steps[1..];
      StepKeepsSound(c, steps[0]);
      StepStrands(c, steps[0]);
      if steps[0] == RootExits {
        RunKeepsSound(next, rest);
      } else if steps[0] == Abandon(false) {
        StrandedStays(next, rest);
      } else {
        RunStrands(next, rest);
      }
    }
  }

  /** What `Over` guarantees: nothing of the tree can run, and a process is left exactly if the creation
      of the child failed late, its process could not be terminated, and it has not exited since. */
  lemma OverMeansGone(c: Child, steps: seq<Step>)
    requires Sound(c) && c.tree.root.Absent? && Legal(c, steps) && Over(Run(c, steps))
    ensures !CanRun(Run(c, steps).tree)
    ensures Alive(Run(c, steps).tree) != 0 <==> Abandon(false) in steps && RootExits !in steps
  {
    RunKeepsSound(c, steps);
    RunStrands(c, steps);
  }

  // ---- the loop gets there ----

  /** A step that brings the end of the tree nearer. */
  predicate Advances(step: Step) {
    || step.RootExits? || step.OtherExits? || step.Call? || step.TerminateJob? || step.RootSignaled?
    || step.QueryEmpty? || step.Abandon?
  }

  function Effort(c: Child): nat {
    2 * Alive(c.tree)
    + (if !c.job then 0 else if c.creating then 8
       else match c.wait case Outside => 4 case Terminating => 3 case AwaitingRoot => 2 case AwaitingTree => 1)
  }

  /** While the job is open, and once terminating its processes makes them exit, the end is always within
      reach. */
  function NextAdvance(c: Child): (step: Step)
    requires Sound(c) && !Over(c)
    ensures Enabled(c, step) && Advances(step) && Effort(Next(c, step)) < Effort(c)
  {
    if c.creating then Abandon(c.tree.root.Exited?)
    else match c.wait
      case Outside => Call
      case Terminating => TerminateJob
      case AwaitingRoot => if c.tree.root.Suspended? || c.tree.root.Running? then RootExits else RootSignaled
      case AwaitingTree =>
        if c.tree.root.Suspended? || c.tree.root.Running? then RootExits
        else if c.tree.others > 0 then OtherExits
        else QueryEmpty
  }
}
