/** Concurrent leases of the interactive desktop: launchers that read and rewrite the DACLs of three
    session objects under one pipe lock (src/launcher/InteractiveDesktopAclLease.cpp). */
module DesktopLease {
  import opened Wrappers
  import opened Acl

  datatype Object = WindowStation | Desktop | NamedObjects

  const ALL_OBJECTS: set<Object> := {WindowStation, Desktop, NamedObjects}

  /** The rights a lease grants on each object. */
  function GrantMask(o: Object): Mask {
    match o
    case WindowStation => 0x2 | 0x4 | 0x20 | 0x40 | 0x100 | 0x200 | 0x20000
    case Desktop => 0x4 | 0x2 | 0x40 | 0x8 | 0x1 | 0x80 | 0x20000
    case NamedObjects => 0xF
  }

  /** `IsExactLeaseAce`. */
  predicate IsGrant(ace: Ace, sid: Sid, o: Object) {
    ace.aceType == Allowed && ace.flags == 0 && ace.mask == GrantMask(o) && ace.sid == sid
  }

  function GrantSlot(sid: Sid, o: Object): Slot {
    Slot(Ace(Allowed, 0, GrantMask(o), sid), Some(sid))
  }

  /** `CountLeaseAces`. */
  function Count(dacl: Dacl, sid: Sid, o: Object): nat {
    if dacl == [] then 0
    else Count(dacl[..|dacl| - 1], sid, o) + if IsGrant(dacl[|dacl| - 1].ace, sid, o) then 1 else 0
  }

  /** The ACEs that `BuildDaclWithoutLease` copies. */
  function Without(dacl: Dacl, sid: Sid, o: Object): Dacl {
    if dacl == [] then []
    else
      var last := dacl[|dacl| - 1];
      Without(dacl[..|dacl| - 1], sid, o) + if IsGrant(last.ace, sid, o) then [] else [last]
  }

  /** `SetEntriesInAclW` for a SID without an ACE of its own: one new ACE somewhere. */
  function Inserted(dacl: Dacl, at: nat, slot: Slot): Dacl
    requires at <= |dacl|
  {
    dacl[..at] + [slot] + dacl[at..]
  }

  // ---- counting and copying ----

  lemma {:induction false} CountConcat(a: Dacl, b: Dacl, sid: Sid, o: Object)
    ensures Count(a + b, sid, o) == Count(a, sid, o) + Count(b, sid, o)
  {
    if b == [] {
      assert a + b == a;
    } else {
      assert (a + b)[..|a + b| - 1] == a + b[..|b| - 1];
      CountConcat(a, b[..|b| - 1], sid, o);
    }
  }

  lemma CountOne(slot: Slot, sid: Sid, o: Object)
    ensures Count([slot], sid, o) == if IsGrant(slot.ace, sid, o) then 1 else 0
  {
    assert Count([slot][..0], sid, o) == 0;
  }

  lemma CountInserted(dacl: Dacl, at: nat, slot: Slot, sid: Sid, o: Object)
    requires at <= |dacl|
    ensures Count(Inserted(dacl, at, slot), sid, o) ==
            Count(dacl, sid, o) + if IsGrant(slot.ace, sid, o) then 1 else 0
  {
    CountConcat(dacl[..at] + [slot], dacl[at..], sid, o);
    CountConcat(dacl[..at], [slot], sid, o);
    CountOne(slot, sid, o);
    assert dacl == dacl[..at] + dacl[at..];
    CountConcat(dacl[..at], dacl[at..], sid, o);
  }

  lemma {:induction false} CountWithout(dacl: Dacl, gone: Sid, sid: Sid, o: Object)
    ensures Count(Without(dacl, gone, o), sid, o) == if gone == sid then 0 else Count(dacl, sid, o)
  {
    if dacl != [] {
      var front, last := dacl[..|dacl| - 1], dacl[|dacl| - 1];
      CountWithout(front, gone, sid, o);
      CountConcat(Without(front, gone, o), if IsGrant(last.ace, gone, o) then [] else [last], sid, o);
      CountOne(last, sid, o);
    }
  }

  lemma {:induction false} WithoutMembers(dacl: Dacl, sid: Sid, o: Object)
    ensures forall slot :: slot in Without(dacl, sid, o) ==> slot in dacl
  {
    if dacl != [] {
      WithoutMembers(dacl[..|dacl| - 1], sid, o);
    }
  }

  /** With exactly one grant, copying takes out that ACE and keeps the rest in order. */
  lemma {:induction false} WithoutIsRemoval(dacl: Dacl, sid: Sid, o: Object) returns (k: nat)
    requires Count(dacl, sid, o) == 1
    ensures k < |dacl| && IsGrant(dacl[k].ace, sid, o) && Without(dacl, sid, o) == dacl[..k] + dacl[k + 1..]
  {
    var front, last := dacl[..|dacl| - 1], dacl[|dacl| - 1];
    if IsGrant(last.ace, sid, o) {
      k := |dacl| - 1;
      WithoutNothing(front, sid, o);
    } else {
      k := WithoutIsRemoval(front, sid, o);
      assert dacl[..k] == front[..k] && dacl[k + 1..] == front[k + 1..] + [last];
    }
  }

  lemma {:induction false} WithoutNothing(dacl: Dacl, sid: Sid, o: Object)
    requires Count(dacl, sid, o) == 0
    ensures Without(dacl, sid, o) == dacl
  {
    if dacl != [] {
      WithoutNothing(dacl[..|dacl| - 1], sid, o);
      assert dacl == dacl[..|dacl| - 1] + [dacl[|dacl| - 1]];
    }
  }

  /** The loop of `BuildDaclWithoutLease`: None stands for ERROR_INVALID_DATA. */
  method BuildDaclWithoutLease(current: Dacl, sid: Sid, o: Object) returns (replacement: Option<Dacl>)
    ensures replacement == if Count(current, sid, o) == 1 then Some(Without(current, sid, o)) else None
  {
    var leaseCount := 0;
    for index := 0 to |current|
      invariant leaseCount == Count(current[..index], sid, o)
    {
      assert current[..index + 1][..index] == current[..index];
      if IsGrant(current[index].ace, sid, o) {
        leaseCount := leaseCount + 1;
      }
    }
    assert current[..|current|] == current;
    if leaseCount != 1 {
      return None;
    }
    var storage: Dacl := [];
    for index := 0 to |current|
      invariant storage == Without(current[..index], sid, o)
    {
      assert current[..index + 1][..index] == current[..index];
      if !IsGrant(current[index].ace, sid, o) {
        storage := storage + [current[index]];
      }
    }
    return Some(storage);
  }

  // ---- launchers under the lock ----

  datatype Task = Apply(o: Object) | Remove(o: Object)

  /** Between `Entered` and `Outside` a launcher holds the pipe lock. */
  datatype Phase = Outside | Entered(task: Task) | HasRead(task: Task, snapshot: Dacl) | HasWritten

  datatype Launcher = Launcher(sid: Sid, leased: set<Object>, phase: Phase, dead: bool)

  datatype State = State(dacls: map<Object, Dacl>, launchers: seq<Launcher>)

  predicate HoldsLock(l: Launcher) {
    !l.phase.Outside?
  }

  ghost predicate LockFree(s: State) {
    forall i :: 0 <= i < |s.launchers| ==> !HoldsLock(s.launchers[i])
  }

  datatype Step =
    | Enter(i: nat, task: Task)        // the first pipe instance is created
    | ReadDacl(i: nat)
    | WriteDacl(i: nat, at: nat)       // atomic; `at` is where an added ACE lands
    | Leave(i: nat)                    // after a write, or giving up on any error
    | Die(i: nat)                      // the launcher's process ends and the kernel closes its pipe
    | ForeignInsert(o: Object, at: nat, ace: Ace)
    | ForeignRemove(o: Object, at: nat)

  predicate Wanted(l: Launcher, task: Task) {
    match task
    case Apply(o) => o !in l.leased
    case Remove(o) => o in l.leased
  }

  predicate MayWrite(l: Launcher, at: nat) {
    && l.phase.HasRead?
    && match l.phase.task
       case Apply(o) => Count(l.phase.snapshot, l.sid, o) == 0 && at <= |l.phase.snapshot|
       case Remove(o) => Count(l.phase.snapshot, l.sid, o) == 1
  }

  ghost predicate Enabled(s: State, step: Step) {
    match step
    case Enter(i, task) =>
      i < |s.launchers| && !s.launchers[i].dead && LockFree(s) && Wanted(s.launchers[i], task)
    case ReadDacl(i) =>
      i < |s.launchers| && s.launchers[i].phase.Entered? && s.launchers[i].phase.task.o in s.dacls
    case WriteDacl(i, at) => i < |s.launchers| && MayWrite(s.launchers[i], at)
    case Leave(i) => i < |s.launchers| && HoldsLock(s.launchers[i])
    case Die(i) => i < |s.launchers|
    case ForeignInsert(o, at, ace) =>
      o in s.dacls && LockFree(s) && at <= |s.dacls[o]| &&
      forall i :: 0 <= i < |s.launchers| ==> !IsGrant(ace, s.launchers[i].sid, o)
    case ForeignRemove(o, at) =>
      o in s.dacls && LockFree(s) && at < |s.dacls[o]| && s.dacls[o][at].lease == None
  }

  function Written(l: Launcher, at: nat): Dacl
    requires MayWrite(l, at)
  {
    match l.phase.task
    case Apply(o) => Inserted(l.phase.snapshot, at, GrantSlot(l.sid, o))
    case Remove(o) => Without(l.phase.snapshot, l.sid, o)
  }

  function AfterWrite(l: Launcher): Launcher
    requires l.phase.HasRead?
  {
    match l.phase.task
    case Apply(o) => l.(leased := l.leased + {o}, phase := HasWritten)
    case Remove(o) => l.(leased := l.leased - {o}, phase := HasWritten)
  }

  ghost function Next(s: State, step: Step): State
    requires Enabled(s, step)
  {
    match step
    case Enter(i, task) => s.(launchers := s.launchers[i := s.launchers[i].(phase := Entered(task))])
    case ReadDacl(i) =>
      var task := s.launchers[i].phase.task;
      s.(launchers := s.launchers[i := s.launchers[i].(phase := HasRead(task, s.dacls[task.o]))])
    case WriteDacl(i, at) =>
      var l := s.launchers[i];
      State(s.dacls[l.phase.task.o := Written(l, at)], s.launchers[i := AfterWrite(l)])
    case Leave(i) => s.(launchers := s.launchers[i := s.launchers[i].(phase := Outside)])
    case Die(i) => s.(launchers := s.launchers[i := s.launchers[i].(phase := Outside, dead := true)])
    case ForeignInsert(o, at, ace) => s.(dacls := s.dacls[o := Inserted(s.dacls[o], at, Slot(ace, None))])
    case ForeignRemove(o, at) => s.(dacls := s.dacls[o := s.dacls[o][..at] + s.dacls[o][at + 1..]])
  }

  // ---- the invariant ----

  ghost predicate Distinct(launchers: seq<Launcher>) {
    forall i, j :: 0 <= i < j < |launchers| ==> launchers[i].sid != launchers[j].sid
  }

  ghost predicate Exclusive(launchers: seq<Launcher>) {
    forall i, j :: 0 <= i < j < |launchers| ==> !(HoldsLock(launchers[i]) && HoldsLock(launchers[j]))
  }

  /** What a launcher read is still what the object holds. */
  ghost predicate Current(s: State) {
    forall i :: 0 <= i < |s.launchers| && s.launchers[i].phase.HasRead? ==>
      s.launchers[i].phase.task.o in s.dacls &&
      s.launchers[i].phase.snapshot == s.dacls[s.launchers[i].phase.task.o]
  }

  ghost predicate Tasked(launchers: seq<Launcher>) {
    forall i :: 0 <= i < |launchers| ==>
      match launchers[i].phase
      case Entered(task) => Wanted(launchers[i], task)
      case HasRead(task, _) => Wanted(launchers[i], task)
      case _ => true
  }

  /** Each launcher's grant stands exactly once where it is leased, and nowhere else. */
  ghost predicate Granted(s: State) {
    forall i, o :: 0 <= i < |s.launchers| && o in s.dacls ==>
      Count(s.dacls[o], s.launchers[i].sid, o) == if o in s.launchers[i].leased then 1 else 0
  }

  /** Slots are marked with the launcher whose grant they are. */
  ghost predicate Marked(dacl: Dacl, o: Object, launchers: seq<Launcher>) {
    && (forall slot, i :: slot in dacl && 0 <= i < |launchers| ==>
          (IsGrant(slot.ace, launchers[i].sid, o) <==> slot.lease == Some(launchers[i].sid)))
    && (forall slot :: slot in dacl && slot.lease.Some? ==>
          exists i :: 0 <= i < |launchers| && launchers[i].sid == slot.lease.value)
  }

  ghost predicate Inv(s: State) {
    && s.dacls.Keys == ALL_OBJECTS
    && Distinct(s.launchers) && Exclusive(s.launchers) && Tasked(s.launchers) && Current(s) && Granted(s)
    && forall o :: o in s.dacls ==> Marked(s.dacls[o], o, s.launchers)
  }

  /** Fresh logon SIDs: nobody has granted them anything yet. */
  ghost predicate Initial(s: State) {
    && s.dacls.Keys == ALL_OBJECTS && Distinct(s.launchers)
    && (forall i :: 0 <= i < |s.launchers| ==>
          s.launchers[i].leased == {} && s.launchers[i].phase == Outside && !s.launchers[i].dead)
    && (forall o, slot :: o in s.dacls && slot in s.dacls[o] ==> slot.lease == None)
    && (forall o, slot, i :: o in s.dacls && slot in s.dacls[o] && 0 <= i < |s.launchers| ==>
          !IsGrant(slot.ace, s.launchers[i].sid, o))
  }

  lemma {:induction false} CountNone(dacl: Dacl, sid: Sid, o: Object)
    requires forall slot :: slot in dacl ==> !IsGrant(slot.ace, sid, o)
    ensures Count(dacl, sid, o) == 0
  {
    if dacl != [] {
      CountNone(dacl[..|dacl| - 1], sid, o);
      assert dacl[|dacl| - 1] in dacl;
    }
  }

  lemma InitialInv(s: State)
    requires Initial(s)
    ensures Inv(s)
  {
    forall i, o | 0 <= i < |s.launchers| && o in s.dacls
      ensures Count(s.dacls[o], s.launchers[i].sid, o) == 0
    {
      CountNone(s.dacls[o], s.launchers[i].sid, o);
    }
  }

  // ---- one step keeps it ----

  lemma InsertedMembers(dacl: Dacl, at: nat, slot: Slot)
    requires at <= |dacl|
    ensures forall x :: x in Inserted(dacl, at, slot) <==> x in dacl || x == slot
  {
    assert dacl == dacl[..at] + dacl[at..];
  }

  lemma InsertedKeepsMarks(dacl: Dacl, at: nat, slot: Slot, o: Object, launchers: seq<Launcher>)
    requires at <= |dacl| && Marked(dacl, o, launchers) && Marked([slot], o, launchers)
    ensures Marked(Inserted(dacl, at, slot), o, launchers)
  {
    InsertedMembers(dacl, at, slot);
    assert slot in [slot];
  }

  lemma SubsetKeepsMarks(dacl: Dacl, part: Dacl, o: Object, launchers: seq<Launcher>)
    requires Marked(dacl, o, launchers) && forall slot :: slot in part ==> slot in dacl
    ensures Marked(part, o, launchers)
  {
  }

  /** Marks mention launchers by SID only. */
  lemma SameSidsSameMarks(dacl: Dacl, o: Object, before: seq<Launcher>, after: seq<Launcher>)
    requires Marked(dacl, o, before) && |before| == |after|
    requires forall i :: 0 <= i < |before| ==> before[i].sid == after[i].sid
    ensures Marked(dacl, o, after)
  {
    forall slot | slot in dacl && slot.lease.Some?
      ensures exists i :: 0 <= i < |after| && after[i].sid == slot.lease.value
    {
      var i :| 0 <= i < |before| && before[i].sid == slot.lease.value;
      assert after[i].sid == slot.lease.value;
    }
  }

  /** A step that leaves the DACLs alone and changes one launcher's phase. */
  lemma PhaseKeepsInv(s: State, i: nat, l: Launcher)
    requires Inv(s) && i < |s.launchers| && l.sid == s.launchers[i].sid && l.leased == s.launchers[i].leased
    requires HoldsLock(l) ==> HoldsLock(s.launchers[i]) || LockFree(s)
    requires l.phase.HasRead? ==> l.phase.task.o in s.dacls && l.phase.snapshot == s.dacls[l.phase.task.o]
    requires l.phase.HasRead? || l.phase.Entered? ==> Wanted(l, l.phase.task)
    ensures Inv(s.(launchers := s.launchers[i := l]))
  {
    var t := s.(launchers := s.launchers[i := l]);
    forall o | o in t.dacls
      ensures Marked(t.dacls[o], o, t.launchers)
    {
      SameSidsSameMarks(s.dacls[o], o, s.launchers, t.launchers);
    }
  }

  lemma GrantSlotMarked(s: State, i: nat, o: Object)
    requires i < |s.launchers| && Distinct(s.launchers)
    ensures Marked([GrantSlot(s.launchers[i].sid, o)], o, s.launchers)
  {
  }

  /** What a write changes: one object, by exactly the writer's own grant. */
  lemma WriteEffect(s: State, i: nat, at: nat)
    requires Inv(s) && Enabled(s, WriteDacl(i, at))
    ensures var l := s.launchers[i];
            var (o, after) := (l.phase.task.o, Written(l, at));
            && o in s.dacls && l.phase.snapshot == s.dacls[o]
            && Marked(after, o, s.launchers)
            && (forall j :: 0 <= j < |s.launchers| && j != i ==>
                  Count(after, s.launchers[j].sid, o) == Count(s.dacls[o], s.launchers[j].sid, o))
            && Count(after, l.sid, o) == (if l.phase.task.Apply? then 1 else 0)
  {
    var l := s.launchers[i];
    var (o, before) := (l.phase.task.o, l.phase.snapshot);
    match l.phase.task {
      case Apply(_) =>
        GrantSlotMarked(s, i, o);
        InsertedKeepsMarks(before, at, GrantSlot(l.sid, o), o, s.launchers);
        forall j | 0 <= j < |s.launchers|
          ensures Count(Inserted(before, at, GrantSlot(l.sid, o)), s.launchers[j].sid, o) ==
                  Count(before, s.launchers[j].sid, o) + if j == i then 1 else 0
        {
          CountInserted(before, at, GrantSlot(l.sid, o), s.launchers[j].sid, o);
        }
      case Remove(_) =>
        WithoutMembers(before, l.sid, o);
        SubsetKeepsMarks(before, Without(before, l.sid, o), o, s.launchers);
        forall j | 0 <= j < |s.launchers|
          ensures Count(Without(before, l.sid, o), s.launchers[j].sid, o) ==
                  if j == i then 0 else Count(before, s.launchers[j].sid, o)
        {
          CountWithout(before, l.sid, s.launchers[j].sid, o);
        }
    }
  }

  lemma WriteKeepsGrants(s: State, i: nat, at: nat)
    requires Inv(s) && Enabled(s, WriteDacl(i, at))
    ensures Granted(Next(s, WriteDacl(i, at)))
  {
    WriteEffect(s, i, at);
  }

  lemma WriteKeepsMarks(s: State, i: nat, at: nat)
    requires Inv(s) && Enabled(s, WriteDacl(i, at))
    ensures var t := Next(s, WriteDacl(i, at)); forall o :: o in t.dacls ==> Marked(t.dacls[o], o, t.launchers)
  {
    var t := Next(s, WriteDacl(i, at));
    WriteEffect(s, i, at);
    forall o | o in t.dacls
      ensures Marked(t.dacls[o], o, t.launchers)
    {
      SameSidsSameMarks(t.dacls[o], o, s.launchers, t.launchers);
    }
  }

  lemma WriteKeepsPhases(s: State, i: nat, at: nat)
    requires Inv(s) && Enabled(s, WriteDacl(i, at))
    ensures var t := Next(s, WriteDacl(i, at));
            && t.dacls.Keys == s.dacls.Keys
            && Distinct(t.launchers) && Exclusive(t.launchers) && Tasked(t.launchers) && Current(t)
  {
    var t := Next(s, WriteDacl(i, at));
    assert s.launchers[i].phase.task.o in s.dacls;
    forall k | 0 <= k < |t.launchers|
      ensures !t.launchers[k].phase.HasRead? && !t.launchers[k].phase.Entered?
    {
      assert k != i && HoldsLock(s.launchers[i]) ==> !HoldsLock(s.launchers[k]);
    }
  }

  lemma WriteKeepsInv(s: State, i: nat, at: nat)
    requires Inv(s) && Enabled(s, WriteDacl(i, at))
    ensures Inv(Next(s, WriteDacl(i, at)))
  {
    WriteKeepsGrants(s, i, at);
    WriteKeepsMarks(s, i, at);
    WriteKeepsPhases(s, i, at);
  }

  lemma ForeignKeepsInv(s: State, o: Object, after: Dacl)
    requires Inv(s) && o in s.dacls && LockFree(s) && Marked(after, o, s.launchers)
    requires forall i :: 0 <= i < |s.launchers| ==>
               Count(after, s.launchers[i].sid, o) == Count(s.dacls[o], s.launchers[i].sid, o)
    ensures Inv(s.(dacls := s.dacls[o := after]))
  {
    var t := s.(dacls := s.dacls[o := after]);
    assert t.dacls.Keys == s.dacls.Keys;
    ForeignKeepsGrants(s, o, after);
    ForeignKeepsMarks(s, o, after);
    NobodyHasRead(s, t);
  }

  lemma ForeignKeepsMarks(s: State, o: Object, after: Dacl)
    requires o in s.dacls && Marked(after, o, s.launchers)
    requires forall p :: p in s.dacls ==> Marked(s.dacls[p], p, s.launchers)
    ensures forall p :: p in s.dacls ==> Marked(s.dacls[o := after][p], p, s.launchers)
  {
    forall p | p in s.dacls
      ensures Marked(s.dacls[o := after][p], p, s.launchers)
    {
      assert s.dacls[o := after][p] == if p == o then after else s.dacls[p];
    }
  }

  lemma NobodyHasRead(s: State, t: State)
    requires LockFree(s) && t.launchers == s.launchers
    ensures Current(t)
  {
    assert forall i :: 0 <= i < |s.launchers| ==> !HoldsLock(s.launchers[i]);
  }

  lemma ForeignKeepsGrants(s: State, o: Object, after: Dacl)
    requires Granted(s) && o in s.dacls
    requires forall i :: 0 <= i < |s.launchers| ==>
               Count(after, s.launchers[i].sid, o) == Count(s.dacls[o], s.launchers[i].sid, o)
    ensures Granted(s.(dacls := s.dacls[o := after]))
  {
  }

  lemma ForeignSlotMarked(s: State, o: Object, ace: Ace)
    requires forall i :: 0 <= i < |s.launchers| ==> !IsGrant(ace, s.launchers[i].sid, o)
    ensures Marked([Slot(ace, None)], o, s.launchers)
  {
  }

  lemma CountRemoved(dacl: Dacl, at: nat, sid: Sid, o: Object)
    requires at < |dacl|
    ensures Count(dacl[..at] + dacl[at + 1..], sid, o) ==
            Count(dacl, sid, o) - if IsGrant(dacl[at].ace, sid, o) then 1 else 0
  {
    assert dacl == dacl[..at] + ([dacl[at]] + dacl[at + 1..]);
    CountConcat(dacl[..at], [dacl[at]] + dacl[at + 1..], sid, o);
    CountConcat([dacl[at]], dacl[at + 1..], sid, o);
    CountConcat(dacl[..at], dacl[at + 1..], sid, o);
    CountOne(dacl[at], sid, o);
  }

  lemma ForeignInsertKeepsInv(s: State, o: Object, at: nat, ace: Ace)
    requires Inv(s) && Enabled(s, ForeignInsert(o, at, ace))
    ensures Inv(Next(s, ForeignInsert(o, at, ace)))
  {
    ForeignSlotMarked(s, o, ace);
    InsertedKeepsMarks(s.dacls[o], at, Slot(ace, None), o, s.launchers);
    forall i | 0 <= i < |s.launchers|
      ensures Count(Inserted(s.dacls[o], at, Slot(ace, None)), s.launchers[i].sid, o) ==
              Count(s.dacls[o], s.launchers[i].sid, o)
    {
      ForeignInsertKeepsCount(s, o, at, ace, i);
    }
    ForeignKeepsInv(s, o, Inserted(s.dacls[o], at, Slot(ace, None)));
  }

  lemma ForeignRemoveKeepsInv(s: State, o: Object, at: nat)
    requires Inv(s) && Enabled(s, ForeignRemove(o, at))
    ensures Inv(Next(s, ForeignRemove(o, at)))
  {
    var after := s.dacls[o][..at] + s.dacls[o][at + 1..];
    SubsetKeepsMarks(s.dacls[o], after, o, s.launchers);
    forall i | 0 <= i < |s.launchers|
      ensures Count(after, s.launchers[i].sid, o) == Count(s.dacls[o], s.launchers[i].sid, o)
    {
      ForeignRemoveKeepsCount(s, o, at, i);
    }
    ForeignKeepsInv(s, o, after);
  }

  lemma ForeignSlotIsNoGrant(s: State, o: Object, at: nat, i: nat)
    requires o in s.dacls && Marked(s.dacls[o], o, s.launchers) && i < |s.launchers|
    requires at < |s.dacls[o]| && s.dacls[o][at].lease == None
    ensures !IsGrant(s.dacls[o][at].ace, s.launchers[i].sid, o)
  {
    assert s.dacls[o][at] in s.dacls[o];
  }

  lemma StepKeepsInv(s: State, step: Step)
    requires Inv(s) && Enabled(s, step)
    ensures Inv(Next(s, step))
  {
    match step {
      case Enter(i, task) =>
        PhaseKeepsInv(s, i, s.launchers[i].(phase := Entered(task)));
      case ReadDacl(i) =>
        var task := s.launchers[i].phase.task;
        PhaseKeepsInv(s, i, s.launchers[i].(phase := HasRead(task, s.dacls[task.o])));
      case WriteDacl(i, at) =>
        WriteKeepsInv(s, i, at);
      case Leave(i) =>
        PhaseKeepsInv(s, i, s.launchers[i].(phase := Outside));
      case Die(i) =>
        PhaseKeepsInv(s, i, s.launchers[i].(phase := Outside, dead := true));
      case ForeignInsert(o, at, ace) =>
        ForeignInsertKeepsInv(s, o, at, ace);
      case ForeignRemove(o, at) =>
        ForeignRemoveKeepsInv(s, o, at);
    }
  }

  lemma ForeignInsertKeepsCount(s: State, o: Object, at: nat, ace: Ace, i: nat)
    requires Enabled(s, ForeignInsert(o, at, ace)) && i < |s.launchers|
    ensures Count(Inserted(s.dacls[o], at, Slot(ace, None)), s.launchers[i].sid, o) ==
            Count(s.dacls[o], s.launchers[i].sid, o)
  {
    CountInserted(s.dacls[o], at, Slot(ace, None), s.launchers[i].sid, o);
  }

  lemma ForeignRemoveKeepsCount(s: State, o: Object, at: nat, i: nat)
    requires Inv(s) && Enabled(s, ForeignRemove(o, at)) && i < |s.launchers|
    ensures Count(s.dacls[o][..at] + s.dacls[o][at + 1..], s.launchers[i].sid, o) ==
            Count(s.dacls[o], s.launchers[i].sid, o)
  {
    ForeignSlotIsNoGrant(s, o, at, i);
    CountRemoved(s.dacls[o], at, s.launchers[i].sid, o);
  }

  lemma WriteKeepsCount(s: State, k: nat, at: nat, i: nat, o: Object)
    requires Inv(s) && Enabled(s, WriteDacl(k, at)) && i < |s.launchers| && i != k && o in s.dacls
    ensures var t := Next(s, WriteDacl(k, at));
            o in t.dacls && Count(t.dacls[o], s.launchers[i].sid, o) == Count(s.dacls[o], s.launchers[i].sid, o)
  {
    WriteEffect(s, k, at);
  }

  /** What a launcher may rely on while it waits for the lock: no step of another launcher, and no
      foreign edit, changes how often its grant stands on any object. */
  lemma OtherStepKeepsCount(s: State, step: Step, i: nat, o: Object)
    requires Inv(s) && Enabled(s, step) && i < |s.launchers| && o in s.dacls
    requires !(step.WriteDacl? && step.i == i)
    ensures o in Next(s, step).dacls
    ensures Count(Next(s, step).dacls[o], s.launchers[i].sid, o) == Count(s.dacls[o], s.launchers[i].sid, o)
  {
    if step.WriteDacl? {
      WriteKeepsCount(s, step.i, step.at, i, o);
    } else if IsForeign(step) {
      ForeignKeepsCount(s, step, i, o);
    } else {
      assert Next(s, step).dacls == s.dacls;
    }
  }

  lemma ForeignKeepsCount(s: State, step: Step, i: nat, o: Object)
    requires Inv(s) && Enabled(s, step) && IsForeign(step) && i < |s.launchers| && o in s.dacls
    ensures o in Next(s, step).dacls
    ensures Count(Next(s, step).dacls[o], s.launchers[i].sid, o) == Count(s.dacls[o], s.launchers[i].sid, o)
  {
    var after := match step
      case ForeignInsert(p, at, ace) => Inserted(s.dacls[p], at, Slot(ace, None))
      case ForeignRemove(p, at) => s.dacls[p][..at] + s.dacls[p][at + 1..];
    assert Next(s, step).dacls == s.dacls[step.o := after];
    ForeignCount(s, step, i, after);
  }

  lemma ForeignCount(s: State, step: Step, i: nat, after: Dacl)
    requires Inv(s) && Enabled(s, step) && IsForeign(step) && i < |s.launchers|
    requires Next(s, step).dacls == s.dacls[step.o := after]
    ensures Count(after, s.launchers[i].sid, step.o) == Count(s.dacls[step.o], s.launchers[i].sid, step.o)
  {
    assert Next(s, step).dacls[step.o] == after;
    match step
    case ForeignInsert(p, at, ace) => ForeignInsertKeepsCount(s, p, at, ace, i);
    case ForeignRemove(p, at) => ForeignRemoveKeepsCount(s, p, at, i);
  }

  // ---- runs ----

  ghost predicate Legal(s: State, steps: seq<Step>)
    decreases |steps|
  {
    |steps| > 0 ==> Enabled(s, steps[0]) && Legal(Next(s, steps[0]), steps[1..])
  }

  ghost function Run(s: State, steps: seq<Step>): State
    requires Legal(s, steps)
    decreases |steps|
  {
    if |steps| == 0 then s else Run(Next(s, steps[0]), steps[1..])
  }

  lemma {:induction false} RunKeepsInv(s: State, steps: seq<Step>)
    requires Inv(s) && Legal(s, steps)
    ensures Inv(Run(s, steps))
    decreases |steps|
  {
    if |steps| > 0 {
      StepKeepsInv(s, steps[0]);
      RunKeepsInv(Next(s, steps[0]), steps[1..]);
    }
  }

  /** The grant stands exactly once where the launcher leases and nowhere else, and the write it is about
      to make is not refused. */
  predicate Stands(s: State, i: nat, o: Object)
    requires i < |s.launchers|
  {
    var l := s.launchers[i];
    && o in s.dacls
    && Count(s.dacls[o], l.sid, o) == (if o in l.leased then 1 else 0)
    && (l.phase.HasRead? ==> MayWrite(l, 0))
  }

  lemma InvStands(s: State, i: nat, o: Object)
    requires Inv(s) && i < |s.launchers|
    ensures Stands(s, i, o)
  {
    assert o in ALL_OBJECTS;
    if s.launchers[i].phase.HasRead? {
      assert Wanted(s.launchers[i], s.launchers[i].phase.task);
    }
  }

  /** No update is lost: in every reachable state, whatever the other launchers did meanwhile, a
      launcher's grant stands exactly once on each object it leases and on no other; and a launcher
      about to add or remove its grant finds none or exactly that one. */
  lemma NoLostGrant(start: State, steps: seq<Step>, i: nat, o: Object)
    requires Initial(start) && Legal(start, steps) && i < |Run(start, steps).launchers|
    ensures Stands(Run(start, steps), i, o)
  {
    InitialInv(start);
    RunKeepsInv(start, steps);
    InvStands(Run(start, steps), i, o);
  }

  predicate IsForeign(step: Step) {
    step.ForeignInsert? || step.ForeignRemove?
  }

  // ---- what a step leaves alone ----

  lemma {:induction false} WithoutIsFilter(dacl: Dacl, sid: Sid, o: Object)
    requires forall slot :: slot in dacl ==> (IsGrant(slot.ace, sid, o) <==> slot.lease == Some(sid))
    ensures Without(dacl, sid, o) == Filter(NotOf(sid), dacl)
  {
    if dacl != [] {
      assert dacl[|dacl| - 1] in dacl;
      WithoutIsFilter(dacl[..|dacl| - 1], sid, o);
    }
  }

  lemma FilterStopped(sieve: Sieve, slot: Slot)
    requires !Passes(sieve, slot)
    ensures Filter(sieve, [slot]) == []
  {
    assert [slot][..0] == [];
  }

  lemma FilterAround(sieve: Sieve, a: Dacl, slot: Slot, b: Dacl)
    requires !Passes(sieve, slot)
    ensures Filter(sieve, a + [slot] + b) == Filter(sieve, a + b)
  {
    FilterConcat(sieve, a + [slot], b);
    FilterConcat(sieve, a, [slot]);
    FilterStopped(sieve, slot);
    FilterConcat(sieve, a, b);
  }

  lemma FilterInserted(sieve: Sieve, dacl: Dacl, at: nat, slot: Slot)
    requires at <= |dacl| && !Passes(sieve, slot)
    ensures Filter(sieve, Inserted(dacl, at, slot)) == Filter(sieve, dacl)
  {
    FilterAround(sieve, dacl[..at], slot, dacl[at..]);
    assert dacl[..at] + dacl[at..] == dacl;
  }

  lemma InsertedKeepsOthers(dacl: Dacl, at: nat, sid: Sid, o: Object)
    requires at <= |dacl|
    ensures var after := Inserted(dacl, at, GrantSlot(sid, o));
            Filter(NotOf(sid), after) == Filter(NotOf(sid), dacl) && Filter(Foreign, after) == Filter(Foreign, dacl)
  {
    var slot := GrantSlot(sid, o);
    assert !Passes(NotOf(sid), slot) && !Passes(Foreign, slot);
    FilterInserted(NotOf(sid), dacl, at, slot);
    FilterInserted(Foreign, dacl, at, slot);
  }

  lemma WithoutKeepsOthers(dacl: Dacl, sid: Sid, o: Object)
    requires forall slot :: slot in dacl ==> (IsGrant(slot.ace, sid, o) <==> slot.lease == Some(sid))
    ensures var after := Without(dacl, sid, o);
            Filter(NotOf(sid), after) == Filter(NotOf(sid), dacl) && Filter(Foreign, after) == Filter(Foreign, dacl)
  {
    WithoutIsFilter(dacl, sid, o);
    FilterAbsorbs(NotOf(sid), NotOf(sid), dacl);
    FilterAbsorbs(Foreign, NotOf(sid), dacl);
  }

  /** A write keeps everything that is not the writer's own grant, in order. */
  lemma WriteKeepsOthers(s: State, i: nat, at: nat, o: Object)
    requires Inv(s) && Enabled(s, WriteDacl(i, at)) && o in s.dacls
    ensures var t := Next(s, WriteDacl(i, at));
            && Filter(NotOf(s.launchers[i].sid), t.dacls[o]) == Filter(NotOf(s.launchers[i].sid), s.dacls[o])
            && Filter(Foreign, t.dacls[o]) == Filter(Foreign, s.dacls[o])
  {
    var l := s.launchers[i];
    if o == l.phase.task.o {
      match l.phase.task {
        case Apply(_) =>
          InsertedKeepsOthers(s.dacls[o], at, l.sid, o);
        case Remove(_) =>
          assert Marked(s.dacls[o], o, s.launchers);
          WithoutKeepsOthers(s.dacls[o], l.sid, o);
      }
    }
  }

  /** A launcher never touches what is not its own grant: not another launcher's, not a foreign ACE. */
  lemma LauncherKeepsOthers(s: State, step: Step, o: Object)
    requires Inv(s) && Enabled(s, step) && !IsForeign(step) && o in s.dacls
    ensures Filter(Foreign, Next(s, step).dacls[o]) == Filter(Foreign, s.dacls[o])
    ensures Next(s, step) == s.(launchers := Next(s, step).launchers) || (step.WriteDacl? &&
            Filter(NotOf(s.launchers[step.i].sid), Next(s, step).dacls[o]) ==
            Filter(NotOf(s.launchers[step.i].sid), s.dacls[o]))
  {
    if step.WriteDacl? {
      WriteKeepsOthers(s, step.i, step.at, o);
    }
  }

  lemma {:induction false} RunKeepsForeign(s: State, steps: seq<Step>, o: Object)
    requires Inv(s) && Legal(s, steps) && o in s.dacls
    requires forall k :: 0 <= k < |steps| ==> !IsForeign(steps[k])
    ensures o in Run(s, steps).dacls && Filter(Foreign, Run(s, steps).dacls[o]) == Filter(Foreign, s.dacls[o])
    decreases |steps|
  {
    if |steps| > 0 {
      StepKeepsInv(s, steps[0]);
      LauncherKeepsOthers(s, steps[0], o);
      RunKeepsForeign(Next(s, steps[0]), steps[1..], o);
    }
  }

  lemma {:induction false} CountZeroForeign(dacl: Dacl, o: Object, launchers: seq<Launcher>)
    requires Marked(dacl, o, launchers)
    requires forall i :: 0 <= i < |launchers| ==> Count(dacl, launchers[i].sid, o) == 0
    ensures Filter(Foreign, dacl) == dacl
  {
    forall slot | slot in dacl
      ensures slot.lease == None
    {
      if slot.lease.Some? {
        var i :| 0 <= i < |launchers| && launchers[i].sid == slot.lease.value;
        CountSome(dacl, slot, launchers[i].sid, o);
      }
    }
    FilterAll(Foreign, dacl);
  }

  lemma {:induction false} CountSome(dacl: Dacl, slot: Slot, sid: Sid, o: Object)
    requires slot in dacl && IsGrant(slot.ace, sid, o)
    ensures Count(dacl, sid, o) > 0
  {
    if dacl[|dacl| - 1] != slot {
      CountSome(dacl[..|dacl| - 1], slot, sid, o);
    }
  }

  /** Once nobody leases an object, only foreign ACEs are left on it. */
  lemma ReleasedLeavesForeign(start: State, steps: seq<Step>, o: Object)
    requires Initial(start) && Legal(start, steps)
    requires forall i :: 0 <= i < |Run(start, steps).launchers| ==> o !in Run(start, steps).launchers[i].leased
    ensures var s := Run(start, steps);
            o in s.dacls && s.dacls[o] == Filter(Foreign, s.dacls[o])
  {
    InitialInv(start);
    RunKeepsInv(start, steps);
    var s := Run(start, steps);
    assert o in ALL_OBJECTS;
    CountZeroForeign(s.dacls[o], o, s.launchers);
  }

  /** Any number of launchers, interleaved in any way, leave the object as they found it. */
  lemma ReleasedRestoresOriginal(start: State, steps: seq<Step>, o: Object)
    requires Initial(start) && Legal(start, steps)
    requires forall k :: 0 <= k < |steps| ==> !IsForeign(steps[k])
    requires forall i :: 0 <= i < |Run(start, steps).launchers| ==> o !in Run(start, steps).launchers[i].leased
    ensures o in start.dacls && o in Run(start, steps).dacls && Run(start, steps).dacls[o] == start.dacls[o]
  {
    InitialInv(start);
    assert o in ALL_OBJECTS;
    RunKeepsForeign(start, steps, o);
    ReleasedLeavesForeign(start, steps, o);
    FilterAll(Foreign, start.dacls[o]);
  }
}
