/** All runs of read-scope leases on one object: any number of accounts whose `SetAccess` calls
    interleave under `readScopeMutex`, calls that fail, entries that are dropped, and foreign edits in
    between (src/broker/BrokerReadScope.cpp). Objects do not influence each other. */
module Lease {
  import opened Acl
  import opened Wrappers

  /** A folder or a namespace directory; its owner stays fixed. */
  datatype Securable = Securable(owner: Option<Sid>, isNamespace: bool)

  datatype State = State(dacl: Dacl, entries: map<Sid, Entry>)

  datatype Step =
    | Access(account: Account, mask: Mask, readableRoot: bool, fails: bool)
    | Forget(user: Sid)
    | ForeignEdit(dacl: Dacl)

  function EntryOf(s: State, user: Sid): Entry {
    if user in s.entries then s.entries[user] else FRESH_ENTRY
  }

  /** The entry as `SetAccess` is called on it: a namespace directory's entry is marked first. */
  function CalledEntry(obj: Securable, s: State, user: Sid): Entry {
    EntryOf(s, user).(namespaceDirectory := obj.isNamespace)
  }

  /** Which steps the environment and the scopes can take. A foreign edit may insert, remove and
      reorder, but adds no ACE identical to one that is currently leased; the scopes drop an entry
      only when its flags are clear (`ReadScope.ClearBelow` and `ReadScope.Restore` prove that). */
  ghost predicate Enabled(obj: Securable, s: State, step: Step) {
    match step
    case Access(account, _, _, _) => account.sid.Principal?
    case Forget(user) => Clear(EntryOf(s, user))
    case ForeignEdit(dacl) =>
      forall i :: 0 <= i < |dacl| ==>
        if dacl[i].lease == None then forall user :: !IsLeased(dacl[i].ace, user, EntryOf(s, user))
        else dacl[i] in s.dacl
  }

  function Next(obj: Securable, s: State, step: Step): State {
    match step
    case Access(account, mask, readableRoot, fails) =>
      var e := CalledEntry(obj, s, account.sid);
      var edit := SetAccessEdit(account, obj.owner, e, mask, readableRoot, s.dacl);
      if fails then State(s.dacl, s.entries[account.sid := e])
      else State(edit.dacl, s.entries[account.sid := edit.entry])
    case Forget(user) => State(s.dacl, s.entries - {user})
    case ForeignEdit(dacl) => State(dacl, s.entries)
  }

  /** Every lease ACE in the DACL is recorded by its own account's flags, nothing else in the DACL
      looks like a recorded lease ACE, and only the owner's account can hold the owner-rights deny. */
  ghost predicate Inv(obj: Securable, s: State) {
    && (forall user :: Consistent(user, EntryOf(s, user), s.dacl))
    && (forall user :: EntryOf(s, user).addedOwnerDeny ==> obj.owner == Some(user) && user.Principal?)
    && (forall user :: !Clear(EntryOf(s, user)) ==>
          EntryOf(s, user).namespaceDirectory == obj.isNamespace && user.Principal?)
  }

  /** Marking the entry does not disturb what it says it leased. */
  lemma CalledEntryConsistent(obj: Securable, s: State, user: Sid)
    requires Inv(obj, s)
    ensures Consistent(user, CalledEntry(obj, s, user), s.dacl)
  {
    assert Consistent(user, EntryOf(s, user), s.dacl);
  }

  lemma AccessKeepsInv(obj: Securable, s: State, step: Step)
    requires Inv(obj, s) && step.Access? && Enabled(obj, s, step)
    ensures Inv(obj, Next(obj, s, step))
    ensures Filter(NotOf(step.account.sid), Next(obj, s, step).dacl) == Filter(NotOf(step.account.sid), s.dacl)
  {
    var user := step.account.sid;
    var e := CalledEntry(obj, s, user);
    var t := Next(obj, s, step);
    CalledEntryConsistent(obj, s, user);
    EditKeepsOthers(step.account, obj.owner, e, step.mask, step.readableRoot, s.dacl);
    EditOwnerDeny(step.account, obj.owner, e, step.mask, step.readableRoot, s.dacl);
    assert EntryOf(s, user).addedOwnerDeny ==> obj.owner == Some(user);
    forall other
      ensures Consistent(other, EntryOf(t, other), t.dacl)
    {
      if other != user {
        assert EntryOf(t, other) == EntryOf(s, other);
        assert Consistent(other, EntryOf(s, other), s.dacl);
        if !step.fails {
          OtherStaysConsistent(obj, s, step, other);
        }
      }
    }
    forall other
      ensures EntryOf(t, other).addedOwnerDeny ==> obj.owner == Some(other) && other.Principal?
      ensures !Clear(EntryOf(t, other)) ==>
                EntryOf(t, other).namespaceDirectory == obj.isNamespace && other.Principal?
    {
      if other != user {
        assert EntryOf(t, other) == EntryOf(s, other);
      }
    }
  }

  lemma EditOwnerDeny(account: Account, owner: Option<Sid>, e: Entry, mask: Mask, readableRoot: bool, dacl: Dacl)
    ensures var edit := SetAccessEdit(account, owner, e, mask, readableRoot, dacl);
            && (edit.entry.addedOwnerDeny ==> owner == Some(account.sid))
            && edit.entry.namespaceDirectory == e.namespaceDirectory
            && forall i :: 0 <= i < |edit.dacl| ==>
                 edit.dacl[i] in dacl || (edit.dacl[i].lease == Some(account.sid) &&
                   (edit.dacl[i].ace.sid == account.sid ||
                    (edit.dacl[i].ace.sid == OwnerRights && owner == Some(account.sid))))
  {
    FilterMembers(NotLeased(account.sid, e), dacl);
  }

  /** No account's lease is disturbed by another's edit, the shared owner-rights deny included. */
  lemma OtherStaysConsistent(obj: Securable, s: State, step: Step, other: Sid)
    requires Inv(obj, s) && step.Access? && Enabled(obj, s, step) && !step.fails
    requires other != step.account.sid
    ensures Consistent(other, EntryOf(s, other), Next(obj, s, step).dacl)
  {
    var e := CalledEntry(obj, s, step.account.sid);
    EditOwnerDeny(step.account, obj.owner, e, step.mask, step.readableRoot, s.dacl);
    assert Consistent(other, EntryOf(s, other), s.dacl);
    assert EntryOf(s, other).addedOwnerDeny ==> obj.owner == Some(other);
    assert !Clear(EntryOf(s, other)) ==> other.Principal?;
    var t := Next(obj, s, step);
    forall i | 0 <= i < |t.dacl|
      ensures t.dacl[i].lease == Some(other) <==> IsLeased(t.dacl[i].ace, other, EntryOf(s, other))
    {
      if t.dacl[i] in s.dacl {
        var k :| 0 <= k < |s.dacl| && s.dacl[k] == t.dacl[i];
      }
    }
  }

  lemma StepKeepsInv(obj: Securable, s: State, step: Step)
    requires Inv(obj, s) && Enabled(obj, s, step)
    ensures Inv(obj, Next(obj, s, step))
  {
    var t := Next(obj, s, step);
    match step
    case Access(_, _, _, _) =>
      AccessKeepsInv(obj, s, step);
    case Forget(user) =>
      forall other
        ensures Consistent(other, EntryOf(t, other), t.dacl)
        ensures EntryOf(t, other).addedOwnerDeny ==> obj.owner == Some(other) && other.Principal?
        ensures !Clear(EntryOf(t, other)) ==>
                  EntryOf(t, other).namespaceDirectory == obj.isNamespace && other.Principal?
      {
        assert Consistent(other, EntryOf(s, other), s.dacl);
        assert EntryOf(t, other) == if other == user then FRESH_ENTRY else EntryOf(s, other);
      }
    case ForeignEdit(dacl) =>
      forall other
        ensures EntryOf(t, other) == EntryOf(s, other)
        ensures Consistent(other, EntryOf(t, other), dacl)
      {
        assert Consistent(other, EntryOf(s, other), s.dacl);
        forall i | 0 <= i < |dacl|
          ensures dacl[i].lease == Some(other) <==> IsLeased(dacl[i].ace, other, EntryOf(s, other))
        {
          if dacl[i].lease != None {
            var k :| 0 <= k < |s.dacl| && s.dacl[k] == dacl[i];
          }
        }
      }
  }

  // ---- runs ----

  function Run(obj: Securable, s: State, steps: seq<Step>): State
    decreases |steps|
  {
    if |steps| == 0 then s else Run(obj, Next(obj, s, steps[0]), steps[1..])
  }

  ghost predicate Legal(obj: Securable, s: State, steps: seq<Step>)
    decreases |steps|
  {
    |steps| > 0 ==> Enabled(obj, s, steps[0]) && Legal(obj, Next(obj, s, steps[0]), steps[1..])
  }

  function ForeignAfter(current: Dacl, step: Step): Dacl {
    if step.ForeignEdit? then Filter(Foreign, step.dacl) else current
  }

  /** What the foreign editors alone made of the DACL. */
  function ForeignAces(current: Dacl, steps: seq<Step>): Dacl
    decreases |steps|
  {
    if |steps| == 0 then current
    else ForeignAces(ForeignAfter(current, steps[0]), steps[1..])
  }

  lemma {:induction false} RunKeepsInv(obj: Securable, s: State, steps: seq<Step>)
    requires Inv(obj, s) && Legal(obj, s, steps)
    ensures Inv(obj, Run(obj, s, steps))
    decreases |steps|
  {
    if |steps| > 0 {
      StepKeepsInv(obj, s, steps[0]);
      RunKeepsInv(obj, Next(obj, s, steps[0]), steps[1..]);
    }
  }

  lemma SameOthersSameForeign(user: Sid, a: Dacl, b: Dacl)
    requires Filter(NotOf(user), a) == Filter(NotOf(user), b)
    ensures Filter(Foreign, a) == Filter(Foreign, b)
  {
    FilterAbsorbs(Foreign, NotOf(user), a);
    FilterAbsorbs(Foreign, NotOf(user), b);
  }

  lemma StepConservesForeign(obj: Securable, s: State, step: Step)
    requires Inv(obj, s) && Enabled(obj, s, step)
    ensures Filter(Foreign, Next(obj, s, step).dacl) == ForeignAfter(Filter(Foreign, s.dacl), step)
  {
    if step.Access? {
      AccessKeepsInv(obj, s, step);
      SameOthersSameForeign(step.account.sid, s.dacl, Next(obj, s, step).dacl);
    }
  }

  /** Whatever the leases do, the foreign ACEs stay what the foreign editors made them, in order. */
  lemma {:induction false} RunConservesForeign(obj: Securable, s: State, steps: seq<Step>)
    requires Inv(obj, s) && Legal(obj, s, steps)
    ensures Filter(Foreign, Run(obj, s, steps).dacl) == ForeignAces(Filter(Foreign, s.dacl), steps)
    decreases |steps|
  {
    if |steps| > 0 {
      var t := Next(obj, s, steps[0]);
      StepKeepsInv(obj, s, steps[0]);
      StepConservesForeign(obj, s, steps[0]);
      RunConservesForeign(obj, t, steps[1..]);
    }
  }

  /** A successful `SetAccess(entry, 0)` clears the account's entry, whatever happened before. */
  lemma RestoreClears(obj: Securable, s: State, account: Account)
    requires Inv(obj, s) && account.sid.Principal?
    ensures Clear(EntryOf(Next(obj, s, Access(account, 0, false, false)), account.sid))
  {
    CalledEntryConsistent(obj, s, account.sid);
    EditRestores(account, obj.owner, CalledEntry(obj, s, account.sid), s.dacl);
  }

  ghost predicate AllClear(s: State) {
    forall user :: Clear(EntryOf(s, user))
  }

  /** Exact restoration: once every account's entry is clear, in whatever order the accounts got
      there, the DACL is exactly its foreign ACEs, in order. */
  lemma ExactRestoration(obj: Securable, s: State, steps: seq<Step>)
    requires Inv(obj, s) && Legal(obj, s, steps) && AllClear(Run(obj, s, steps))
    ensures Run(obj, s, steps).dacl == ForeignAces(Filter(Foreign, s.dacl), steps)
  {
    var t := Run(obj, s, steps);
    RunKeepsInv(obj, s, steps);
    RunConservesForeign(obj, s, steps);
    forall slot | slot in t.dacl
      ensures Passes(Foreign, slot)
    {
      var k :| 0 <= k < |t.dacl| && t.dacl[k] == slot;
      var user := if slot.lease.Some? then slot.lease.value else OwnerRights;
      assert Consistent(user, EntryOf(t, user), t.dacl) && Clear(EntryOf(t, user));
    }
    FilterAll(Foreign, t.dacl);
  }

  lemma NoLeaseInv(obj: Securable, original: Dacl)
    requires forall slot :: slot in original ==> slot.lease == None
    ensures Inv(obj, State(original, map[]))
  {
    forall i | 0 <= i < |original|
      ensures original[i].lease == None
    {
      assert original[i] in original;
    }
  }

  /** With no foreign edit, the original list comes back, for any number of accounts. */
  lemma OriginalRestored(obj: Securable, original: Dacl, steps: seq<Step>)
    requires forall slot :: slot in original ==> slot.lease == None
    requires forall i :: 0 <= i < |steps| ==> !steps[i].ForeignEdit?
    requires Legal(obj, State(original, map[]), steps) && AllClear(Run(obj, State(original, map[]), steps))
    ensures Run(obj, State(original, map[]), steps).dacl == original
  {
    var s := State(original, map[]);
    NoLeaseInv(obj, original);
    ExactRestoration(obj, s, steps);
    FilterAll(Foreign, original);
    NoForeignEdits(original, steps);
  }

  lemma {:induction false} NoForeignEdits(current: Dacl, steps: seq<Step>)
    requires forall i :: 0 <= i < |steps| ==> !steps[i].ForeignEdit?
    ensures ForeignAces(current, steps) == current
  {
    if |steps| > 0 {
      NoForeignEdits(current, steps[1..]);
    }
  }

  /** Two accounts on the same folder: restoring both, in either order, gives back the original
      DACL after any interleaving of their edits and failures. */
  lemma TwoAccountsRestore(obj: Securable, original: Dacl, steps: seq<Step>, a: Account, b: Account)
    requires a.sid.Principal? && b.sid.Principal? && a.sid != b.sid
    requires forall slot :: slot in original ==> slot.lease == None
    requires forall i :: 0 <= i < |steps| ==> steps[i].Access? && steps[i].account.sid in {a.sid, b.sid}
    ensures var s := Run(obj, State(original, map[]), steps);
            Run(obj, s, [Access(a, 0, false, false), Access(b, 0, false, false)]).dacl == original
  {
    var start := State(original, map[]);
    var restore := [Access(a, 0, false, false), Access(b, 0, false, false)];
    NoLeaseInv(obj, original);
    AccessesLegal(obj, start, steps);
    RunKeepsInv(obj, start, steps);
    EntriesAmong(obj, start, steps, {a.sid, b.sid});
    BothClear(obj, Run(obj, start, steps), a, b);
    AccessesLegal(obj, start, steps + restore);
    RunConcat(obj, start, steps, restore);
    OriginalRestored(obj, original, steps + restore);
  }

  lemma BothClear(obj: Securable, s: State, a: Account, b: Account)
    requires a.sid.Principal? && b.sid.Principal? && a.sid != b.sid
    requires Inv(obj, s) && s.entries.Keys <= {a.sid, b.sid}
    ensures AllClear(Run(obj, s, [Access(a, 0, false, false), Access(b, 0, false, false)]))
  {
    var restore := [Access(a, 0, false, false), Access(b, 0, false, false)];
    var s1 := Next(obj, s, restore[0]);
    var s2 := Next(obj, s1, restore[1]);
    RestoreClears(obj, s, a);
    StepKeepsInv(obj, s, restore[0]);
    RestoreClears(obj, s1, b);
    assert Run(obj, s, restore) == Run(obj, s1, restore[1..]);
    assert restore[1..] == [restore[1]];
    assert Run(obj, s1, [restore[1]]) == Run(obj, s2, [restore[1]][1..]) == s2;
    forall user
      ensures Clear(EntryOf(s2, user))
    {
      assert user == a.sid ==> EntryOf(s2, user) == EntryOf(s1, user);
    }
  }

  lemma {:induction false} AccessesLegal(obj: Securable, s: State, steps: seq<Step>)
    requires forall i :: 0 <= i < |steps| ==> steps[i].Access? && steps[i].account.sid.Principal?
    ensures Legal(obj, s, steps)
    decreases |steps|
  {
    if |steps| > 0 {
      AccessesLegal(obj, Next(obj, s, steps[0]), steps[1..]);
    }
  }

  lemma {:induction false} RunConcat(obj: Securable, s: State, a: seq<Step>, b: seq<Step>)
    ensures Run(obj, s, a + b) == Run(obj, Run(obj, s, a), b)
    decreases |a|
  {
    if |a| == 0 {
      assert a + b == b;
    } else {
      assert (a + b)[1..] == a[1..] + b;
      RunConcat(obj, Next(obj, s, a[0]), a[1..], b);
    }
  }

  lemma {:induction false} EntriesAmong(obj: Securable, s: State, steps: seq<Step>, users: set<Sid>)
    requires forall i :: 0 <= i < |steps| ==> steps[i].Access? && steps[i].account.sid in users
    requires s.entries.Keys <= users
    ensures Run(obj, s, steps).entries.Keys <= users
    decreases |steps|
  {
    if |steps| > 0 {
      EntriesAmong(obj, Next(obj, s, steps[0]), steps[1..], users);
    }
  }
}
