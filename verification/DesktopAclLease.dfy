/** One launcher's `InteractiveDesktopAclLease` (src/launcher/InteractiveDesktopAclLease.cpp). Every call
    out of the class may fail; other launchers act whenever this one does not hold the lock. */
module DesktopAclLease {
  import opened Win32
  import opened Acl
  import opened DesktopLease

  /** Some error code or success. */
  method Outcome() returns (error: nat)
  {
    error := *;
  }

  ghost function GrantsIn(dacls: map<Object, Dacl>, sid: Sid): (m: map<Object, nat>)
    ensures m.Keys == dacls.Keys
  {
    map o | o in dacls :: Count(dacls[o], sid, o)
  }

  lemma GrantsWith(dacls: map<Object, Dacl>, sid: Sid, o: Object, dacl: Dacl)
    requires o in dacls
    ensures GrantsIn(dacls[o := dacl], sid) == GrantsIn(dacls, sid)[o := Count(dacl, sid, o)]
  {
  }

  predicate SameCount(a: map<Object, Dacl>, b: map<Object, Dacl>, sid: Sid, o: Object) {
    o in a && o in b && Count(a[o], sid, o) == Count(b[o], sid, o)
  }

  lemma SameGrants(a: map<Object, Dacl>, b: map<Object, Dacl>, sid: Sid)
    requires a.Keys == b.Keys == ALL_OBJECTS
    requires SameCount(a, b, sid, WindowStation) && SameCount(a, b, sid, Desktop) && SameCount(a, b, sid, NamedObjects)
    ensures GrantsIn(a, sid) == GrantsIn(b, sid)
  {
    forall o | o in a
      ensures GrantsIn(a, sid)[o] == GrantsIn(b, sid)[o]
    {
      assert SameCount(a, b, sid, o);
    }
  }

  /** The session's objects, shared by all launchers. */
  class Session {
    var dacls: map<Object, Dacl>

    ghost predicate Valid()
      reads this
    {
      dacls.Keys == ALL_OBJECTS
    }

    /** How often the exact grant of this SID stands on each object. */
    ghost function Grants(sid: Sid): (m: map<Object, nat>)
      requires Valid()
      reads this
      ensures m.Keys == ALL_OBJECTS
    {
      GrantsIn(dacls, sid)
    }

    /** Waiting for the lock lets the others do anything that leaves this launcher's grants alone: no
        step of theirs does more (`DesktopLease.OtherStepKeepsCount`). */
    method AcquireLock(sid: Sid) returns (error: nat)
      requires Valid()
      modifies this
      ensures Valid() && Grants(sid) == old(Grants(sid))
    {
      var after: map<Object, Dacl> := *;
      if after.Keys == ALL_OBJECTS && SameCount(after, dacls, sid, WindowStation) &&
         SameCount(after, dacls, sid, Desktop) && SameCount(after, dacls, sid, NamedObjects)
      {
        SameGrants(after, dacls, sid);
        dacls := after;
      }
      error := Outcome();
    }

    method ReadDacl(o: Object) returns (error: nat, dacl: Dacl)
      requires Valid() && o in ALL_OBJECTS
      ensures error == ERROR_SUCCESS ==> dacl == dacls[o]
    {
      dacl := dacls[o];
      error := Outcome();
    }

    /** Atomic, and of no effect when it fails. A launcher may only write what keeps everything but its
        own grants as it stands. */
    method WriteDacl(o: Object, dacl: Dacl, ghost sid: Sid) returns (error: nat)
      requires Valid() && o in ALL_OBJECTS
      requires Without(dacl, sid, o) == Without(dacls[o], sid, o)
      modifies this
      ensures Valid()
      ensures dacls == if error == ERROR_SUCCESS then old(dacls)[o := dacl] else old(dacls)
    {
      error := Outcome();
      if error == ERROR_SUCCESS {
        dacls := dacls[o := dacl];
      }
    }
  }

  lemma {:induction false} WithoutConcat(a: Dacl, b: Dacl, sid: Sid, o: Object)
    ensures Without(a + b, sid, o) == Without(a, sid, o) + Without(b, sid, o)
  {
    if b == [] {
      assert a + b == a;
    } else {
      assert (a + b)[..|a + b| - 1] == a + b[..|b| - 1];
      WithoutConcat(a, b[..|b| - 1], sid, o);
    }
  }

  lemma WithoutGrantLast(a: Dacl, slot: Slot, sid: Sid, o: Object)
    requires IsGrant(slot.ace, sid, o)
    ensures Without(a + [slot], sid, o) == Without(a, sid, o)
  {
    assert (a + [slot])[..|a|] == a;
  }

  lemma WithoutParts(a: Dacl, c: Dacl, b: Dacl, sid: Sid, o: Object)
    requires Without(c, sid, o) == Without(a, sid, o)
    ensures Without(c + b, sid, o) == Without(a + b, sid, o)
  {
    WithoutConcat(c, b, sid, o);
    WithoutConcat(a, b, sid, o);
  }

  lemma WithoutInserted(dacl: Dacl, at: nat, slot: Slot, sid: Sid, o: Object)
    requires at <= |dacl| && IsGrant(slot.ace, sid, o)
    ensures Without(Inserted(dacl, at, slot), sid, o) == Without(dacl, sid, o)
  {
    var (a, b) := (dacl[..at], dacl[at..]);
    WithoutGrantLast(a, slot, sid, o);
    WithoutParts(a, a + [slot], b, sid, o);
    assert a + b == dacl;
  }

  /** The DACL `SetEntriesInAclW` builds: one grant more, everything else as it was. */
  function WithGrant(dacl: Dacl, at: nat, sid: Sid, o: Object): (added: Dacl)
    requires at <= |dacl|
    ensures Count(added, sid, o) == Count(dacl, sid, o) + 1
    ensures Without(added, sid, o) == Without(dacl, sid, o)
  {
    CountInserted(dacl, at, GrantSlot(sid, o), sid, o);
    WithoutInserted(dacl, at, GrantSlot(sid, o), sid, o);
    Inserted(dacl, at, GrantSlot(sid, o))
  }

  lemma GrantWritten(dacls: map<Object, Dacl>, sid: Sid, o: Object, at: nat)
    requires o in dacls && at <= |dacls[o]| && Count(dacls[o], sid, o) == 0
    ensures var after := dacls[o := WithGrant(dacls[o], at, sid, o)];
            && GrantsIn(after, sid) == GrantsIn(dacls, sid)[o := 1]
            && after[o := Without(after[o], sid, o)] == dacls
  {
    var added := WithGrant(dacls[o], at, sid, o);
    GrantsWith(dacls, sid, o, added);
    WithoutNothing(dacls[o], sid, o);
    var after := dacls[o := added];
    assert after[o] == added;
    assert after[o := dacls[o]] == dacls;
  }

  lemma WithoutTwice(dacl: Dacl, sid: Sid, o: Object)
    ensures Without(Without(dacl, sid, o), sid, o) == Without(dacl, sid, o)
  {
    CountWithout(dacl, sid, sid, o);
    WithoutNothing(Without(dacl, sid, o), sid, o);
  }

  // ---- what a call does to the counts and the leased objects ----

  type Grants = map<Object, nat>

  /** Where the lease is held its grant stands exactly once. */
  predicate Holds(grants: Grants, leased: set<Object>) {
    leased <= grants.Keys && forall o :: o in leased ==> grants[o] == 1
  }

  /** `Apply` on one object: either it added the first grant and marked the object, whatever its
      verification then said, or it changed nothing and failed. */
  predicate Applied(before: Grants, leased: set<Object>, o: Object, after: Grants, marked: set<Object>, ok: bool)
    requires o in before
  {
    if o in marked then before[o] == 0 && o !in leased && after == before[o := 1] && marked == leased + {o}
    else after == before && marked == leased && !ok
  }

  /** `Remove` on one object: nothing to do, a failure that changed nothing, or the grant and the mark are
      gone, whatever the verification then said. */
  predicate Removed(before: Grants, leased: set<Object>, o: Object, after: Grants, marked: set<Object>, ok: bool)
    requires o in before
  {
    if o in leased && o !in marked then after == before[o := 0] && marked == leased - {o}
    else after == before && marked == leased && (ok <==> o !in leased)
  }

  /** `Release`: every object was tried, and one stays leased only where its own removal failed. */
  predicate Released(before: Grants, leased: set<Object>, after: Grants, marked: set<Object>, oks: map<Object, bool>) {
    && before.Keys == after.Keys == oks.Keys == ALL_OBJECTS && marked <= leased <= ALL_OBJECTS
    && forall o :: o in ALL_OBJECTS ==>
         && after[o] == (if o in leased - marked then 0 else before[o])
         && (o in marked ==> !oks[o])
         && (o !in leased ==> oks[o])
  }

  lemma RemovedKeepsHolds(before: Grants, leased: set<Object>, o: Object, after: Grants, marked: set<Object>, ok: bool)
    requires o in before && Holds(before, leased) && Removed(before, leased, o, after, marked, ok)
    ensures Holds(after, marked)
  {
  }

  lemma AppliedKeepsHolds(before: Grants, leased: set<Object>, o: Object, after: Grants, marked: set<Object>, ok: bool)
    requires o in before && Holds(before, leased) && Applied(before, leased, o, after, marked, ok)
    ensures Holds(after, marked)
  {
  }

  /** What the three removals returned, in the order of `Release`. */
  function Verdicts(named: bool, desktop: bool, station: bool): (oks: map<Object, bool>)
    ensures oks.Keys == ALL_OBJECTS
    ensures oks.Values == {true} <==> named && desktop && station
  {
    var oks := map[NamedObjects := named, Desktop := desktop, WindowStation := station];
    assert oks[NamedObjects] in oks.Values && oks[Desktop] in oks.Values && oks[WindowStation] in oks.Values;
    assert named && desktop && station ==> oks.Values == {true};
    oks
  }

  /** The three removals together. */
  lemma RemovedThrice(g0: Grants, l0: set<Object>, g1: Grants, l1: set<Object>, ok1: bool,
                      g2: Grants, l2: set<Object>, ok2: bool, g3: Grants, l3: set<Object>, ok3: bool)
    requires g0.Keys == ALL_OBJECTS && l0 <= ALL_OBJECTS
    requires Removed(g0, l0, NamedObjects, g1, l1, ok1)
    requires Desktop in g1 && Removed(g1, l1, Desktop, g2, l2, ok2)
    requires WindowStation in g2 && Removed(g2, l2, WindowStation, g3, l3, ok3)
    ensures Released(g0, l0, g3, l3, Verdicts(ok1, ok2, ok3))
  {
    assert g1.Keys == ALL_OBJECTS && g2.Keys == ALL_OBJECTS && g3.Keys == ALL_OBJECTS;
  }

  /** Grants added to objects that had none; taking all of them back gives back the counts. */
  predicate Added(before: Grants, after: Grants, more: set<Object>) {
    && before.Keys == after.Keys && more <= before.Keys
    && forall o :: o in before ==> if o in more then before[o] == 0 && after[o] == 1 else after[o] == before[o]
  }

  lemma AddedOne(before: Grants, g: Grants, l: set<Object>, o: Object, after: Grants, marked: set<Object>, ok: bool)
    requires Added(before, g, l) && o in g && o !in l && Applied(g, l, o, after, marked, ok)
    ensures Added(before, after, marked)
  {
  }

  lemma RolledBack(before: Grants, added: Grants, reached: set<Object>, after: Grants, left: set<Object>,
                   oks: map<Object, bool>)
    requires Added(before, added, reached) && Released(added, reached, after, left, oks)
    ensures left == {} ==> after == before
  {
  }

  class InteractiveDesktopAclLease {
    const session: Session
    var childLogonSid: Sid
    var leased: set<Object>
    var open: bool

    constructor (session: Session, sid: Sid)
      requires session.Valid()
      ensures this.session == session && leased == {} && Valid()
    {
      this.session := session;
      childLogonSid, leased, open := sid, {}, false;
    }

    /** Where the lease is held its grant stands exactly once. */
    ghost predicate Valid()
      reads this, session
    {
      session.Valid() && Holds(session.Grants(childLogonSid), leased)
    }

    /** The part of `Apply` under the lock: on success one grant was inserted where there was none. */
    method WriteGrant(o: Object) returns (error: nat)
      requires session.Valid() && o in ALL_OBJECTS
      modifies session
      ensures session.Valid()
      ensures error != ERROR_SUCCESS ==> session.dacls == old(session.dacls)
      ensures error == ERROR_SUCCESS ==>
                && old(session.Grants(childLogonSid))[o] == 0
                && session.Grants(childLogonSid) == old(session.Grants(childLogonSid))[o := 1]
                && session.dacls[o := Without(session.dacls[o], childLogonSid, o)] == old(session.dacls)
    {
      var dacl;
      error, dacl := session.ReadDacl(o);
      if error != ERROR_SUCCESS {
        return;
      }
      if Count(dacl, childLogonSid, o) != 0 {
        return ERROR_ALREADY_EXISTS;
      }
      error := Outcome();
      if error != ERROR_SUCCESS {
        return;
      }
      var at: int := *;
      if !(0 <= at <= |dacl|) {
        at := |dacl|;
      }
      GrantWritten(session.dacls, childLogonSid, o, at);
      error := session.WriteDacl(o, WithGrant(dacl, at, childLogonSid, o), childLogonSid);
    }

    /** `Apply`: adds the grant to one object. `found` is what the session held under the lock: all that
        changes there is the grant. */
    method Apply(o: Object) returns (error: nat, ghost found: map<Object, Dacl>)
      requires Valid() && o in ALL_OBJECTS && o !in leased
      modifies this`leased, session
      ensures Valid() && GrantsIn(found, childLogonSid) == old(session.Grants(childLogonSid))
      ensures Applied(old(session.Grants(childLogonSid)), old(leased), o, session.Grants(childLogonSid), leased,
                      error == ERROR_SUCCESS)
      ensures found == if o in leased then session.dacls[o := Without(session.dacls[o], childLogonSid, o)]
                       else session.dacls
    {
      ghost var grants := session.Grants(childLogonSid);
      error := session.AcquireLock(childLogonSid);
      found := session.dacls;
      if error != ERROR_SUCCESS {
        return;
      }
      error := WriteGrant(o);
      if error != ERROR_SUCCESS {
        return;
      }
      assert session.Grants(childLogonSid) == grants[o := 1];
      AppliedKeepsHolds(grants, leased, o, grants[o := 1], leased + {o}, true);
      leased := leased + {o};
      error := Verify(o);
    }

    /** The check after a grant was written. */
    method Verify(o: Object) returns (error: nat)
      requires session.Valid() && o in ALL_OBJECTS
      ensures error == ERROR_SUCCESS ==> session.Grants(childLogonSid)[o] == 1
    {
      var verified;
      error, verified := session.ReadDacl(o);
      if error == ERROR_SUCCESS && Count(verified, childLogonSid, o) != 1 {
        error := ERROR_INVALID_DATA;
      }
    }

    /** The part of `Remove` under the lock: on success the one grant was taken out. */
    method TakeGrant(o: Object) returns (error: nat, without: Dacl)
      requires session.Valid() && o in ALL_OBJECTS
      modifies session
      ensures session.Valid()
      ensures error != ERROR_SUCCESS ==> session.dacls == old(session.dacls)
      ensures error == ERROR_SUCCESS ==>
                && old(session.Grants(childLogonSid))[o] == 1
                && session.Grants(childLogonSid) == old(session.Grants(childLogonSid))[o := 0]
                && without == Without(old(session.dacls)[o], childLogonSid, o)
                && session.dacls == old(session.dacls)[o := without]
    {
      without := [];
      var dacl;
      error, dacl := session.ReadDacl(o);
      if error != ERROR_SUCCESS {
        return;
      }
      var withoutLease := BuildDaclWithoutLease(dacl, childLogonSid, o);
      if withoutLease.None? {
        return ERROR_INVALID_DATA, without;
      }
      without := withoutLease.value;
      CountWithout(dacl, childLogonSid, childLogonSid, o);
      WithoutTwice(dacl, childLogonSid, o);
      GrantsWith(session.dacls, childLogonSid, o, without);
      error := session.WriteDacl(o, without, childLogonSid);
    }

    /** The check after a grant was taken out. */
    method VerifyGone(o: Object, expected: Dacl) returns (error: nat)
      requires session.Valid() && o in ALL_OBJECTS
      ensures error == ERROR_SUCCESS ==> session.Grants(childLogonSid)[o] == 0
    {
      var final;
      error, final := session.ReadDacl(o);
      if error == ERROR_SUCCESS &&
         (Count(final, childLogonSid, o) != 0 || multiset(Aces(final)) != multiset(Aces(expected)))
      {
        error := ERROR_INVALID_DATA;
      }
    }

    /** `Remove`: takes the grant out again; all else stays, in order, as it was under the lock. */
    method Remove(o: Object) returns (error: nat, ghost found: map<Object, Dacl>)
      requires Valid() && o in ALL_OBJECTS
      modifies this`leased, session
      ensures Valid() && GrantsIn(found, childLogonSid) == old(session.Grants(childLogonSid))
      ensures Removed(old(session.Grants(childLogonSid)), old(leased), o, session.Grants(childLogonSid), leased,
                      error == ERROR_SUCCESS)
      ensures session.dacls == if o in old(leased) && o !in leased then found[o := Without(found[o], childLogonSid, o)]
                               else found
    {
      found := session.dacls;
      if o !in leased {
        return ERROR_SUCCESS, found;
      }
      error := session.AcquireLock(childLogonSid);
      found := session.dacls;
      if error != ERROR_SUCCESS {
        return;
      }
      ghost var grants := session.Grants(childLogonSid);
      var without;
      error, without := TakeGrant(o);
      if error != ERROR_SUCCESS {
        return;
      }
      RemovedKeepsHolds(grants, leased, o, grants[o := 0], leased - {o}, true);
      leased := leased - {o};
      error := VerifyGone(o, without);
    }

    /** `Release`: tries every object, in reverse order, and reports the first error. */
    method Release() returns (result: nat, ghost oks: map<Object, bool>)
      requires Valid() && leased <= ALL_OBJECTS
      modifies this, session
      ensures Valid() && childLogonSid == old(childLogonSid)
      ensures Released(old(session.Grants(childLogonSid)), old(leased), session.Grants(childLogonSid), leased, oks)
      ensures result == ERROR_SUCCESS <==> oks.Values == {true}
      ensures leased == {} ==> !open
    {
      var error1, error2, error3;
      error1, error2, error3 := RemoveAll();
      result := if error1 != ERROR_SUCCESS then error1 else if error2 != ERROR_SUCCESS then error2 else error3;
      oks := Verdicts(error1 == ERROR_SUCCESS, error2 == ERROR_SUCCESS, error3 == ERROR_SUCCESS);
      if leased == {} {
        open := false;
      }
    }

    /** The loop of `Release`. */
    method RemoveAll() returns (error1: nat, error2: nat, error3: nat)
      requires Valid() && leased <= ALL_OBJECTS
      modifies this`leased, session
      ensures Valid()
      ensures Released(old(session.Grants(childLogonSid)), old(leased), session.Grants(childLogonSid), leased,
                       Verdicts(error1 == ERROR_SUCCESS, error2 == ERROR_SUCCESS, error3 == ERROR_SUCCESS))
    {
      ghost var g0, l0, found := session.Grants(childLogonSid), leased, map[];
      error1, found := Remove(NamedObjects);
      ghost var g1, l1 := session.Grants(childLogonSid), leased;
      error2, found := Remove(Desktop);
      ghost var g2, l2 := session.Grants(childLogonSid), leased;
      error3, found := Remove(WindowStation);
      RemovedThrice(g0, l0, g1, l1, error1 == ERROR_SUCCESS, g2, l2, error2 == ERROR_SUCCESS,
                    session.Grants(childLogonSid), leased, error3 == ERROR_SUCCESS);
    }

    /** `Acquire`. On success all three grants stand. When it fails and the rollback succeeds, nothing is
        leased and no grant of the SID has come or gone. */
    method Acquire(sid: Sid, isLogonSid: bool) returns (error: nat, ghost rollback: nat)
      requires Valid() && leased <= ALL_OBJECTS
      modifies this, session
      ensures Valid() && leased <= ALL_OBJECTS
      ensures error == ERROR_SUCCESS ==>
                leased == ALL_OBJECTS && childLogonSid == sid &&
                session.Grants(sid) == map o | o in ALL_OBJECTS :: 1
      ensures error != ERROR_SUCCESS && rollback == ERROR_SUCCESS ==>
                leased == old(leased) && session.Grants(sid) == old(session.Grants(sid))
      ensures old(leased) != {} ==> error != ERROR_SUCCESS && rollback == ERROR_SUCCESS
    {
      rollback := ERROR_SUCCESS;
      if !isLogonSid {
        return ERROR_INVALID_SID, rollback;
      }
      if leased != {} {
        return ERROR_BUSY, rollback;
      }
      open, childLogonSid := false, sid;
      error := Outcome();
      if error != ERROR_SUCCESS {
        return;
      }
      open := true;
      error, rollback := ApplyAll();
    }

    /** The loop of `Acquire` over the objects, with its rollback. */
    method ApplyAll() returns (error: nat, ghost rollback: nat)
      requires Valid() && leased == {}
      modifies this, session
      ensures Valid() && childLogonSid == old(childLogonSid) && leased <= ALL_OBJECTS
      ensures error == ERROR_SUCCESS ==>
                Added(old(session.Grants(childLogonSid)), session.Grants(childLogonSid), leased)
      ensures error == ERROR_SUCCESS ==> leased == ALL_OBJECTS
      ensures error != ERROR_SUCCESS && rollback == ERROR_SUCCESS ==>
                leased == {} && session.Grants(childLogonSid) == old(session.Grants(childLogonSid))
    {
      ghost var grants := session.Grants(childLogonSid);
      rollback := ERROR_SUCCESS;
      for i := 0 to 3
        invariant Valid() && childLogonSid == old(childLogonSid) && leased == Leading(i)
        invariant Added(grants, session.Grants(childLogonSid), leased)
      {
        ghost var g, l := session.Grants(childLogonSid), leased;
        LeadingStep(i);
        ghost var found;
        error, found := Apply(ObjectAt(i));
        AddedOne(grants, g, l, ObjectAt(i), session.Grants(childLogonSid), leased, error == ERROR_SUCCESS);
        if error != ERROR_SUCCESS {
          var rollbackError := RollBack(grants);
          return if rollbackError == ERROR_SUCCESS then error else rollbackError, rollbackError;
        }
      }
      LeadingAll();
      error := ERROR_SUCCESS;
    }

    /** `Release`, as `Acquire` uses it. */
    method RollBack(ghost before: Grants) returns (rollbackError: nat)
      requires Valid() && leased <= ALL_OBJECTS && Added(before, session.Grants(childLogonSid), leased)
      modifies this, session
      ensures Valid() && childLogonSid == old(childLogonSid) && leased <= ALL_OBJECTS
      ensures rollbackError == ERROR_SUCCESS ==> leased == {} && session.Grants(childLogonSid) == before
    {
      ghost var added, reached := session.Grants(childLogonSid), leased;
      ghost var oks;
      rollbackError, oks := Release();
      RolledBack(before, added, reached, session.Grants(childLogonSid), leased, oks);
      if rollbackError == ERROR_SUCCESS {
        NothingLeft(added, reached, session.Grants(childLogonSid), leased, oks);
      }
    }

    /** The destructor. A grant can outlive the lease only where its removal failed. */
    method Destroy() returns (released: nat, ghost oks: map<Object, bool>)
      requires Valid() && leased <= ALL_OBJECTS
      modifies this, session
      ensures Valid() && !open
      ensures Released(old(session.Grants(childLogonSid)), old(leased), session.Grants(childLogonSid), leased, oks)
      ensures released == ERROR_SUCCESS <==> oks.Values == {true}
    {
      released, oks := Release();
      open := false;
    }
  }

  /** A successful release leaves nothing leased. */
  lemma NothingLeft(before: Grants, leased: set<Object>, after: Grants, marked: set<Object>, oks: map<Object, bool>)
    requires Released(before, leased, after, marked, oks) && oks.Values == {true}
    ensures marked == {}
  {
    assert forall o :: o in ALL_OBJECTS ==> oks[o] in oks.Values;
  }

  /** The order of the applications, and the objects of the first i of them. */
  function ObjectAt(i: nat): Object {
    if i == 0 then WindowStation else if i == 1 then Desktop else NamedObjects
  }

  function Leading(i: nat): set<Object> {
    if i == 0 then {} else Leading(i - 1) + {ObjectAt(i - 1)}
  }

  lemma LeadingStep(i: nat)
    requires i < 3
    ensures ObjectAt(i) in ALL_OBJECTS && ObjectAt(i) !in Leading(i) && Leading(i) <= ALL_OBJECTS
  {
  }

  lemma LeadingAll()
    ensures Leading(3) == ALL_OBJECTS
  {
  }
}
