/** Access-control lists and the one edit that a read-scope lease makes to them:
    `BrokerReadScope::SetAccess` (src/broker/BrokerReadScope.cpp). */
module Acl {
  import opened Wrappers

  type Mask = bv32

  const FILE_LIST_DIRECTORY: Mask := 0x1
  const FILE_TRAVERSE: Mask := 0x20
  const WRITE_DAC: Mask := 0x40000
  const FILE_ALL_ACCESS: Mask := 0x1F01FF
  const DIRECTORY_TRAVERSE: Mask := 0x2
  const INHERIT_ONLY_ACE: bv8 := 0x8

  /** FILE_ADD_FILE | FILE_ADD_SUBDIRECTORY | FILE_DELETE_CHILD | DELETE | WRITE_DAC | WRITE_OWNER */
  const ANCESTOR_DENY: Mask := 0x2 | 0x4 | 0x40 | 0x10000 | 0x40000 | 0x80000

  datatype Sid = OwnerRights | Principal(id: nat)
  datatype AceType = Allowed | Denied | OtherType(code: nat)
  datatype Ace = Ace(aceType: AceType, flags: bv8, mask: Mask, sid: Sid)

  /** An ACE in a DACL. `lease` says which account's scope put it there (None: anybody else).
      It is bookkeeping for the theorems; `EditIgnoresProvenance` proves no decision reads it. */
  datatype Slot = Slot(ace: Ace, lease: Option<Sid>)
  type Dacl = seq<Slot>

  datatype Group = Group(sid: Sid, enabled: bool, denyOnly: bool)
  datatype Account = Account(sid: Sid, groups: seq<Group>)

  /** What the scope remembers about one folder. `open` is the pinned handle. */
  datatype Entry = Entry(open: bool, addedMask: Mask, addedOwnerDeny: bool,
                         namespaceDirectory: bool, addedTraverseGrant: bool, writable: bool)

  const FRESH_ENTRY := Entry(false, 0, false, false, false, false)

  predicate Clear(e: Entry) {
    e.addedMask == 0 && !e.addedOwnerDeny && !e.addedTraverseGrant
  }

  predicate IsAccessAce(ace: Ace, sid: Sid, mask: Mask, grant: bool) {
    ace.aceType == (if grant then Allowed else Denied) && ace.flags == 0 && ace.mask == mask && ace.sid == sid
  }

  /** The ACE is identical to one that the entry says this lease added. */
  predicate IsLeased(ace: Ace, user: Sid, e: Entry) {
    || (e.addedMask != 0 && IsAccessAce(ace, user, e.addedMask, e.namespaceDirectory))
    || (e.addedOwnerDeny && IsAccessAce(ace, OwnerRights, WRITE_DAC, false))
    || (e.addedTraverseGrant && IsAccessAce(ace, user, FILE_TRAVERSE, true))
  }

  predicate HasAce(dacl: Dacl, sid: Sid, mask: Mask, grant: bool) {
    exists i :: 0 <= i < |dacl| && IsAccessAce(dacl[i].ace, sid, mask, grant)
  }

  predicate HasGroup(groups: seq<Group>, sid: Sid) {
    exists i :: 0 <= i < |groups| && groups[i].enabled && !groups[i].denyOnly && groups[i].sid == sid
  }

  predicate GrantsTraverse(ace: Ace, account: Account) {
    && ace.aceType == Allowed && ace.flags & INHERIT_ONLY_ACE == 0 && ace.mask & FILE_TRAVERSE != 0
    && (ace.sid == account.sid || HasGroup(account.groups, ace.sid))
  }

  predicate HasTraverse(dacl: Dacl, account: Account) {
    exists i :: 0 <= i < |dacl| && GrantsTraverse(dacl[i].ace, account)
  }

  // ---- order-preserving filters over a DACL ----

  datatype Sieve = NotLeased(user: Sid, e: Entry) | NotOf(user: Sid) | Foreign

  predicate Passes(sieve: Sieve, slot: Slot) {
    match sieve
    case NotLeased(user, e) => !IsLeased(slot.ace, user, e)
    case NotOf(user) => slot.lease != Some(user)
    case Foreign => slot.lease == None
  }

  function Filter(sieve: Sieve, dacl: Dacl): Dacl {
    if |dacl| == 0 then []
    else
      var last := dacl[|dacl| - 1];
      Filter(sieve, dacl[..|dacl| - 1]) + (if Passes(sieve, last) then [last] else [])
  }

  lemma {:induction false} FilterConcat(sieve: Sieve, a: Dacl, b: Dacl)
    ensures Filter(sieve, a + b) == Filter(sieve, a) + Filter(sieve, b)
  {
    if |b| == 0 {
      assert a + b == a;
    } else {
      assert (a + b)[..|a + b| - 1] == a + b[..|b| - 1];
      FilterConcat(sieve, a, b[..|b| - 1]);
    }
  }

  lemma {:induction false} FilterMembers(sieve: Sieve, dacl: Dacl)
    ensures forall slot :: slot in Filter(sieve, dacl) <==> slot in dacl && Passes(sieve, slot)
  {
    if |dacl| > 0 {
      FilterMembers(sieve, dacl[..|dacl| - 1]);
      assert dacl == dacl[..|dacl| - 1] + [dacl[|dacl| - 1]];
    }
  }

  /** Filters that agree on every member give the same list. */
  lemma {:induction false} FilterAgree(f: Sieve, g: Sieve, dacl: Dacl)
    requires forall slot :: slot in dacl ==> (Passes(f, slot) <==> Passes(g, slot))
    ensures Filter(f, dacl) == Filter(g, dacl)
  {
    if |dacl| > 0 {
      FilterAgree(f, g, dacl[..|dacl| - 1]);
    }
  }

  lemma {:induction false} FilterAll(sieve: Sieve, dacl: Dacl)
    requires forall slot :: slot in dacl ==> Passes(sieve, slot)
    ensures Filter(sieve, dacl) == dacl
  {
    if |dacl| > 0 {
      FilterAll(sieve, dacl[..|dacl| - 1]);
      assert dacl == dacl[..|dacl| - 1] + [dacl[|dacl| - 1]];
    }
  }

  lemma {:induction false} FilterNone(sieve: Sieve, dacl: Dacl)
    requires forall slot :: slot in dacl ==> !Passes(sieve, slot)
    ensures Filter(sieve, dacl) == []
  {
    if |dacl| > 0 {
      FilterNone(sieve, dacl[..|dacl| - 1]);
    }
  }

  /** Applying a coarser filter after a finer one is applying the coarser one. */
  lemma {:induction false} FilterAbsorbs(coarse: Sieve, fine: Sieve, dacl: Dacl)
    requires forall slot :: slot in dacl && Passes(coarse, slot) ==> Passes(fine, slot)
    ensures Filter(coarse, Filter(fine, dacl)) == Filter(coarse, dacl)
  {
    if |dacl| > 0 {
      var init, last := dacl[..|dacl| - 1], dacl[|dacl| - 1];
      FilterAbsorbs(coarse, fine, init);
      FilterConcat(coarse, Filter(fine, init), if Passes(fine, last) then [last] else []);
      assert Filter(coarse, [last]) == if Passes(coarse, last) then [last] else [];
    }
  }

  // ---- SetAccess as a function of the DACL and the entry ----

  datatype Edit = Edit(written: bool, dacl: Dacl, entry: Entry)

  predicate WantsTraverse(e: Entry, mask: Mask, readableRoot: bool) {
    !e.namespaceDirectory && (readableRoot || mask == ANCESTOR_DENY)
  }

  function Preserved(user: Sid, e: Entry, dacl: Dacl): Dacl {
    Filter(NotLeased(user, e), dacl)
  }

  predicate AddsUser(user: Sid, e: Entry, mask: Mask, kept: Dacl) {
    mask != 0 && !HasAce(kept, user, mask, e.namespaceDirectory)
  }

  predicate AddsOwner(user: Sid, owner: Option<Sid>, e: Entry, mask: Mask, kept: Dacl) {
    && !e.namespaceDirectory && mask != 0 && owner == Some(user)
    && !HasAce(kept, OwnerRights, WRITE_DAC, false)
  }

  predicate AddsTraverse(account: Account, e: Entry, mask: Mask, readableRoot: bool, kept: Dacl) {
    WantsTraverse(e, mask, readableRoot) && !HasTraverse(kept, account)
  }

  function Leased(user: Sid, grant: bool, mask: Mask, sid: Sid): Slot {
    Slot(Ace(if grant then Allowed else Denied, 0, mask, sid), Some(user))
  }

  function When(condition: bool, slot: Slot): Dacl {
    if condition then [slot] else []
  }

  /** The lease's ACEs that go before the preserved ones. */
  function Front(user: Sid, e: Entry, mask: Mask, addUser: bool, addOwner: bool): Dacl {
    When(addUser && !e.namespaceDirectory, Leased(user, false, mask, user))
    + When(addOwner, Leased(user, false, WRITE_DAC, OwnerRights))
  }

  /** The lease's ACEs that go after the preserved ones. */
  function Back(user: Sid, e: Entry, mask: Mask, addUser: bool, addTraverse: bool): Dacl {
    When(addUser && e.namespaceDirectory, Leased(user, true, mask, user))
    + When(addTraverse, Leased(user, true, FILE_TRAVERSE, user))
  }

  function SetAccessEdit(account: Account, owner: Option<Sid>, e: Entry, mask: Mask, readableRoot: bool,
                         dacl: Dacl): Edit
  {
    var user := account.sid;
    var kept := Preserved(user, e, dacl);
    var addUser := AddsUser(user, e, mask, kept);
    var addOwner := AddsOwner(user, owner, e, mask, kept);
    var addTraverse := AddsTraverse(account, e, mask, readableRoot, kept);
    if mask == 0 && Clear(e) && !addTraverse then Edit(false, dacl, e)
    else
      Edit(true,
           Front(user, e, mask, addUser, addOwner) + kept + Back(user, e, mask, addUser, addTraverse),
           e.(addedMask := if addUser then mask else 0, addedOwnerDeny := addOwner,
              addedTraverseGrant := addTraverse, writable := e.writable || !e.namespaceDirectory))
  }

  // ---- what the edit guarantees ----

  /** The provenance marks of `user` are exactly the ACEs its entry says it added. */
  predicate Consistent(user: Sid, e: Entry, dacl: Dacl) {
    forall i :: 0 <= i < |dacl| ==> (dacl[i].lease == Some(user) <==> IsLeased(dacl[i].ace, user, e))
  }

  /** Under a consistent entry, what the edit keeps is exactly what `user` did not add. */
  lemma PreservedIsOthers(user: Sid, e: Entry, dacl: Dacl)
    requires Consistent(user, e, dacl)
    ensures Preserved(user, e, dacl) == Filter(NotOf(user), dacl)
    ensures forall slot :: slot in Preserved(user, e, dacl) ==> slot in dacl && slot.lease != Some(user)
  {
    FilterAgree(NotLeased(user, e), NotOf(user), dacl);
    FilterMembers(NotOf(user), dacl);
  }

  /** One edit keeps everybody else's ACEs, in order, and leaves the marks consistent with the
      new flags: nothing foreign can be mistaken for a lease ACE later. */
  lemma EditKeepsOthers(account: Account, owner: Option<Sid>, e: Entry, mask: Mask, readableRoot: bool, dacl: Dacl)
    requires account.sid.Principal? && Consistent(account.sid, e, dacl)
    ensures var edit := SetAccessEdit(account, owner, e, mask, readableRoot, dacl);
            && Consistent(account.sid, edit.entry, edit.dacl)
            && Filter(NotOf(account.sid), edit.dacl) == Filter(NotOf(account.sid), dacl)
  {
    var edit := SetAccessEdit(account, owner, e, mask, readableRoot, dacl);
    if edit.written {
      var user := account.sid;
      var kept := Preserved(user, e, dacl);
      var addUser, addOwner := AddsUser(user, e, mask, kept), AddsOwner(user, owner, e, mask, kept);
      var addTraverse := AddsTraverse(account, e, mask, readableRoot, kept);
      var front, back := Front(user, e, mask, addUser, addOwner), Back(user, e, mask, addUser, addTraverse);
      PreservedIsOthers(user, e, dacl);
      AssembledConsistent(user, edit.entry, front, kept, back);
      AssembledOthers(user, front, kept, back);
    }
  }

  predicate AllLeased(user: Sid, e: Entry, dacl: Dacl) {
    forall i :: 0 <= i < |dacl| ==> dacl[i].lease == Some(user) && IsLeased(dacl[i].ace, user, e)
  }

  predicate NoneLeased(user: Sid, e: Entry, dacl: Dacl) {
    forall i :: 0 <= i < |dacl| ==> dacl[i].lease != Some(user) && !IsLeased(dacl[i].ace, user, e)
  }

  lemma AssembledConsistent(user: Sid, after: Entry, front: Dacl, kept: Dacl, back: Dacl)
    requires AllLeased(user, after, front) && NoneLeased(user, after, kept) && AllLeased(user, after, back)
    ensures Consistent(user, after, front + kept + back)
  {
  }

  lemma AssembledOthers(user: Sid, front: Dacl, kept: Dacl, back: Dacl)
    requires forall slot :: slot in front ==> slot.lease == Some(user)
    requires forall slot :: slot in kept ==> slot.lease != Some(user)
    requires forall slot :: slot in back ==> slot.lease == Some(user)
    ensures Filter(NotOf(user), front + kept + back) == kept
  {
    var sieve := NotOf(user);
    assert Filter(sieve, front) == [] by {
      FilterNone(sieve, front);
    }
    assert Filter(sieve, back) == [] by {
      FilterNone(sieve, back);
    }
    assert Filter(sieve, kept) == kept by {
      FilterAll(sieve, kept);
    }
    assert Filter(sieve, front + kept) == kept by {
      FilterConcat(sieve, front, kept);
    }
    FilterConcat(sieve, front + kept, back);
  }

  /** Removing the lease (`SetAccess(entry, 0)`) gives back exactly the others' ACEs, in order,
      and clears every flag. */
  lemma EditRestores(account: Account, owner: Option<Sid>, e: Entry, dacl: Dacl)
    requires Consistent(account.sid, e, dacl)
    ensures var edit := SetAccessEdit(account, owner, e, 0, false, dacl);
            Clear(edit.entry) && edit.dacl == Filter(NotOf(account.sid), dacl)
  {
    PreservedIsOthers(account.sid, e, dacl);
    if Clear(e) {
      FilterAll(NotOf(account.sid), dacl);
    }
  }

  /** Repeating an edit changes nothing: no duplicate denies accumulate over launches. */
  lemma EditIdempotent(account: Account, owner: Option<Sid>, e: Entry, mask: Mask, readableRoot: bool, dacl: Dacl)
    requires account.sid.Principal? && Consistent(account.sid, e, dacl)
    ensures var once := SetAccessEdit(account, owner, e, mask, readableRoot, dacl);
            var twice := SetAccessEdit(account, owner, once.entry, mask, readableRoot, once.dacl);
            twice.dacl == once.dacl && twice.entry == once.entry
  {
    var once := SetAccessEdit(account, owner, e, mask, readableRoot, dacl);
    EditKeepsOthers(account, owner, e, mask, readableRoot, dacl);
    PreservedIsOthers(account.sid, e, dacl);
    PreservedIsOthers(account.sid, once.entry, once.dacl);
    SameKeptSameEdit(account, owner, e, mask, readableRoot, dacl);
  }

  lemma SameKeptSameEdit(account: Account, owner: Option<Sid>, e: Entry, mask: Mask, readableRoot: bool, dacl: Dacl)
    requires var once := SetAccessEdit(account, owner, e, mask, readableRoot, dacl);
             Preserved(account.sid, once.entry, once.dacl) == Preserved(account.sid, e, dacl)
    ensures var once := SetAccessEdit(account, owner, e, mask, readableRoot, dacl);
            var twice := SetAccessEdit(account, owner, once.entry, mask, readableRoot, once.dacl);
            twice.dacl == once.dacl && twice.entry == once.entry
  {
    var user, once := account.sid, SetAccessEdit(account, owner, e, mask, readableRoot, dacl);
    var kept := Preserved(user, e, dacl);
    assert AddsUser(user, once.entry, mask, kept) == AddsUser(user, e, mask, kept);
    assert AddsOwner(user, owner, once.entry, mask, kept) == AddsOwner(user, owner, e, mask, kept);
    assert AddsTraverse(account, once.entry, mask, readableRoot, kept) ==
           AddsTraverse(account, e, mask, readableRoot, kept);
  }

  /** After a successful non-zero edit the wanted ACE is in the DACL, wherever it came from; a namespace
      grant the lease adds stands behind every ACE that was there, a folder deny in front. */
  lemma EditCarries(account: Account, owner: Option<Sid>, e: Entry, mask: Mask, readableRoot: bool, dacl: Dacl)
    requires mask != 0
    ensures var edit := SetAccessEdit(account, owner, e, mask, readableRoot, dacl);
            HasAce(edit.dacl, account.sid, mask, e.namespaceDirectory)
    ensures var edit := SetAccessEdit(account, owner, e, mask, readableRoot, dacl);
            edit.entry.addedMask != 0 ==>
              IsAccessAce(edit.dacl[if e.namespaceDirectory then |edit.dacl| - 1 else 0].ace, account.sid, mask,
                          e.namespaceDirectory)
  {
    var user := account.sid;
    var kept := Preserved(user, e, dacl);
    var edit := SetAccessEdit(account, owner, e, mask, readableRoot, dacl);
    var addUser, addOwner := AddsUser(user, e, mask, kept), AddsOwner(user, owner, e, mask, kept);
    var front := Front(user, e, mask, addUser, addOwner);
    if addUser {
      var k := if e.namespaceDirectory then |front + kept| else 0;
      assert IsAccessAce(edit.dacl[k].ace, user, mask, e.namespaceDirectory);
    } else {
      var k :| 0 <= k < |kept| && IsAccessAce(kept[k].ace, user, mask, e.namespaceDirectory);
      assert edit.dacl[|front| + k] == kept[k];
    }
  }

  /** An edit for a folder that its own account owns also denies the owner's implicit rights. */
  lemma EditDeniesOwner(account: Account, owner: Option<Sid>, e: Entry, mask: Mask, readableRoot: bool, dacl: Dacl)
    requires mask != 0 && !e.namespaceDirectory && owner == Some(account.sid)
    ensures HasAce(SetAccessEdit(account, owner, e, mask, readableRoot, dacl).dacl, OwnerRights, WRITE_DAC, false)
  {
    var user := account.sid;
    var kept := Preserved(user, e, dacl);
    var edit := SetAccessEdit(account, owner, e, mask, readableRoot, dacl);
    var addUser, addOwner := AddsUser(user, e, mask, kept), AddsOwner(user, owner, e, mask, kept);
    var front := Front(user, e, mask, addUser, addOwner);
    if addOwner {
      assert IsAccessAce(edit.dacl[|front| - 1].ace, OwnerRights, WRITE_DAC, false);
    } else {
      var k :| 0 <= k < |kept| && IsAccessAce(kept[k].ace, OwnerRights, WRITE_DAC, false);
      assert edit.dacl[|front| + k] == kept[k];
    }
  }

  /** An edit that wants traversal leaves an ACE that grants it to the account or one of its groups. */
  lemma EditGrantsTraverse(account: Account, owner: Option<Sid>, e: Entry, mask: Mask, readableRoot: bool, dacl: Dacl)
    requires WantsTraverse(e, mask, readableRoot)
    ensures HasTraverse(SetAccessEdit(account, owner, e, mask, readableRoot, dacl).dacl, account)
  {
    var user := account.sid;
    var kept := Preserved(user, e, dacl);
    var edit := SetAccessEdit(account, owner, e, mask, readableRoot, dacl);
    var front := Front(user, e, mask, AddsUser(user, e, mask, kept), AddsOwner(user, owner, e, mask, kept));
    if AddsTraverse(account, e, mask, readableRoot, kept) {
      EditAddsTraverseLast(account, owner, e, mask, readableRoot, dacl);
      TraverseAceGrants(account);
    } else {
      var k :| 0 <= k < |kept| && GrantsTraverse(kept[k].ace, account);
      if edit.written {
        assert edit.dacl[|front| + k] == kept[k];
      } else {
        FilterMembers(NotLeased(user, e), dacl);
        assert kept[k] in dacl;
        var j :| 0 <= j < |dacl| && dacl[j] == kept[k];
      }
    }
  }

  lemma TraverseAceGrants(account: Account)
    ensures GrantsTraverse(Leased(account.sid, true, FILE_TRAVERSE, account.sid).ace, account)
  {
  }

  /** A traverse ACE that the lease adds stands behind all others. */
  lemma EditAddsTraverseLast(account: Account, owner: Option<Sid>, e: Entry, mask: Mask, readableRoot: bool, dacl: Dacl)
    requires AddsTraverse(account, e, mask, readableRoot, Preserved(account.sid, e, dacl))
    ensures var edit := SetAccessEdit(account, owner, e, mask, readableRoot, dacl);
            && edit.written && edit.entry.addedTraverseGrant
            && edit.dacl != [] && edit.dacl[|edit.dacl| - 1] == Leased(account.sid, true, FILE_TRAVERSE, account.sid)
  {
  }

  function Aces(dacl: Dacl): seq<Ace> {
    seq(|dacl|, i requires 0 <= i < |dacl| => dacl[i].ace)
  }

  /** The edit's decisions and the ACEs it writes depend on the ACEs alone, never on the marks. */
  lemma EditIgnoresProvenance(account: Account, owner: Option<Sid>, e: Entry, mask: Mask, readableRoot: bool,
                              a: Dacl, b: Dacl)
    requires Aces(a) == Aces(b)
    ensures var x := SetAccessEdit(account, owner, e, mask, readableRoot, a);
            var y := SetAccessEdit(account, owner, e, mask, readableRoot, b);
            x.written == y.written && x.entry == y.entry && Aces(x.dacl) == Aces(y.dacl)
  {
    var user := account.sid;
    var p, q := Preserved(user, e, a), Preserved(user, e, b);
    PreservedIgnoresProvenance(user, e, a, b);
    SameAces(p, q, account);
    var addUser, addOwner := AddsUser(user, e, mask, p), AddsOwner(user, owner, e, mask, p);
    var addTraverse := AddsTraverse(account, e, mask, readableRoot, p);
    var front, back := Front(user, e, mask, addUser, addOwner), Back(user, e, mask, addUser, addTraverse);
    SameDecisions(account, owner, e, mask, readableRoot, p, q);
    AcesConcat(front + p, back);
    AcesConcat(front, p);
    AcesConcat(front + q, back);
    AcesConcat(front, q);
  }

  lemma SameDecisions(account: Account, owner: Option<Sid>, e: Entry, mask: Mask, readableRoot: bool, p: Dacl, q: Dacl)
    requires Aces(p) == Aces(q)
    ensures AddsUser(account.sid, e, mask, p) == AddsUser(account.sid, e, mask, q)
    ensures AddsOwner(account.sid, owner, e, mask, p) == AddsOwner(account.sid, owner, e, mask, q)
    ensures AddsTraverse(account, e, mask, readableRoot, p) == AddsTraverse(account, e, mask, readableRoot, q)
  {
    SameAces(p, q, account);
  }

  lemma {:induction false} PreservedIgnoresProvenance(user: Sid, e: Entry, a: Dacl, b: Dacl)
    requires Aces(a) == Aces(b)
    ensures Aces(Preserved(user, e, a)) == Aces(Preserved(user, e, b))
  {
    assert |a| == |Aces(a)| == |Aces(b)| == |b|;
    if |a| > 0 {
      var n := |a| - 1;
      assert a[n].ace == Aces(a)[n] == b[n].ace;
      assert Aces(a[..n]) == Aces(a)[..n] == Aces(b)[..n] == Aces(b[..n]);
      PreservedIgnoresProvenance(user, e, a[..n], b[..n]);
      var p, q := Preserved(user, e, a[..n]), Preserved(user, e, b[..n]);
      AcesConcat(p, When(!IsLeased(a[n].ace, user, e), a[n]));
      AcesConcat(q, When(!IsLeased(b[n].ace, user, e), b[n]));
    }
  }

  lemma AcesConcat(a: Dacl, b: Dacl)
    ensures Aces(a + b) == Aces(a) + Aces(b)
  {
  }

  lemma SameAces(a: Dacl, b: Dacl, account: Account)
    requires Aces(a) == Aces(b)
    ensures |a| == |b| && forall i :: 0 <= i < |a| ==> a[i].ace == b[i].ace
    ensures forall sid, mask, grant :: HasAce(a, sid, mask, grant) <==> HasAce(b, sid, mask, grant)
    ensures HasTraverse(a, account) <==> HasTraverse(b, account)
  {
    assert |a| == |Aces(a)| == |Aces(b)| == |b|;
    forall i | 0 <= i < |a|
      ensures a[i].ace == b[i].ace
    {
      assert a[i].ace == Aces(a)[i] == Aces(b)[i];
    }
  }

  /** The deny an ancestor of an allowed root gets covers neither listing nor traversal. */
  lemma AncestorDenyAllowsTraversal()
    ensures ANCESTOR_DENY & (FILE_LIST_DIRECTORY | FILE_TRAVERSE) == 0
    ensures WRITE_DAC & (FILE_LIST_DIRECTORY | FILE_TRAVERSE) == 0
    ensures FILE_ALL_ACCESS & FILE_LIST_DIRECTORY != 0 && FILE_ALL_ACCESS & FILE_TRAVERSE != 0
    ensures ANCESTOR_DENY != 0 && ANCESTOR_DENY != FILE_ALL_ACCESS
  {
  }
}
