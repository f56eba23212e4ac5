/** What a read-scope walk must keep true of the folder DACLs: protection of excluded folders, masks
    that suit each folder's role, and everybody else's ACEs (src/broker/BrokerReadScope.cpp). */
module ScopeWorld {
  import opened Text
  import opened Paths
  import opened Acl
  import opened Wrappers

  type Dacls = map<Wide, Dacl>
  type Entries = map<Wide, Entry>

  /** DACLs, lease records and the DACL snapshots after each successful write so far. */
  datatype World = World(dacls: Dacls, entries: Entries, history: seq<Dacls>)

  /** The fixed facts of one walk: the folders there are with their owners, the allowed roots and the
      account. */
  datatype Scene = Scene(folders: set<Wide>, owners: map<Wide, Sid>, allowed: seq<Wide>, user: Sid, groups: seq<Group>)

  function OwnerIn(s: Scene, path: Wide): Option<Sid> {
    if path in s.owners then Some(s.owners[path]) else None
  }

  function At(entries: Entries, path: Wide): Entry {
    if path in entries then entries[path] else FRESH_ENTRY
  }

  predicate FullDeny(dacls: Dacls, user: Sid, path: Wide) {
    path in dacls && HasAce(dacls[path], user, FILE_ALL_ACCESS, false)
  }

  /** An owner keeps the right to change the DACL unless the owner-rights deny takes it away. */
  predicate OwnerDenied(s: Scene, dacls: Dacls, path: Wide) {
    path in dacls && (OwnerIn(s, path) == Some(s.user) ==> HasAce(dacls[path], OwnerRights, WRITE_DAC, false))
  }

  /** `q` or an ancestor of at least `floor` characters carries the full user deny; strictly, with the
      owner's rights denied there too. */
  ghost predicate Covered(s: Scene, dacls: Dacls, q: Wide, floor: nat, strict: bool) {
    exists x :: Within(q, x) && |x| >= floor && FullDeny(dacls, s.user, x) && (strict ==> OwnerDenied(s, dacls, x))
  }

  /** The excluded folders that are protected, each with every floor at which it is. */
  ghost function Protected(s: Scene, dacls: Dacls): iset<(Wide, nat, bool)> {
    iset q: Wide, floor: nat, strict: bool |
      q in s.folders && Excluded(q, s.allowed) && Covered(s, dacls, q, floor, strict) :: (q, floor, strict)
  }

  /** On the way to an allowed root the account may traverse the folder and, short of the root itself,
      is denied every change. */
  predicate Passable(s: Scene, dacls: Dacls, q: Wide) {
    && AboveAllowed(q, s.allowed) && q in dacls && HasTraverse(dacls[q], Account(s.user, s.groups))
    && (!Readable(q, s.allowed) ==> HasAce(dacls[q], s.user, ANCESTOR_DENY, false) && OwnerDenied(s, dacls, q))
  }

  ghost function Passages(s: Scene, dacls: Dacls): set<Wide> {
    set q | q in s.folders && Passable(s, dacls, q)
  }

  /** Every excluded folder protected before is protected, at the same depth, after. */
  ghost predicate Keeps(s: Scene, before: Dacls, after: Dacls) {
    Protected(s, before) <= Protected(s, after)
  }

  /** The lease's denies suit the folder: none inside an allowed root, at most the ancestor deny above
      one. */
  predicate Suits(q: Wide, allowed: seq<Wide>, e: Entry) {
    && (Readable(q, allowed) ==> e.addedMask == 0 && !e.addedOwnerDeny)
    && (AboveAllowed(q, allowed) ==> e.addedMask == 0 || e.addedMask == ANCESTOR_DENY)
  }

  /** The folders whose recorded deny suits their role. */
  ghost function Suited(s: Scene, entries: Entries): set<Wide> {
    set q | q in s.folders && Suits(q, s.allowed, At(entries, q))
  }

  /** What each DACL holds that the account's lease did not add. */
  ghost function Others(user: Sid, dacls: Dacls): Dacls {
    map p | p in dacls :: Filter(NotOf(user), dacls[p])
  }

  /** Entries a walk never drops. */
  ghost function Lasting(s: Scene, entries: Entries): set<Wide> {
    set q | q in entries && !Readable(q, s.allowed)
  }

  predicate Extends(before: seq<Dacls>, after: seq<Dacls>) {
    |before| <= |after| && after[..|before|] == before
  }

  /** A safe stretch of a walk: no excluded folder loses its protection after any single write, no
      passage closes, no suitable mask becomes unsuitable, nobody else's ACE changes, and only entries
      inside allowed roots are dropped. */
  ghost predicate Progress(s: Scene, before: World, after: World) {
    && Keeps(s, before.dacls, after.dacls)
    && Passages(s, before.dacls) <= Passages(s, after.dacls)
    && Suited(s, before.entries) <= Suited(s, after.entries)
    && Others(s.user, after.dacls) == Others(s.user, before.dacls)
    && Lasting(s, before.entries) <= Lasting(s, after.entries)
    && Extends(before.history, after.history)
    && forall k :: |before.history| <= k < |after.history| ==> Keeps(s, before.dacls, after.history[k])
  }

  lemma ProgressStill(s: Scene, w: World)
    ensures Progress(s, w, w)
  {
  }

  lemma ProgressTransitive(s: Scene, a: World, b: World, c: World)
    requires Progress(s, a, b) && Progress(s, b, c)
    ensures Progress(s, a, c)
  {
    assert c.history[..|a.history|] == c.history[..|b.history|][..|a.history|];
    forall k | |a.history| <= k < |c.history|
      ensures Keeps(s, a.dacls, c.history[k])
    {
      if k < |b.history| {
        assert c.history[k] == c.history[..|b.history|][k] == b.history[k];
      }
    }
  }

  /** Every excluded folder at or below `path` is protected from within. */
  ghost predicate CoveredBelow(s: Scene, dacls: Dacls, path: Wide) {
    forall q :: q in s.folders && Excluded(q, s.allowed) && Within(q, path) ==> Covered(s, dacls, q, |path|, true)
  }

  /** The account can pass from `path` to every allowed root below it. */
  ghost predicate PassableBelow(s: Scene, dacls: Dacls, path: Wide) {
    forall q :: q in s.folders && AboveAllowed(q, s.allowed) && Within(q, path) ==> Passable(s, dacls, q)
  }

  ghost predicate SuitsBelow(s: Scene, entries: Entries, path: Wide) {
    forall q :: q in s.folders && Within(q, path) ==> Suits(q, s.allowed, At(entries, q))
  }

  ghost predicate Done(s: Scene, w: World, path: Wide) {
    CoveredBelow(s, w.dacls, path) && PassableBelow(s, w.dacls, path) && SuitsBelow(s, w.entries, path)
  }

  lemma DoneStays(s: Scene, before: World, after: World, path: Wide)
    requires Done(s, before, path) && Progress(s, before, after)
    ensures Done(s, after, path)
  {
    forall q | q in s.folders && Excluded(q, s.allowed) && Within(q, path)
      ensures Covered(s, after.dacls, q, |path|, true)
    {
      assert (q, |path|, true) in Protected(s, before.dacls);
      assert (q, |path|, true) in Protected(s, after.dacls);
    }
    forall q | q in s.folders && AboveAllowed(q, s.allowed) && Within(q, path)
      ensures Passable(s, after.dacls, q)
    {
      assert q in Passages(s, before.dacls);
      assert q in Passages(s, after.dacls);
    }
    forall q | q in s.folders && Within(q, path)
      ensures Suits(q, s.allowed, At(after.entries, q))
    {
      assert q in Suited(s, before.entries);
      assert q in Suited(s, after.entries);
    }
  }

  /** A folder inside an allowed root needs its deny gone, and every deny below it. */
  lemma ReadableDone(s: Scene, before: World, after: World, path: Wide)
    requires Readable(path, s.allowed) && Antichain(s.allowed) && Progress(s, before, after)
    requires path in s.folders ==> Suits(path, s.allowed, At(before.entries, path))
    requires path in s.folders && AboveAllowed(path, s.allowed) ==> Passable(s, before.dacls, path)
    requires GrantsOnlyBelow(after.entries, path)
    ensures Done(s, after, path)
  {
    forall q | q in s.folders && AboveAllowed(q, s.allowed) && Within(q, path)
      ensures Passable(s, after.dacls, q)
    {
      AboveInsideRoot(q, path, s.allowed);
      assert q in Passages(s, before.dacls);
      assert q in Passages(s, after.dacls);
    }
    forall q | q in s.folders && Within(q, path)
      ensures Readable(q, s.allowed) && Suits(q, s.allowed, At(after.entries, q))
    {
      ReadableBelow(q, path, s.allowed);
      if q == path {
        assert q in Suited(s, before.entries);
        assert q in Suited(s, after.entries);
      }
    }
  }

  /** Strictly below `path` only entries with a traversal grant are kept, and they record no deny. */
  predicate GrantsOnlyBelow(entries: Entries, path: Wide) {
    forall q :: q in entries && Within(q, path) && q != path ==> GrantOnly(entries[q])
  }

  predicate GrantOnly(e: Entry) {
    e.addedMask == 0 && !e.addedOwnerDeny && e.addedTraverseGrant
  }

  /** The full deny on an excluded folder protects everything below it. */
  lemma ExcludedDone(s: Scene, w: World, path: Wide)
    requires Excluded(path, s.allowed) && FullDeny(w.dacls, s.user, path) && OwnerDenied(s, w.dacls, path)
    ensures Done(s, w, path)
  {
    forall q | q in s.folders && Within(q, path)
      ensures Suits(q, s.allowed, At(w.entries, q)) && !AboveAllowed(q, s.allowed)
      ensures Covered(s, w.dacls, q, |path|, true)
    {
      ExcludedBelow(q, path, s.allowed);
    }
  }

  // ---- one write ----

  /** A write at `path` is safe when the new DACL carries the full deny or every excluded folder
      at or below `path` is already protected strictly below it. */
  lemma WriteKeeps(s: Scene, dacls: Dacls, path: Wide, dacl: Dacl)
    requires path in dacls
    requires (HasAce(dacl, s.user, FILE_ALL_ACCESS, false) && OwnerDenied(s, dacls[path := dacl], path)) ||
             CoveredStrictlyBelow(s, dacls, path)
    ensures Keeps(s, dacls, dacls[path := dacl])
  {
    var after := dacls[path := dacl];
    forall q, floor: nat, strict | q in s.folders && Excluded(q, s.allowed) && Covered(s, dacls, q, floor, strict)
      ensures Covered(s, after, q, floor, strict)
    {
      var x :| Within(q, x) && |x| >= floor && FullDeny(dacls, s.user, x) && (strict ==> OwnerDenied(s, dacls, x));
      if x != path || (HasAce(dacl, s.user, FILE_ALL_ACCESS, false) && OwnerDenied(s, after, path)) {
        assert FullDeny(after, s.user, x) && (strict ==> OwnerDenied(s, after, x));
      } else {
        assert Covered(s, dacls, q, |path| + 1, true);
        var y :| Within(q, y) && |y| >= |path| + 1 && FullDeny(dacls, s.user, y) && OwnerDenied(s, dacls, y);
        assert FullDeny(after, s.user, y) && OwnerDenied(s, after, y);
      }
    }
  }

  /** Every excluded folder at or below `path` is protected strictly below it. */
  ghost predicate CoveredStrictlyBelow(s: Scene, dacls: Dacls, path: Wide) {
    forall q :: q in s.folders && Excluded(q, s.allowed) && Within(q, path) ==>
                  Covered(s, dacls, q, |path| + 1, true)
  }

  /** How `Visit` calls `SetAccess`, by the folder's role. */
  ghost predicate Proper(s: Scene, w: World, path: Wide, mask: Mask) {
    || (Readable(path, s.allowed) && mask == 0)
    || (Excluded(path, s.allowed) && mask == FILE_ALL_ACCESS)
    || (!Readable(path, s.allowed) && AboveAllowed(path, s.allowed) && mask == ANCESTOR_DENY &&
        CoveredStrictlyBelow(s, w.dacls, path))
  }

  /** The world after a `SetAccess` that wrote `edit` at `path`. */
  predicate Wrote(before: World, after: World, path: Wide, edit: Edit) {
    && path in before.dacls
    && after.dacls == before.dacls[path := edit.dacl]
    && after.entries == before.entries[path := edit.entry]
    && after.history == if edit.written then before.history + [after.dacls] else before.history
  }

  lemma ProperWriteProgress(s: Scene, before: World, after: World, path: Wide, mask: Mask, readableRoot: bool)
    requires Proper(s, before, path, mask) && s.user.Principal? && (mask == 0 ==> readableRoot)
    requires path in before.dacls && Consistent(s.user, At(before.entries, path), before.dacls[path])
    requires mask != 0 || path in s.folders ==> !At(before.entries, path).namespaceDirectory
    requires Wrote(before, after, path, EditIn(s, before, path, mask, readableRoot))
    ensures Progress(s, before, after)
    ensures Suits(path, s.allowed, At(after.entries, path))
    ensures mask == FILE_ALL_ACCESS ==> FullDeny(after.dacls, s.user, path) && OwnerDenied(s, after.dacls, path)
    ensures path in s.folders && AboveAllowed(path, s.allowed) ==> Passable(s, after.dacls, path)
  {
    var edit := EditIn(s, before, path, mask, readableRoot);
    EditKeepsOthers(Account(s.user, s.groups), OwnerIn(s, path), At(before.entries, path), mask, readableRoot,
                    before.dacls[path]);
    EditServes(s, before, path, mask, readableRoot);
    if Readable(path, s.allowed) {
      NothingExcludedBelow(s, before.dacls, path);
    }
    WriteKeeps(s, before.dacls, path, edit.dacl);
    PassagesStay(s, before.dacls, path, edit.dacl);
    OthersStay(s.user, before.dacls, path, edit.dacl);
    SuitedStay(s, before.entries, path, edit.entry);
    assert Extends(before.history, after.history);
  }

  lemma NothingExcludedBelow(s: Scene, dacls: Dacls, path: Wide)
    requires Readable(path, s.allowed)
    ensures CoveredStrictlyBelow(s, dacls, path)
  {
    forall q | q in s.folders && Within(q, path)
      ensures !Excluded(q, s.allowed)
    {
      ReadableBelow(q, path, s.allowed);
    }
  }

  lemma OthersStay(user: Sid, dacls: Dacls, path: Wide, dacl: Dacl)
    requires path in dacls && Filter(NotOf(user), dacl) == Filter(NotOf(user), dacls[path])
    ensures Others(user, dacls[path := dacl]) == Others(user, dacls)
  {
  }

  lemma SuitedStay(s: Scene, entries: Entries, path: Wide, e: Entry)
    requires Suits(path, s.allowed, e)
    ensures Suited(s, entries) <= Suited(s, entries[path := e])
    ensures Lasting(s, entries) <= Lasting(s, entries[path := e])
  {
    assert forall q :: q != path ==> At(entries[path := e], q) == At(entries, q);
  }

  /** A write closes no passage if the folder it is made on stays one. */
  lemma PassagesStay(s: Scene, dacls: Dacls, path: Wide, dacl: Dacl)
    requires path in dacls
    requires path in s.folders && AboveAllowed(path, s.allowed) ==> Passable(s, dacls[path := dacl], path)
    ensures Passages(s, dacls) <= Passages(s, dacls[path := dacl])
  {
  }

  /** The edit a `SetAccess` call makes in this world. */
  function EditIn(s: Scene, w: World, path: Wide, mask: Mask, readableRoot: bool): Edit
    requires path in w.dacls
  {
    SetAccessEdit(Account(s.user, s.groups), OwnerIn(s, path), At(w.entries, path), mask, readableRoot, w.dacls[path])
  }

  /** The edit gives the folder what its role needs. */
  lemma EditServes(s: Scene, w: World, path: Wide, mask: Mask, readableRoot: bool)
    requires Proper(s, w, path, mask) && path in w.dacls && (mask == 0 ==> readableRoot)
    requires mask != 0 || path in s.folders ==> !At(w.entries, path).namespaceDirectory
    ensures var edit := EditIn(s, w, path, mask, readableRoot);
            var after := w.dacls[path := edit.dacl];
            && Suits(path, s.allowed, edit.entry)
            && (mask != 0 ==> HasAce(edit.dacl, s.user, mask, false) && OwnerDenied(s, after, path))
            && (path in s.folders && AboveAllowed(path, s.allowed) ==> Passable(s, after, path))
  {
    var account, e := Account(s.user, s.groups), At(w.entries, path);
    AncestorDenyAllowsTraversal();
    if mask != 0 {
      EditCarries(account, OwnerIn(s, path), e, mask, readableRoot, w.dacls[path]);
      if OwnerIn(s, path) == Some(s.user) {
        EditDeniesOwner(account, OwnerIn(s, path), e, mask, readableRoot, w.dacls[path]);
      }
    }
    if WantsTraverse(e, mask, readableRoot) {
      EditGrantsTraverse(account, OwnerIn(s, path), e, mask, readableRoot, w.dacls[path]);
    }
  }

  // ---- what a scope's records always satisfy ----

  predicate PinnedEntry(folders: set<Wide>, w: World, p: Wide)
    requires p in w.entries
  {
    && (!Clear(w.entries[p]) ==> w.entries[p].open)
    && (w.entries[p].open ==> p in w.dacls)
    && (p in folders ==> !w.entries[p].namespaceDirectory)
    && (w.entries[p].open && !w.entries[p].namespaceDirectory ==> p in folders)
  }

  /** Only pinned objects carry lease ACEs, and folder entries are folder entries. */
  ghost predicate Pinned(folders: set<Wide>, w: World) {
    Unpinned(folders, w) == {}
  }

  ghost function Unpinned(folders: set<Wide>, w: World): set<Wide> {
    set p | p in w.entries && !PinnedEntry(folders, w, p)
  }

  /** The flags account for exactly the ACEs this account's scope added. */
  ghost predicate Recorded(user: Sid, w: World) {
    user.Principal? && Unrecorded(user, w) == {}
  }

  ghost function Unrecorded(user: Sid, w: World): set<Wide> {
    set p | p in w.dacls && !Consistent(user, At(w.entries, p), w.dacls[p])
  }

  lemma PinnedAt(folders: set<Wide>, w: World, p: Wide)
    requires Pinned(folders, w) && p in w.entries
    ensures PinnedEntry(folders, w, p)
  {
    assert p !in Unpinned(folders, w);
  }

  lemma RecordedAt(user: Sid, w: World, p: Wide)
    requires Recorded(user, w) && p in w.dacls
    ensures Consistent(user, At(w.entries, p), w.dacls[p])
  {
    assert p !in Unrecorded(user, w);
  }

  /** Records that hold at every path but one hold when that one is right. */
  lemma RecordsChange(folders: set<Wide>, user: Sid, before: World, after: World, path: Wide)
    requires Pinned(folders, before) && Recorded(user, before)
    requires after.dacls.Keys == before.dacls.Keys
    requires forall p :: p != path ==> (p in after.entries <==> p in before.entries)
    requires forall p :: p != path && p in before.entries ==> after.entries[p] == before.entries[p]
    requires forall p :: p != path && p in before.dacls ==> after.dacls[p] == before.dacls[p]
    requires path in after.entries ==> PinnedEntry(folders, after, path)
    requires path in after.dacls ==> Consistent(user, At(after.entries, path), after.dacls[path])
    ensures Pinned(folders, after) && Recorded(user, after)
  {
    forall p | p in after.entries
      ensures PinnedEntry(folders, after, p)
    {
      if p != path {
        PinnedAt(folders, before, p);
      }
    }
    forall p | p in after.dacls
      ensures Consistent(user, At(after.entries, p), after.dacls[p])
    {
      if p != path {
        RecordedAt(user, before, p);
      }
    }
  }

  /** At most the handle of the entry at `path` was reopened. */
  predicate Untouched(before: World, after: World, path: Wide) {
    && after.dacls == before.dacls && after.history == before.history
    && path in before.entries && path in after.entries
    && after.entries == before.entries[path := before.entries[path].(writable := after.entries[path].writable)]
  }

  /** What one `SetAccess` call on the entry at `path` may do, given the error it returns. */
  predicate Outcome(before: World, after: World, path: Wide, account: Account, owner: Option<Sid>, mask: Mask,
                    readableRoot: bool, failed: bool)
    requires path in before.entries
  {
    if !failed && path in before.dacls then
      Wrote(before, after, path, SetAccessEdit(account, owner, before.entries[path], mask, readableRoot,
                                               before.dacls[path]))
    else
      Untouched(before, after, path) && (!failed ==> mask == 0 && Clear(before.entries[path]))
  }

  lemma OutcomeKeepsRecords(folders: set<Wide>, before: World, after: World, path: Wide, account: Account,
                            owner: Option<Sid>, mask: Mask, readableRoot: bool, failed: bool)
    requires path in before.entries && Outcome(before, after, path, account, owner, mask, readableRoot, failed)
    requires Pinned(folders, before) && Recorded(account.sid, before) && before.entries[path].open
    ensures Pinned(folders, after) && Recorded(account.sid, after)
    ensures after.entries.Keys == before.entries.Keys && after.dacls.Keys == before.dacls.Keys
  {
    PinnedAt(folders, before, path);
    RecordedAt(account.sid, before, path);
    if !failed && path in before.dacls {
      EditKeepsOthers(account, owner, before.entries[path], mask, readableRoot, before.dacls[path]);
      EditFrame(account, owner, before.entries[path], mask, readableRoot, before.dacls[path]);
    }
    RecordsChange(folders, account.sid, before, after, path);
  }

  lemma EditFrame(account: Account, owner: Option<Sid>, e: Entry, mask: Mask, readableRoot: bool, dacl: Dacl)
    ensures var after := SetAccessEdit(account, owner, e, mask, readableRoot, dacl).entry;
            after.open == e.open && after.namespaceDirectory == e.namespaceDirectory
  {
  }

  /** A failed or idle call is a safe stretch too. */
  lemma UntouchedProgress(s: Scene, before: World, after: World, path: Wide)
    requires Untouched(before, after, path)
    ensures Progress(s, before, after)
    ensures Suits(path, s.allowed, At(before.entries, path)) ==> Suits(path, s.allowed, At(after.entries, path))
  {
    assert forall q :: At(after.entries, q).addedMask == At(before.entries, q).addedMask;
    assert Keeps(s, before.dacls, after.dacls);
  }

  /** A `SetAccess` call made as `Visit` makes it is a safe stretch; if it succeeds, the folder's
      mask suits its role, an excluded folder carries the full deny, and an allowed root or a folder
      above one is a passage. */
  lemma OutcomeProgress(s: Scene, before: World, after: World, path: Wide, mask: Mask, readableRoot: bool, failed: bool)
    requires path in before.entries && s.user.Principal? && (mask == 0 ==> readableRoot)
    requires Outcome(before, after, path, Account(s.user, s.groups), OwnerIn(s, path), mask, readableRoot, failed)
    requires Proper(s, before, path, mask) && Recorded(s.user, before)
    requires mask != 0 || path in s.folders ==> !before.entries[path].namespaceDirectory
    ensures Progress(s, before, after)
    ensures !failed ==> Suits(path, s.allowed, At(after.entries, path))
    ensures !failed && mask == FILE_ALL_ACCESS ==>
              FullDeny(after.dacls, s.user, path) && OwnerDenied(s, after.dacls, path)
    ensures !failed && path in s.folders && path in before.dacls && AboveAllowed(path, s.allowed) ==>
              Passable(s, after.dacls, path)
  {
    if !failed && path in before.dacls {
      RecordedAt(s.user, before, path);
      ProperWriteProgress(s, before, after, path, mask, readableRoot);
    } else {
      UntouchedProgress(s, before, after, path);
    }
  }

  lemma ZeroEditClears(before: World, after: World, path: Wide, account: Account, owner: Option<Sid>,
                       readableRoot: bool)
    requires path in before.entries && Outcome(before, after, path, account, owner, 0, readableRoot, false)
    ensures path in after.entries && after.entries[path].addedMask == 0 && !after.entries[path].addedOwnerDeny
    ensures !readableRoot ==> Clear(after.entries[path])
  {
  }

  /** Dropping an entry whose flags are clear forgets nothing. */
  lemma ForgetKeeps(s: Scene, w: World, path: Wide)
    requires path in w.entries && Clear(w.entries[path]) && Readable(path, s.allowed)
    requires Pinned(s.folders, w) && Recorded(s.user, w)
    ensures var after := w.(entries := w.entries - {path});
            Pinned(s.folders, after) && Recorded(s.user, after) && Progress(s, w, after)
  {
    var after := w.(entries := w.entries - {path});
    if path in w.dacls {
      RecordedAt(s.user, w, path);
    }
    RecordsChange(s.folders, s.user, w, after, path);
    assert forall q :: At(after.entries, q) == if q == path then FRESH_ENTRY else At(w.entries, q);
  }

  /** A new entry records nothing yet. */
  lemma InsertKeeps(s: Scene, w: World, path: Wide)
    requires path !in w.entries && Pinned(s.folders, w) && Recorded(s.user, w)
    ensures var after := w.(entries := w.entries[path := FRESH_ENTRY]);
            Pinned(s.folders, after) && Recorded(s.user, after) && Progress(s, w, after)
  {
    var after := w.(entries := w.entries[path := FRESH_ENTRY]);
    ClearEntryKeeps(s, w, path, FRESH_ENTRY);
    assert forall q :: At(after.entries, q) == At(w.entries, q);
  }

  /** Nor does opening the folder's handle, or marking a namespace directory, record anything. */
  lemma ClearEntryKeeps(s: Scene, w: World, path: Wide, e: Entry)
    requires Clear(At(w.entries, path)) && Clear(e) && Pinned(s.folders, w) && Recorded(s.user, w)
    requires e.open ==> path in w.dacls && (path in s.folders <==> !e.namespaceDirectory)
    requires path in s.folders ==> !e.namespaceDirectory
    ensures var after := w.(entries := w.entries[path := e]);
            Pinned(s.folders, after) && Recorded(s.user, after) && Progress(s, w, after)
  {
    var after := w.(entries := w.entries[path := e]);
    if path in w.dacls {
      RecordedAt(s.user, w, path);
    }
    RecordsChange(s.folders, s.user, w, after, path);
    assert forall q :: At(after.entries, q).addedMask == At(w.entries, q).addedMask;
  }

  /** Every call, as `Visit` makes it or not, conserves what the account did not add. */
  lemma OutcomeConserves(before: World, after: World, path: Wide, account: Account, owner: Option<Sid>, mask: Mask,
                         readableRoot: bool, failed: bool)
    requires path in before.entries && Outcome(before, after, path, account, owner, mask, readableRoot, failed)
    requires Recorded(account.sid, before)
    ensures Others(account.sid, after.dacls) == Others(account.sid, before.dacls)
  {
    if !failed && path in before.dacls {
      RecordedAt(account.sid, before, path);
      EditKeepsOthers(account, owner, before.entries[path], mask, readableRoot, before.dacls[path]);
    }
  }

  /** When every entry is clear, nothing of the account is left in any DACL. */
  lemma ClearedIsOthers(user: Sid, w: World)
    requires Recorded(user, w) && forall p :: p in w.entries ==> Clear(w.entries[p])
    ensures w.dacls == Others(user, w.dacls)
  {
    forall p | p in w.dacls
      ensures Filter(NotOf(user), w.dacls[p]) == w.dacls[p]
    {
      RecordedAt(user, w, p);
      forall slot | slot in w.dacls[p]
        ensures Passes(NotOf(user), slot)
      {
        var i :| 0 <= i < |w.dacls[p]| && w.dacls[p][i] == slot;
      }
      FilterAll(NotOf(user), w.dacls[p]);
    }
  }

  // ---- whose the owner-rights denies are ----

  /** The account denies owner rights only where it owns the folder. */
  ghost predicate Owned(user: Sid, owners: map<Wide, Sid>, entries: Entries) {
    Misowned(user, owners, entries) == {}
  }

  ghost function Misowned(user: Sid, owners: map<Wide, Sid>, entries: Entries): set<Wide> {
    set p | p in entries && entries[p].addedOwnerDeny && !(p in owners && owners[p] == user)
  }

  lemma OwnedAt(user: Sid, owners: map<Wide, Sid>, entries: Entries, p: Wide)
    requires Owned(user, owners, entries) && p in entries && entries[p].addedOwnerDeny
    ensures p in owners && owners[p] == user
  {
    assert p !in Misowned(user, owners, entries);
  }

  lemma OwnedSet(user: Sid, owners: map<Wide, Sid>, entries: Entries, p: Wide, e: Entry)
    requires Owned(user, owners, entries) && (e.addedOwnerDeny ==> p in owners && owners[p] == user)
    ensures Owned(user, owners, entries[p := e])
  {
    forall q | q in entries[p := e] && entries[p := e][q].addedOwnerDeny
      ensures q in owners && owners[q] == user
    {
      if q != p {
        OwnedAt(user, owners, entries, q);
      }
    }
  }

  lemma OwnedDrop(user: Sid, owners: map<Wide, Sid>, entries: Entries, p: Wide)
    requires Owned(user, owners, entries)
    ensures Owned(user, owners, entries - {p})
  {
    assert Misowned(user, owners, entries - {p}) <= Misowned(user, owners, entries);
  }

  lemma OutcomeKeepsOwned(owners: map<Wide, Sid>, before: World, after: World, path: Wide, account: Account,
                          mask: Mask, readableRoot: bool, failed: bool)
    requires path in before.entries && Owned(account.sid, owners, before.entries)
    requires Outcome(before, after, path, account, if path in owners then Some(owners[path]) else None, mask,
                     readableRoot, failed)
    ensures Owned(account.sid, owners, after.entries)
  {
    if before.entries[path].addedOwnerDeny {
      OwnedAt(account.sid, owners, before.entries, path);
    }
    OwnedSet(account.sid, owners, before.entries, path, after.entries[path]);
  }

  // ---- accounts do not interfere ----

  /** An ACE the account's scope added names the account, or the owner of a folder the account owns. */
  predicate IsOwnMark(user: Sid, owner: Option<Sid>, slot: Slot) {
    slot.lease == Some(user) ==>
      slot.ace.sid == user || (slot.ace.sid == OwnerRights && owner == Some(user))
  }

  ghost predicate OwnMarks(s: Scene, user: Sid, dacls: Dacls) {
    forall p, slot :: p in dacls && slot in dacls[p] ==> IsOwnMark(user, OwnerIn(s, p), slot)
  }

  lemma RecordedMarksAreOwn(s: Scene, user: Sid, w: World)
    requires Recorded(user, w) && Owned(user, s.owners, w.entries)
    ensures OwnMarks(s, user, w.dacls)
  {
    forall p, slot | p in w.dacls && slot in w.dacls[p]
      ensures IsOwnMark(user, OwnerIn(s, p), slot)
    {
      RecordedAt(user, w, p);
      var i :| 0 <= i < |w.dacls[p]| && w.dacls[p][i] == slot;
      if slot.lease == Some(user) && At(w.entries, p).addedOwnerDeny {
        OwnedAt(user, s.owners, w.entries, p);
      }
    }
  }

  lemma SlotStays(user: Sid, before: Dacl, after: Dacl, slot: Slot)
    requires Filter(NotOf(user), before) == Filter(NotOf(user), after)
    requires slot in before && slot.lease != Some(user)
    ensures slot in after
  {
    FilterMembers(NotOf(user), before);
    FilterMembers(NotOf(user), after);
    assert slot in Filter(NotOf(user), before);
  }

  /** What one account's whole operation leaves of an ACE that matters to another account. */
  lemma AceStays(s: Scene, user: Sid, before: Dacls, after: Dacls, p: Wide, slot: Slot)
    requires user != s.user && Others(user, before) == Others(user, after) && OwnMarks(s, user, before)
    requires p in before && slot in before[p]
    requires slot.ace.sid != user && (slot.ace.sid == OwnerRights ==> OwnerIn(s, p) == Some(s.user))
    ensures p in after && slot in after[p]
  {
    assert IsOwnMark(user, OwnerIn(s, p), slot);
    assert p in Others(user, before) && Others(user, before)[p] == Others(user, after)[p];
    SlotStays(user, before[p], after[p], slot);
  }

  lemma DeniesStay(s: Scene, user: Sid, before: Dacls, after: Dacls, p: Wide, mask: Mask)
    requires user != s.user && Others(user, before) == Others(user, after) && OwnMarks(s, user, before)
    requires user.Principal? && s.user.Principal? && p in before
    ensures HasAce(before[p], s.user, mask, false) ==> p in after && HasAce(after[p], s.user, mask, false)
    ensures OwnerDenied(s, before, p) ==> OwnerDenied(s, after, p)
  {
    assert p in Others(user, before);
    if i :| 0 <= i < |before[p]| && IsAccessAce(before[p][i].ace, s.user, mask, false) {
      AceStays(s, user, before, after, p, before[p][i]);
      var j :| 0 <= j < |after[p]| && after[p][j] == before[p][i];
    }
    if OwnerIn(s, p) == Some(s.user) {
      if i :| 0 <= i < |before[p]| && IsAccessAce(before[p][i].ace, OwnerRights, WRITE_DAC, false) {
        AceStays(s, user, before, after, p, before[p][i]);
        var j :| 0 <= j < |after[p]| && after[p][j] == before[p][i];
      }
    }
  }

  lemma TraverseStays(s: Scene, user: Sid, before: Dacls, after: Dacls, p: Wide)
    requires user != s.user && Others(user, before) == Others(user, after) && OwnMarks(s, user, before)
    requires user.Principal? && p in before && !HasGroup(s.groups, user) && !HasGroup(s.groups, OwnerRights)
    requires s.user.Principal? && HasTraverse(before[p], Account(s.user, s.groups))
    ensures p in after && HasTraverse(after[p], Account(s.user, s.groups))
  {
    var i :| 0 <= i < |before[p]| && GrantsTraverse(before[p][i].ace, Account(s.user, s.groups));
    AceStays(s, user, before, after, p, before[p][i]);
    var j :| 0 <= j < |after[p]| && after[p][j] == before[p][i];
  }

  /** Non-interference over all folders: whatever one account's operation did, as long as it changed
      nothing but its own ACEs, another account keeps every protection and every passage. */
  lemma OthersSpared(s: Scene, user: Sid, before: Dacls, after: Dacls)
    requires user.Principal? && s.user.Principal? && user != s.user
    requires !HasGroup(s.groups, user) && !HasGroup(s.groups, OwnerRights)
    requires Others(user, before) == Others(user, after) && OwnMarks(s, user, before)
    ensures Protected(s, before) <= Protected(s, after)
    ensures Passages(s, before) <= Passages(s, after)
  {
    forall q, floor: nat, strict | q in s.folders && Excluded(q, s.allowed) && Covered(s, before, q, floor, strict)
      ensures Covered(s, after, q, floor, strict)
    {
      var x :| Within(q, x) && |x| >= floor && FullDeny(before, s.user, x) && (strict ==> OwnerDenied(s, before, x));
      DeniesStay(s, user, before, after, x, FILE_ALL_ACCESS);
      assert FullDeny(after, s.user, x);
    }
    forall q | q in Passages(s, before)
      ensures q in Passages(s, after)
    {
      TraverseStays(s, user, before, after, q);
      DeniesStay(s, user, before, after, q, ANCESTOR_DENY);
    }
  }

  /** Nor does the operation make another account's records untrue. */
  lemma RecordsSpared(s: Scene, user: Sid, before: World, after: World)
    requires user.Principal? && user != s.user && Recorded(s.user, before) && Owned(s.user, s.owners, before.entries)
    requires after.entries == before.entries && Others(user, before.dacls) == Others(user, after.dacls)
    requires OwnMarks(s, user, after.dacls)
    ensures Recorded(s.user, after)
  {
    forall p | p in after.dacls
      ensures Consistent(s.user, At(after.entries, p), after.dacls[p])
    {
      assert p in Others(user, before.dacls) && Others(user, before.dacls)[p] == Others(user, after.dacls)[p];
      RecordedAt(s.user, before, p);
      ConsistentStays(s, user, before, p, before.dacls[p], after.dacls[p]);
    }
  }

  lemma ConsistentStays(s: Scene, user: Sid, w: World, p: Wide, before: Dacl, after: Dacl)
    requires user.Principal? && s.user.Principal? && user != s.user && Owned(s.user, s.owners, w.entries)
    requires Consistent(s.user, At(w.entries, p), before) && Filter(NotOf(user), before) == Filter(NotOf(user), after)
    requires forall slot :: slot in after ==> IsOwnMark(user, OwnerIn(s, p), slot)
    ensures Consistent(s.user, At(w.entries, p), after)
  {
    var e := At(w.entries, p);
    if e.addedOwnerDeny {
      OwnedAt(s.user, s.owners, w.entries, p);
    }
    forall i | 0 <= i < |after|
      ensures after[i].lease == Some(s.user) <==> IsLeased(after[i].ace, s.user, e)
    {
      assert IsOwnMark(user, OwnerIn(s, p), after[i]);
      if after[i].lease != Some(user) {
        SlotStays(user, after, before, after[i]);
        var j :| 0 <= j < |before| && before[j] == after[i];
      }
    }
  }

  // ---- foreign edits between operations ----

  /** Somebody else edited the DACLs: he may insert, remove and reorder, but what he adds is no ACE identical
      to one the account's scope has leased there. */
  ghost predicate ForeignlyEdited(user: Sid, before: World, after: Dacls) {
    && after.Keys == before.dacls.Keys
    && forall p, slot :: p in after && slot in after[p] ==> MayStand(user, before, p, slot)
  }

  predicate MayStand(user: Sid, before: World, p: Wide, slot: Slot)
    requires p in before.dacls
  {
    slot in before.dacls[p] || (slot.lease != Some(user) && !IsLeased(slot.ace, user, At(before.entries, p)))
  }

  /** The account's records stay true over all folders. */
  lemma ForeignEditKeepsRecords(user: Sid, before: World, after: World)
    requires Recorded(user, before) && after.entries == before.entries
    requires ForeignlyEdited(user, before, after.dacls)
    ensures Recorded(user, after)
  {
    forall p | p in after.dacls
      ensures Consistent(user, At(after.entries, p), after.dacls[p])
    {
      RecordedAt(user, before, p);
      forall i | 0 <= i < |after.dacls[p]|
        ensures after.dacls[p][i].lease == Some(user) <==> IsLeased(after.dacls[p][i].ace, user, At(after.entries, p))
      {
        var slot := after.dacls[p][i];
        assert MayStand(user, before, p, slot);
        if slot in before.dacls[p] {
          var j :| 0 <= j < |before.dacls[p]| && before.dacls[p][j] == slot;
        }
      }
    }
  }

  /** What happens to the DACLs one after another: an operation of the account's scope, which keeps what is
      not its own, or an edit by somebody else. */
  datatype Turn = Operation(dacls: Dacls) | OtherEdit(dacls: Dacls)

  ghost predicate Conserving(user: Sid, dacls: Dacls, turns: seq<Turn>)
    decreases |turns|
  {
    |turns| > 0 ==>
      && (turns[0].Operation? ==> Others(user, turns[0].dacls) == Others(user, dacls))
      && Conserving(user, turns[0].dacls, turns[1..])
  }

  function LastDacls(dacls: Dacls, turns: seq<Turn>): Dacls {
    if |turns| == 0 then dacls else turns[|turns| - 1].dacls
  }

  /** What the edits alone leave of what is not the account's. */
  ghost function EditedOthers(user: Sid, current: Dacls, turns: seq<Turn>): Dacls
    decreases |turns|
  {
    if |turns| == 0 then current
    else EditedOthers(user, if turns[0].OtherEdit? then Others(user, turns[0].dacls) else current, turns[1..])
  }

  /** Over any run of operations and foreign edits on all folders, what is not the account's is what the
      edits alone made of it; a successful restoration then leaves exactly that. */
  lemma {:induction false} RunConservesOthers(user: Sid, dacls: Dacls, turns: seq<Turn>)
    requires Conserving(user, dacls, turns)
    ensures Others(user, LastDacls(dacls, turns)) == EditedOthers(user, Others(user, dacls), turns)
    decreases |turns|
  {
    if |turns| > 0 {
      RunConservesOthers(user, turns[0].dacls, turns[1..]);
      assert LastDacls(dacls, turns) == LastDacls(turns[0].dacls, turns[1..]);
    }
  }

  // ---- what a finished walk means for the ACEs themselves ----

  /** No ACE this account's scope added to the DACL denies listing or traversal. */
  predicate LeaseAllowsPassage(user: Sid, dacl: Dacl) {
    forall i :: 0 <= i < |dacl| && dacl[i].lease == Some(user) && dacl[i].ace.aceType == Denied ==>
                  dacl[i].ace.mask & (FILE_LIST_DIRECTORY | FILE_TRAVERSE) == 0
  }

  /** No ACE it added denies anything. */
  predicate LeaseDeniesNothing(user: Sid, dacl: Dacl) {
    forall i :: 0 <= i < |dacl| && dacl[i].lease == Some(user) ==> dacl[i].ace.aceType != Denied
  }

  /** Coverage and soundness of a finished walk below `root`: excluded folders are under the full deny,
      with the owner's rights denied; a folder inside an allowed root carries no deny of the lease, and
      no folder above it one that stops listing or traversal; the account can traverse every folder on
      the way to an allowed root, but change none of them short of the root. */
  lemma FinishedWalk(s: Scene, w: World, root: Wide)
    requires Done(s, w, root) && Recorded(s.user, w)
    ensures forall q :: q in s.folders && Excluded(q, s.allowed) && Within(q, root) ==>
                          Covered(s, w.dacls, q, |root|, true)
    ensures forall q :: q in s.folders && Readable(q, s.allowed) && Within(q, root) && q in w.dacls ==>
                          LeaseDeniesNothing(s.user, w.dacls[q])
    ensures forall q, x :: q in s.folders && Readable(q, s.allowed) && Within(q, x) && Within(x, root) &&
                           x in s.folders && x in w.dacls ==>
                             LeaseAllowsPassage(s.user, w.dacls[x])
    ensures forall q :: q in s.folders && AboveAllowed(q, s.allowed) && Within(q, root) ==> Passable(s, w.dacls, q)
  {
    forall q | q in s.folders && Readable(q, s.allowed) && Within(q, root) && q in w.dacls
      ensures LeaseDeniesNothing(s.user, w.dacls[q])
    {
      RecordedAt(s.user, w, q);
      assert Suits(q, s.allowed, At(w.entries, q));
    }
    forall q, x | q in s.folders && Readable(q, s.allowed) && Within(q, x) && Within(x, root) && x in s.folders &&
                  x in w.dacls
      ensures LeaseAllowsPassage(s.user, w.dacls[x])
    {
      AboveReadable(q, x, s.allowed);
      RecordedAt(s.user, w, x);
      AncestorDenyAllowsTraversal();
      assert Suits(x, s.allowed, At(w.entries, x));
    }
  }
}
