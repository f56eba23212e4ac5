/** The account-wide read scope: `BrokerReadScope` over a fixed directory tree whose every call may
    fail (src/broker/BrokerReadScope.cpp). */
module ReadScopes {
  import opened Text
  import opened Paths
  import opened Acl
  import opened Wrappers
  import opened Win32
  import opened ScopeWorld
  import opened FileSystems
  import opened KeyOrder

  const MAXIMUM_DEPTH: nat := 128
  const MAXIMUM_ENTRIES: nat := 10_000

  lemma HasAceGrows(dacl: Dacl, slot: Slot, sid: Sid, mask: Mask, grant: bool)
    ensures HasAce(dacl + [slot], sid, mask, grant) <==>
            HasAce(dacl, sid, mask, grant) || IsAccessAce(slot.ace, sid, mask, grant)
  {
    if HasAce(dacl, sid, mask, grant) {
      var k :| 0 <= k < |dacl| && IsAccessAce(dacl[k].ace, sid, mask, grant);
      assert (dacl + [slot])[k] == dacl[k];
    }
    assert (dacl + [slot])[|dacl|] == slot;
  }

  lemma HasTraverseGrows(dacl: Dacl, slot: Slot, account: Account)
    ensures HasTraverse(dacl + [slot], account) <==> HasTraverse(dacl, account) || GrantsTraverse(slot.ace, account)
  {
    if HasTraverse(dacl, account) {
      var k :| 0 <= k < |dacl| && GrantsTraverse(dacl[k].ace, account);
      assert (dacl + [slot])[k] == dacl[k];
    }
    assert (dacl + [slot])[|dacl|] == slot;
  }

  /** The loop over `TOKEN_GROUPS`. */
  method InEnabledGroup(groups: seq<Group>, sid: Sid) returns (found: bool)
    ensures found == HasGroup(groups, sid)
  {
    found := false;
    for g := 0 to |groups|
      invariant found == HasGroup(groups[..g], sid)
    {
      if groups[g].enabled && !groups[g].denyOnly && groups[g].sid == sid {
        found := true;
        assert groups[..g + 1][g] == groups[g];
      } else if found {
        var k :| 0 <= k < g && groups[..g][k].enabled && !groups[..g][k].denyOnly && groups[..g][k].sid == sid;
        assert groups[..g + 1][k] == groups[k];
      }
    }
    assert groups[..|groups|] == groups;
  }

  /** The pass over the original ACL: which ACEs stay, and which of the wanted ones are there. */
  method Survey(account: Account, e: Entry, mask: Mask, wantTraverse: bool, original: Dacl)
    returns (kept: Dacl, existingUser: bool, existingOwner: bool, existingTraverse: bool)
    ensures kept == Preserved(account.sid, e, original)
    ensures existingUser == (mask != 0 && HasAce(kept, account.sid, mask, e.namespaceDirectory))
    ensures existingOwner == HasAce(kept, OwnerRights, WRITE_DAC, false)
    ensures existingTraverse == (wantTraverse && HasTraverse(kept, account))
  {
    kept, existingUser, existingOwner, existingTraverse := [], false, false, false;
    for index := 0 to |original|
      invariant kept == Preserved(account.sid, e, original[..index])
      invariant existingUser == (mask != 0 && HasAce(kept, account.sid, mask, e.namespaceDirectory))
      invariant existingOwner == HasAce(kept, OwnerRights, WRITE_DAC, false)
      invariant existingTraverse == (wantTraverse && HasTraverse(kept, account))
    {
      var raw := original[index];
      assert original[..index + 1][..index] == original[..index];
      if !IsLeased(raw.ace, account.sid, e) {
        existingUser := existingUser || (mask != 0 && IsAccessAce(raw.ace, account.sid, mask, e.namespaceDirectory));
        existingOwner := existingOwner || IsAccessAce(raw.ace, OwnerRights, WRITE_DAC, false);
        var inGroup := InEnabledGroup(account.groups, raw.ace.sid);
        if wantTraverse && raw.ace.aceType == Allowed && raw.ace.flags & INHERIT_ONLY_ACE == 0 &&
           raw.ace.mask & FILE_TRAVERSE != 0
        {
          existingTraverse := existingTraverse || raw.ace.sid == account.sid || inGroup;
        }
        HasAceGrows(kept, raw, account.sid, mask, e.namespaceDirectory);
        HasAceGrows(kept, raw, OwnerRights, WRITE_DAC, false);
        HasTraverseGrows(kept, raw, account);
        kept := kept + [raw];
      }
    }
    assert original[..|original|] == original;
  }

  /** Assembles the replacement ACL in the order the lease needs; any `AddAce` may fail. */
  method Assemble(user: Sid, e: Entry, mask: Mask, addUser: bool, addOwner: bool, addTraverse: bool, kept: Dacl)
    returns (error: Error, updated: Dacl)
    ensures error == ERROR_SUCCESS ==>
              updated == Front(user, e, mask, addUser, addOwner) + kept + Back(user, e, mask, addUser, addTraverse)
  {
    error, updated := *, [];
    if error != ERROR_SUCCESS {
      return;
    }
    if addUser && !e.namespaceDirectory {
      updated := updated + [Leased(user, false, mask, user)];
    }
    if addOwner {
      updated := updated + [Leased(user, false, WRITE_DAC, OwnerRights)];
    }
    assert updated == Front(user, e, mask, addUser, addOwner);
    error, updated := CopyAces(updated, kept);
    if error != ERROR_SUCCESS {
      return;
    }
    // Namespace traversal grants must not override an existing explicit deny.
    var back: Dacl := [];
    if addUser && e.namespaceDirectory {
      back := back + [Leased(user, true, mask, user)];
    }
    if addTraverse {
      back := back + [Leased(user, true, FILE_TRAVERSE, user)];
    }
    assert back == Back(user, e, mask, addUser, addTraverse);
    updated := updated + back;
  }

  method CopyAces(front: Dacl, kept: Dacl) returns (error: Error, updated: Dacl)
    ensures error == ERROR_SUCCESS ==> updated == front + kept
  {
    error, updated := ERROR_SUCCESS, front;
    for index := 0 to |kept|
      invariant error == ERROR_SUCCESS && updated == front + kept[..index]
    {
      error := *;
      if error != ERROR_SUCCESS {
        return;
      }
      updated := updated + [kept[index]];
    }
    assert kept[..|kept|] == kept;
  }

  /** The parts make up the edit. */
  lemma EditIs(account: Account, owner: Option<Sid>, e: Entry, mask: Mask, readableRoot: bool, original: Dacl,
               kept: Dacl, addUser: bool, addOwner: bool, addTraverse: bool, updated: Dacl)
    requires kept == Preserved(account.sid, e, original) && addUser == AddsUser(account.sid, e, mask, kept)
    requires addOwner == AddsOwner(account.sid, owner, e, mask, kept)
    requires addTraverse == AddsTraverse(account, e, mask, readableRoot, kept)
    requires mask != 0 || !Clear(e) || addTraverse
    requires updated == Front(account.sid, e, mask, addUser, addOwner) + kept +
                        Back(account.sid, e, mask, addUser, addTraverse)
    ensures SetAccessEdit(account, owner, e, mask, readableRoot, original) ==
            Edit(true, updated,
                 e.(addedMask := if addUser then mask else 0, addedOwnerDeny := addOwner,
                    addedTraverseGrant := addTraverse, writable := e.writable || !e.namespaceDirectory))
  {
  }

  class ReadScope {
    const fs: FileSystem
    var userSid: Option<Sid>
    var groups: seq<Group>
    var allowed: seq<Wide>
    var entries: Entries
    var order: seq<Wide>
    var volumes: map<Wide, Wide>
    var failurePath: Wide

    constructor (fs: FileSystem)
      requires fs.Closed()
      ensures this.fs == fs && Valid() && userSid == None && entries == map[] && allowed == []
    {
      this.fs := fs;
      userSid, groups, allowed, entries, order, volumes, failurePath := None, [], [], map[], [], map[], [];
    }

    ghost function Now(): World
      reads this, fs
    {
      World(fs.dacls, entries, fs.history)
    }

    ghost function Here(user: Sid): Scene
      reads this, fs
    {
      Scene(fs.nodes.Keys, fs.owners, allowed, user, groups)
    }

    /** The map and its iteration order agree. */
    ghost predicate Indexed()
      reads this
    {
      Ordered(order) && forall k :: k in order <==> k in entries
    }

    ghost predicate Valid()
      reads this, fs
    {
      && fs.Closed() && Indexed() && Pinned(fs.nodes.Keys, Now()) && Antichain(allowed)
      && (userSid == None ==> entries == map[])
      && (userSid.Some? ==> Recorded(userSid.value, Now()) && Owned(userSid.value, fs.owners, entries))
      && (forall v :: v in volumes ==> v in fs.volumeRoots && volumes[v] == fs.volumeRoots[v])
    }

    method TryEmplace(path: Wide) returns (inserted: bool)
      requires Valid() && userSid.Some?
      modifies this`entries, this`order
      ensures Valid() && Progress(Here(userSid.value), old(Now()), Now())
      ensures inserted == (path !in old(entries))
      ensures entries == if inserted then old(entries)[path := FRESH_ENTRY] else old(entries)
    {
      inserted := path !in entries;
      if inserted {
        var k := LowerBound(order, path);
        InsertKeepsOrder(order, path);
        InsertKeeps(Here(userSid.value), Now(), path);
        ghost var before := order;
        OwnedSet(userSid.value, fs.owners, entries, path, FRESH_ENTRY);
        order := order[..k] + [path] + order[k..];
        entries := entries[path := FRESH_ENTRY];
        assert before == before[..k] + before[k..];
      } else {
        ProgressStill(Here(userSid.value), Now());
      }
    }

    /** `SetAccess`: rewrites the DACL and the flags as `SetAccessEdit` says, or changes no ACE. */
    method SetAccess(path: Wide, mask: Mask, readableRoot: bool) returns (error: Error)
      requires Valid() && userSid.Some? && path in entries
      modifies this`entries, fs`dacls, fs`history
      ensures Valid() && entries.Keys == old(entries.Keys)
      ensures Outcome(old(Now()), Now(), path, Account(userSid.value, groups), fs.OwnerOf(path), mask, readableRoot,
                      error != ERROR_SUCCESS)
    {
      var entry := entries[path];
      if mask == 0 && Clear(entry) && !WantsTraverse(entry, mask, readableRoot) {
        NothingToDo(Now(), path, Account(userSid.value, groups), fs.OwnerOf(path), mask, readableRoot);
        return ERROR_SUCCESS;
      }
      var original: Dacl;
      error, original := fs.GetSecurityInfo(path, entry.open);
      if error != ERROR_SUCCESS {
        return;
      }
      error := Rewrite(path, mask, readableRoot, original);
      ghost var account, before := Account(userSid.value, groups), old(Now());
      OutcomeKeepsRecords(fs.nodes.Keys, before, Now(), path, account, fs.OwnerOf(path), mask, readableRoot,
                          error != ERROR_SUCCESS);
      OutcomeKeepsOwned(fs.owners, before, Now(), path, account, mask, readableRoot, error != ERROR_SUCCESS);
    }

    /** `SetAccess` once the DACL has been read. */
    method Rewrite(path: Wide, mask: Mask, readableRoot: bool, original: Dacl) returns (error: Error)
      requires userSid.Some? && path in entries && path in fs.dacls && original == fs.dacls[path]
      modifies this`entries, fs`dacls, fs`history
      ensures Outcome(old(Now()), Now(), path, Account(userSid.value, groups), fs.OwnerOf(path), mask, readableRoot,
                      error != ERROR_SUCCESS)
    {
      var entry := entries[path];
      var account := Account(userSid.value, groups);
      var wantTraverse := WantsTraverse(entry, mask, readableRoot);
      var denyOwner := !entry.namespaceDirectory && mask != 0 && fs.OwnerOf(path) == Some(account.sid);
      var kept, existingUser, existingOwner, existingTraverse := Survey(account, entry, mask, wantTraverse, original);
      var addUser := mask != 0 && !existingUser;
      var addOwner := denyOwner && !existingOwner;
      var addTraverse := wantTraverse && !existingTraverse;
      if mask == 0 && Clear(entry) && !addTraverse {
        NothingToDo(Now(), path, account, fs.OwnerOf(path), mask, readableRoot);
        return ERROR_SUCCESS;
      }
      var updated: Dacl;
      error, updated := Assemble(account.sid, entry, mask, addUser, addOwner, addTraverse, kept);
      if error != ERROR_SUCCESS {
        return;
      }
      EditIs(account, fs.OwnerOf(path), entry, mask, readableRoot, original, kept, addUser, addOwner, addTraverse,
             updated);
      error := Commit(path, mask, addUser, addOwner, addTraverse, updated);
    }

    /** The tail of `SetAccess`: reopen the pinned handle for writing if needed, set the DACL and,
        only when that succeeds, the flags. */
    method Commit(path: Wide, mask: Mask, addUser: bool, addOwner: bool, addTraverse: bool, updated: Dacl)
      returns (error: Error)
      requires path in entries && path in fs.dacls
      modifies this`entries, fs`dacls, fs`history
      ensures error != ERROR_SUCCESS ==> Untouched(old(Now()), Now(), path)
      ensures error == ERROR_SUCCESS ==>
                Wrote(old(Now()), Now(), path,
                      Edit(true, updated,
                           old(entries[path]).(addedMask := if addUser then mask else 0, addedOwnerDeny := addOwner,
                                               addedTraverseGrant := addTraverse,
                                               writable := old(entries[path].writable ||
                                                               !entries[path].namespaceDirectory))))
    {
      if !entries[path].namespaceDirectory && !entries[path].writable {
        error := *;
        if error != ERROR_SUCCESS {
          return;
        }
        entries := entries[path := entries[path].(writable := true)];
      }
      error := fs.SetObjectDacl(path, updated);
      if error == ERROR_SUCCESS {
        entries := entries[path := entries[path].(addedMask := if addUser then mask else 0, addedOwnerDeny := addOwner,
                                                  addedTraverseGrant := addTraverse)];
      }
    }

    /** `SetAccess` as `Visit` calls it, by the folder's role. */
    method Enforce(path: Wide, mask: Mask, readableRoot: bool) returns (error: Error)
      requires Valid() && userSid.Some? && path in entries
      requires Proper(Here(userSid.value), Now(), path, mask) && (mask == 0 ==> readableRoot)
      requires mask != 0 ==> !entries[path].namespaceDirectory
      modifies this`entries, fs`dacls, fs`history
      ensures Valid() && Progress(Here(userSid.value), old(Now()), Now())
      ensures entries.Keys == old(entries.Keys)
      ensures forall q :: q in entries && q != path ==> entries[q] == old(entries)[q]
      ensures error == ERROR_SUCCESS ==> Suits(path, allowed, entries[path])
      ensures error == ERROR_SUCCESS && mask == FILE_ALL_ACCESS ==>
                FullDeny(fs.dacls, userSid.value, path) && OwnerDenied(Here(userSid.value), fs.dacls, path)
      ensures error == ERROR_SUCCESS && path in fs.nodes && AboveAllowed(path, allowed) ==>
                Passable(Here(userSid.value), fs.dacls, path)
    {
      ghost var before := Now();
      PinnedAt(fs.nodes.Keys, before, path);
      error := SetAccess(path, mask, readableRoot);
      OutcomeProgress(Here(userSid.value), before, Now(), path, mask, readableRoot, error != ERROR_SUCCESS);
    }

    /** The scan over the entries strictly below a readable folder: lease denies are taken back, and
        entries without a traversal grant are dropped so that their handles no longer pin. */
    method ClearBelow(path: Wide) returns (error: Error)
      requires Valid() && userSid.Some? && Readable(path, allowed)
      modifies this`entries, this`order, this`failurePath, fs`dacls, fs`history
      ensures Valid() && Progress(Here(userSid.value), old(Now()), Now())
      ensures error == ERROR_SUCCESS ==> GrantsOnlyBelow(entries, path)
    {
      ghost var scene, start := Here(userSid.value), Now();
      var k: nat := LowerBound(order, path + [BACKSLASH]);
      ghost var first := k;
      ProgressStill(scene, start);
      while k < |order| && Within(order[k], path)
        invariant Valid() && k <= |order| && first == LowerBound(order, path + [BACKSLASH])
        invariant scene == Here(userSid.value) && Progress(scene, start, Now())
        invariant ClearedPart(entries, order, path, first, k)
        decreases |order| - k
      {
        ghost var before := Now();
        ReadableBelow(order[k], path, allowed);
        ghost var wasEntries, was, at := entries, order, k;
        error, k := ClearOne(k);
        ProgressTransitive(scene, start, before, Now());
        if error != ERROR_SUCCESS {
          return;
        }
        ClearedGrows(wasEntries, was, at, entries, order, k, path, first);
        if k == at {
          DropKeepsBound(was, at, path + [BACKSLASH]);
        }
      }
      ClearedAll(entries, order, path, k);
      return ERROR_SUCCESS;
    }

    /** One step of that scan, on the entry at position `k`. */
    method ClearOne(k: nat) returns (error: Error, next: nat)
      requires Valid() && userSid.Some? && k < |order| && Readable(order[k], allowed)
      modifies this`entries, this`order, this`failurePath, fs`dacls, fs`history
      ensures Valid() && Progress(Here(userSid.value), old(Now()), Now())
      ensures error == ERROR_SUCCESS ==> ClearedStep(old(entries), old(order), k, entries, order, next)
    {
      ghost var scene, start := Here(userSid.value), Now();
      var child := order[k];
      next := k;
      ghost var before, was := entries, order;
      error := Enforce(child, 0, true);
      if error != ERROR_SUCCESS {
        failurePath := child;
        return;
      }
      ghost var middle := Now();
      // A formerly allowed path can still need traversal through this folder.
      if entries[child].addedTraverseGrant {
        next := k + 1;
        KeptStep(before, was, k, entries);
      } else {
        Drop(k);
        DroppedStep(before, was, k, middle.entries);
        ProgressTransitive(scene, start, middle, Now());
      }
    }

    /** `entries_.erase` at position `k`. */
    method Drop(k: nat)
      requires Valid() && userSid.Some? && k < |order| && Clear(entries[order[k]]) && Readable(order[k], allowed)
      modifies this`entries, this`order
      ensures Valid() && order == old(order[..k] + order[k + 1..]) && entries == old(entries - {order[k]})
      ensures Progress(Here(userSid.value), old(Now()), Now())
    {
      ForgetKeeps(Here(userSid.value), Now(), order[k]);
      OwnedDrop(userSid.value, fs.owners, entries, order[k]);
      DropKeys(order, k);
      entries := entries - {order[k]};
      order := order[..k] + order[k + 1..];
    }

    /** A freshly inserted entry takes over the handle of the opened folder. */
    method Adopt(path: Wide)
      requires Valid() && userSid.Some? && path in entries && entries[path] == FRESH_ENTRY && path in fs.nodes
      modifies this`entries
      ensures Valid() && Progress(Here(userSid.value), old(Now()), Now())
      ensures entries == old(entries)[path := FRESH_ENTRY.(open := true)]
    {
      ClearEntryKeeps(Here(userSid.value), Now(), path, FRESH_ENTRY.(open := true));
      OwnedSet(userSid.value, fs.owners, entries, path, FRESH_ENTRY.(open := true));
      entries := entries[path := entries[path].(open := true)];
    }

    /** `Visit`: walks from `path`, at most `remaining` records, and leaves every folder there with
        the ACL its role needs. */
    method Visit(path: Wide, handle: bool, depth: nat, remaining: nat) returns (error: Error, left: nat)
      requires Valid() && userSid.Some? && (handle ==> path in fs.nodes)
      modifies this`entries, this`order, this`failurePath, fs`dacls, fs`history
      ensures Valid() && Progress(Here(userSid.value), old(Now()), Now()) && left <= remaining
      ensures error == ERROR_SUCCESS ==> left < remaining && depth <= MAXIMUM_DEPTH
      ensures error == ERROR_SUCCESS ==> Done(Here(userSid.value), Now(), path)
      decreases MAXIMUM_DEPTH + 1 - depth, 3
    {
      ghost var scene, start := Here(userSid.value), Now();
      failurePath := path;
      left := remaining;
      var timedOut: bool := *;
      if timedOut {
        ProgressStill(scene, start);
        return ERROR_TIMEOUT, left;
      }
      if depth > MAXIMUM_DEPTH || left == 0 {
        ProgressStill(scene, start);
        return ERROR_NOT_ENOUGH_QUOTA, left;
      }
      left := left - 1;
      var node: Node;
      error, node := Enter(path, handle);
      if error != ERROR_SUCCESS {
        return;
      }
      ghost var entered := Now();
      error, left := Treat(path, node, depth, left);
      ProgressTransitive(scene, start, entered, Now());
    }

    /** The part of `Visit` that depends on the folder's role. */
    method Treat(path: Wide, node: Node, depth: nat, remaining: nat) returns (error: Error, left: nat)
      requires Valid() && userSid.Some? && path in entries && depth <= MAXIMUM_DEPTH
      requires path in fs.nodes && node == fs.nodes[path]
      modifies this`entries, this`order, this`failurePath, fs`dacls, fs`history
      ensures Valid() && Progress(Here(userSid.value), old(Now()), Now()) && left <= remaining
      ensures error == ERROR_SUCCESS ==> Done(Here(userSid.value), Now(), path)
      decreases MAXIMUM_DEPTH + 1 - depth, 2
    {
      left := remaining;
      var readable, ancestor := Classify(path);
      if readable {
        error := Release(path);
      } else if !ancestor {
        error := Deny(path);
      } else {
        error, left := Descend(path, node, depth, left);
      }
    }

    /** The first part of `Visit`: find or create the entry and look at the object. */
    method Enter(path: Wide, handle: bool) returns (error: Error, node: Node)
      requires Valid() && userSid.Some? && (handle ==> path in fs.nodes)
      modifies this`entries, this`order
      ensures Valid() && Progress(Here(userSid.value), old(Now()), Now())
      ensures error == ERROR_SUCCESS ==> |entries| <= MAXIMUM_ENTRIES
      ensures error == ERROR_SUCCESS ==>
                path in entries && path in fs.nodes && node == fs.nodes[path] && node.isDirectory
    {
      ghost var scene, start := Here(userSid.value), Now();
      node := Node(false, false, []);
      var inserted := TryEmplace(path);
      if |entries| > MAXIMUM_ENTRIES {
        return ERROR_NOT_ENOUGH_QUOTA, node;
      }
      if inserted && handle {
        ghost var middle := Now();
        Adopt(path);
        ProgressTransitive(scene, start, middle, Now());
      }
      error, node := fs.Inspect(path, entries[path].open);
      if error == ERROR_SUCCESS && !node.isDirectory {
        error := ERROR_DIRECTORY;
      }
    }

    /** The loop over the allowed roots. */
    method Classify(path: Wide) returns (readable: bool, ancestor: bool)
      ensures readable == Readable(path, allowed) && ancestor == AboveAllowed(path, allowed)
    {
      readable, ancestor := false, false;
      for i := 0 to |allowed|
        invariant readable == exists j :: 0 <= j < i && Within(path, allowed[j])
        invariant ancestor == exists j :: 0 <= j < i && Within(allowed[j], path)
      {
        readable := readable || Within(path, allowed[i]);
        ancestor := ancestor || Within(allowed[i], path);
      }
    }

    /** The branch for a folder inside an allowed root. */
    method Release(path: Wide) returns (error: Error)
      requires Valid() && userSid.Some? && path in entries && Readable(path, allowed)
      modifies this`entries, this`order, this`failurePath, fs`dacls, fs`history
      ensures Valid() && Progress(Here(userSid.value), old(Now()), Now())
      ensures error == ERROR_SUCCESS ==> Done(Here(userSid.value), Now(), path)
    {
      ghost var scene, start := Here(userSid.value), Now();
      error := Enforce(path, 0, true);
      if error != ERROR_SUCCESS {
        return;
      }
      ghost var middle := Now();
      error := ClearBelow(path);
      ProgressTransitive(scene, start, middle, Now());
      if error == ERROR_SUCCESS {
        ReadableDone(scene, middle, Now(), path);
      }
    }

    /** The branch for a folder outside every allowed root and above none. */
    method Deny(path: Wide) returns (error: Error)
      requires Valid() && userSid.Some? && path in entries && Excluded(path, allowed) && path in fs.nodes
      modifies this`entries, fs`dacls, fs`history
      ensures Valid() && Progress(Here(userSid.value), old(Now()), Now())
      ensures error == ERROR_SUCCESS ==> Done(Here(userSid.value), Now(), path)
    {
      PinnedAt(fs.nodes.Keys, Now(), path);
      error := Enforce(path, FILE_ALL_ACCESS, false);
      if error == ERROR_SUCCESS {
        ExcludedDone(Here(userSid.value), Now(), path);
      }
    }

    /** The branch for an ancestor of an allowed root: every subfolder first, then the folder's own
        deny is weakened. */
    method Descend(path: Wide, node: Node, depth: nat, remaining: nat) returns (error: Error, left: nat)
      requires Valid() && userSid.Some? && path in entries && depth <= MAXIMUM_DEPTH
      requires path in fs.nodes && node == fs.nodes[path]
      requires !Readable(path, allowed) && AboveAllowed(path, allowed)
      modifies this`entries, this`order, this`failurePath, fs`dacls, fs`history
      ensures Valid() && Progress(Here(userSid.value), old(Now()), Now()) && left <= remaining
      ensures error == ERROR_SUCCESS ==> Done(Here(userSid.value), Now(), path)
      decreases MAXIMUM_DEPTH + 1 - depth, 1
    {
      ghost var scene, start := Here(userSid.value), Now();
      left := remaining;
      if node.isReparse {
        ProgressStill(scene, start);
        return ERROR_ACCESS_DENIED, left;
      }
      error, left := VisitChildren(path, node, depth, left);
      if error != ERROR_SUCCESS {
        return;
      }
      ghost var middle := Now();
      assert path in entries by {
        assert path in Lasting(scene, start.entries) && path in Lasting(scene, middle.entries);
      }
      ChildrenCover(scene, middle, path, fs.nodes);
      PinnedAt(fs.nodes.Keys, middle, path);
      error := Enforce(path, ANCESTOR_DENY, false);
      ProgressTransitive(scene, start, middle, Now());
      if error == ERROR_SUCCESS {
        AncestorDone(scene, middle, Now(), path, fs.nodes);
      }
    }

    /** The enumeration loop: every record costs budget, and a subfolder is visited before the next. */
    method VisitChildren(path: Wide, node: Node, depth: nat, remaining: nat) returns (error: Error, left: nat)
      requires Valid() && userSid.Some? && depth <= MAXIMUM_DEPTH
      modifies this`entries, this`order, this`failurePath, fs`dacls, fs`history
      ensures Valid() && Progress(Here(userSid.value), old(Now()), Now()) && left <= remaining
      ensures error == ERROR_SUCCESS ==> ChildrenDone(Here(userSid.value), Now(), path, node, |node.records|)
      decreases MAXIMUM_DEPTH + 1 - depth, 0
    {
      ghost var scene, start := Here(userSid.value), Now();
      ProgressStill(scene, start);
      left := remaining;
      for index := 0 to |node.records|
        invariant Valid() && scene == Here(userSid.value) && Progress(scene, start, Now()) && left <= remaining
        invariant ChildrenDone(scene, Now(), path, node, index)
      {
        ghost var before := Now();
        error, left := VisitRecord(path, node.records[index], depth, left);
        ProgressTransitive(scene, start, before, Now());
        if error != ERROR_SUCCESS {
          return;
        }
        ChildrenStay(scene, before, Now(), path, node, index);
      }
      // The call that should report ERROR_NO_MORE_FILES can fail in another way.
      error := *;
    }

    /** One enumeration record: it costs budget, and a subfolder is opened and visited. */
    method VisitRecord(path: Wide, record: Record, depth: nat, remaining: nat) returns (error: Error, left: nat)
      requires Valid() && userSid.Some? && depth <= MAXIMUM_DEPTH
      modifies this`entries, this`order, this`failurePath, fs`dacls, fs`history
      ensures Valid() && Progress(Here(userSid.value), old(Now()), Now()) && left <= remaining
      ensures error == ERROR_SUCCESS ==> left < remaining
      ensures error == ERROR_SUCCESS && IsSubfolder(record) ==>
                Done(Here(userSid.value), Now(), Child(path, record.name))
      decreases MAXIMUM_DEPTH - depth, 4
    {
      ProgressStill(Here(userSid.value), Now());
      left := remaining;
      // A deadline or an enumeration error can end the walk before any record.
      error := *;
      if error != ERROR_SUCCESS {
        return;
      }
      if left == 0 {
        return ERROR_NOT_ENOUGH_QUOTA, left;
      }
      left := left - 1;
      if IsSubfolder(record) {
        var childPath := Child(path, record.name);
        var handle := false;
        if childPath !in entries {
          failurePath := childPath;
          error := fs.Open(childPath);
          handle := error == ERROR_SUCCESS;
        }
        if error == ERROR_SUCCESS {
          error, left := Visit(childPath, handle, depth + 1, left);
        }
      }
    }

    // ---- whole operations ----

    /** `EnsureRoots`: adds the launch's roots to the allowed set and walks every volume. Whatever the
        outcome, no folder excluded under the new set loses its protection at any point; on success
        every walked volume is done. */
    method EnsureRoots(token: Account, volumeNames: seq<Wide>, readable: seq<Wide>, profile: Wide, work: Wide,
                       maximumObjects: nat) returns (error: Error)
      requires Valid() && token.sid.Principal?
      requires userSid == None ==> Unmarked(token.sid, fs.dacls)
      modifies this, fs`dacls, fs`history
      ensures Valid() && (userSid == Some(token.sid) || (userSid == old(userSid) && error != ERROR_SUCCESS))
      ensures Progress(Here(token.sid), old(Now()), Now())
      ensures forall p :: Readable(p, old(allowed)) ==> Readable(p, allowed)
      ensures error == ERROR_SUCCESS ==>
                forall p :: Readable(p, allowed) <==>
                              Readable(p, old(allowed)) || Asked(fs.canonical, readable + [profile, work], p)
      ensures error == ERROR_SUCCESS ==>
                forall v :: v in volumeNames ==>
                  if v in volumes then Done(Here(token.sid), Now(), fs.volumeRoots[v]) else v in fs.emptyDrives
    {
      ghost var start := Now();
      failurePath := [];
      ProgressStill(Here(token.sid), start);
      error := *;
      if error != ERROR_SUCCESS {
        return;
      }
      if userSid.Some? && userSid != Some(token.sid) {
        return ERROR_ACCESS_DENIED;
      }
      userSid := Some(token.sid);
      error := *;
      if error != ERROR_SUCCESS {
        return;
      }
      groups := token.groups;
      error := AddRoots(readable + [profile, work]);
      ProgressStill(Here(token.sid), start);
      if error != ERROR_SUCCESS {
        return;
      }
      error := WalkVolumes(volumeNames, maximumObjects);
      if error == ERROR_SUCCESS {
        failurePath := [];
      }
    }

    /** The part of `EnsureRoots` that rebuilds the allowed set: it grows by exactly what was asked. */
    method AddRoots(directories: seq<Wide>) returns (error: Error)
      requires Valid()
      modifies this`allowed, this`failurePath
      ensures Valid()
      ensures error != ERROR_SUCCESS ==> allowed == old(allowed)
      ensures error == ERROR_SUCCESS ==>
                forall p :: Readable(p, allowed) <==> Readable(p, old(allowed)) || Asked(fs.canonical, directories, p)
    {
      error := ERROR_SUCCESS;
      var extended := allowed;
      for n := 0 to |directories|
        invariant allowed == old(allowed)
        invariant Extended(fs.canonical, allowed, directories, n, extended)
      {
        failurePath := directories[n];
        var canonical: Wide;
        error, canonical := fs.CanonicalDirectory(directories[n]);
        if error != ERROR_SUCCESS {
          return;
        }
        extended := extended + [canonical];
      }
      var roots := ReduceRoots(extended);
      RootsGrow(fs.canonical, allowed, directories, extended, roots);
      allowed := roots;
      error := ERROR_SUCCESS;
    }

    /** The loop over the volumes, all charged to one object budget. */
    method WalkVolumes(volumeNames: seq<Wide>, maximumObjects: nat) returns (error: Error)
      requires Valid() && userSid.Some?
      modifies this`entries, this`order, this`failurePath, this`volumes, fs`dacls, fs`history
      ensures Valid() && Progress(Here(userSid.value), old(Now()), Now())
      ensures error == ERROR_SUCCESS ==>
                forall v :: v in volumeNames ==>
                  if v in volumes then Done(Here(userSid.value), Now(), fs.volumeRoots[v]) else v in fs.emptyDrives
    {
      ghost var scene, start := Here(userSid.value), Now();
      ProgressStill(scene, start);
      error := ERROR_SUCCESS;
      var remaining := maximumObjects;
      for n := 0 to |volumeNames|
        invariant Valid() && scene == Here(userSid.value) && Progress(scene, start, Now())
        invariant VolumesDone(scene, Now(), volumeNames, n, volumes, fs.volumeRoots, fs.emptyDrives)
      {
        ghost var before, known := Now(), volumes;
        error, remaining := WalkVolume(volumeNames[n], remaining);
        ProgressTransitive(scene, start, before, Now());
        if error != ERROR_SUCCESS {
          return;
        }
        VolumesStay(scene, before, Now(), volumeNames, n, known, volumes, fs.volumeRoots, fs.emptyDrives);
      }
      error := ERROR_SUCCESS;
    }

    method WalkVolume(volume: Wide, remaining: nat) returns (error: Error, left: nat)
      requires Valid() && userSid.Some?
      modifies this`entries, this`order, this`failurePath, this`volumes, fs`dacls, fs`history
      ensures Valid() && Progress(Here(userSid.value), old(Now()), Now())
      ensures error != ERROR_SUCCESS ==> volumes == old(volumes)
      ensures volumes == old(volumes) ||
              (volume in fs.volumeRoots && volumes == old(volumes)[volume := fs.volumeRoots[volume]])
      ensures error == ERROR_SUCCESS ==>
                if volume in volumes then
                  volume in fs.volumeRoots && Done(Here(userSid.value), Now(), fs.volumeRoots[volume])
                else volume in fs.emptyDrives
    {
      failurePath := volume;
      left := remaining;
      if volume in volumes {
        error, left := Visit(volumes[volume], false, 0, left);
        return;
      }
      ProgressStill(Here(userSid.value), Now());
      var root: Wide, persistentAcls: bool, removable: bool;
      error, root, persistentAcls, removable := fs.OpenVolumeRoot(volume);
      if error != ERROR_SUCCESS {
        // Empty drives expose no filesystem to restrict.
        if error == ERROR_NOT_READY && removable {
          error := ERROR_SUCCESS;
        }
        return;
      }
      if !persistentAcls {
        return ERROR_NOT_SUPPORTED, left;
      }
      error := *;
      if error == ERROR_SUCCESS {
        assert root in fs.volumeRoots.Values;
        error, left := Visit(root, true, 0, left);
        if error == ERROR_SUCCESS {
          volumes := volumes[volume := root];
        }
      }
    }

    /** `Restore`: takes every lease ACE back. The scope forgets itself only if every call succeeded;
        then each DACL holds exactly what the account did not add, in order. */
    method Restore() returns (firstError: Error)
      requires Valid()
      modifies this, fs`dacls, fs`history
      ensures Valid()
      ensures old(userSid).Some? ==> Others(old(userSid.value), fs.dacls) == Others(old(userSid.value), old(fs.dacls))
      ensures firstError == ERROR_SUCCESS ==>
                && userSid == None && entries == map[] && allowed == [] && volumes == map[]
                && fs.dacls == if old(userSid).Some? then Others(old(userSid.value), old(fs.dacls)) else old(fs.dacls)
      ensures firstError != ERROR_SUCCESS ==> userSid == old(userSid) && allowed == old(allowed)
    {
      firstError := ERROR_SUCCESS;
      if userSid.Some? {
        ghost var failed;
        firstError, failed := TakeAllBack();
      }
      if firstError == ERROR_SUCCESS {
        if userSid.Some? {
          ClearedIsOthers(userSid.value, Now());
        }
        entries, order, volumes, allowed, userSid, groups := map[], [], map[], [], None, [];
      }
    }

    /** The loop of `Restore`: a failing entry does not stop the others. What is left to restore is what
        failed by itself. */
    method TakeAllBack() returns (firstError: Error, ghost failed: set<Wide>)
      requires Valid() && userSid.Some?
      modifies this`entries, fs`dacls, fs`history
      ensures Valid() && Others(userSid.value, fs.dacls) == Others(userSid.value, old(fs.dacls))
      ensures entries.Keys == old(entries.Keys)
      ensures forall p :: p in entries && p !in failed ==> Clear(entries[p])
      ensures forall p :: p in failed ==> p in old(entries) && !Clear(old(entries)[p])
      ensures firstError == ERROR_SUCCESS <==> failed == {}
    {
      firstError, failed := ERROR_SUCCESS, {};
      for i := 0 to |order|
        invariant Valid() && Others(userSid.value, fs.dacls) == Others(userSid.value, old(fs.dacls))
        invariant order == old(order) && entries.Keys == old(entries.Keys)
        invariant ClearUpTo(entries, order, i, failed) && (firstError == ERROR_SUCCESS <==> failed == {})
        invariant Untried(old(entries), entries, order, i, failed)
      {
        ghost var before, known := entries, failed;
        var error := TakeBack(order[i]);
        if error != ERROR_SUCCESS {
          failed := failed + {order[i]};
        }
        if firstError == ERROR_SUCCESS {
          firstError := error;
        }
        ClearGrows(before, order, i, entries, known, failed);
        UntriedShrinks(old(entries), before, entries, order, i, known, failed);
      }
      forall p | p in entries && p !in failed
        ensures Clear(entries[p])
      {
        var j :| 0 <= j < |order| && order[j] == p;
      }
    }

    /** One entry. A clear one is left alone, and so is every DACL when the call fails. */
    method TakeBack(path: Wide) returns (error: Error)
      requires Valid() && userSid.Some? && path in entries
      modifies this`entries, fs`dacls, fs`history
      ensures Valid() && Others(userSid.value, fs.dacls) == Others(userSid.value, old(fs.dacls))
      ensures entries.Keys == old(entries.Keys)
      ensures forall q :: q in entries && q != path ==> entries[q] == old(entries)[q]
      ensures error == ERROR_SUCCESS ==> Clear(entries[path])
      ensures Clear(old(entries)[path]) ==> error == ERROR_SUCCESS && Now() == old(Now())
      ensures error != ERROR_SUCCESS ==> fs.dacls == old(fs.dacls) && fs.history == old(fs.history)
    {
      error := ERROR_SUCCESS;
      if !Clear(entries[path]) {
        ghost var before, account := Now(), Account(userSid.value, groups);
        error := SetAccess(path, 0, false);
        OutcomeConserves(before, Now(), path, account, fs.OwnerOf(path), 0, false, error != ERROR_SUCCESS);
        if error == ERROR_SUCCESS {
          ZeroEditClears(before, Now(), path, account, fs.OwnerOf(path), false);
        }
      }
    }

    /** `EnsureNamespaceDirectories`: temporary traversal grants on namespace directories. Folders are
        untouched; on success each directory carries the grant. */
    method EnsureNamespaceDirectories(directories: seq<Wide>) returns (error: Error)
      requires Valid() && forall d :: d in directories ==> d !in fs.nodes
      modifies this`entries, this`order, this`failurePath, fs`dacls, fs`history
      ensures Valid() && fs.dacls.Keys == old(fs.dacls.Keys)
      ensures userSid.Some? ==> Others(userSid.value, fs.dacls) == Others(userSid.value, old(fs.dacls))
      ensures FoldersKept(fs.nodes.Keys, old(Now()), Now())
      ensures error == ERROR_SUCCESS ==> userSid.Some? && Granted(userSid.value, fs.dacls, directories, |directories|)
    {
      if userSid == None {
        return ERROR_INVALID_STATE;
      }
      error := ERROR_SUCCESS;
      for n := 0 to |directories|
        invariant Valid() && fs.dacls.Keys == old(fs.dacls.Keys)
        invariant Others(userSid.value, fs.dacls) == Others(userSid.value, old(fs.dacls))
        invariant FoldersKept(fs.nodes.Keys, old(Now()), Now())
        invariant Granted(userSid.value, fs.dacls, directories, n)
      {
        failurePath := directories[n];
        ghost var before := fs.dacls;
        error := GrantNamespace(directories[n]);
        if error != ERROR_SUCCESS {
          return;
        }
        GrantsGrow(userSid.value, before, fs.dacls, directories, n);
      }
      error := ERROR_SUCCESS;
    }

    method GrantNamespace(path: Wide) returns (error: Error)
      requires Valid() && userSid.Some? && path !in fs.nodes
      modifies this`entries, this`order, fs`dacls, fs`history
      ensures Valid() && fs.dacls.Keys == old(fs.dacls.Keys)
      ensures Others(userSid.value, fs.dacls) == Others(userSid.value, old(fs.dacls))
      ensures FoldersKept(fs.nodes.Keys, old(Now()), Now())
      ensures forall p :: p in fs.dacls && p != path ==> fs.dacls[p] == old(fs.dacls)[p]
      ensures error == ERROR_SUCCESS ==>
                path in fs.dacls && HasAce(fs.dacls[path], userSid.value, DIRECTORY_TRAVERSE, true)
    {
      error := EnterNamespace(path);
      if error != ERROR_SUCCESS {
        return;
      }
      ghost var before, account := Now(), Account(userSid.value, groups);
      error := SetAccess(path, DIRECTORY_TRAVERSE, false);
      GrantOutcome(fs.nodes.Keys, before, Now(), path, account, fs.OwnerOf(path), error != ERROR_SUCCESS);
    }

    /** Finds or creates the directory's entry, marks it and pins the directory. */
    method EnterNamespace(path: Wide) returns (error: Error)
      requires Valid() && userSid.Some? && path !in fs.nodes
      modifies this`entries, this`order
      ensures Valid() && FoldersKept(fs.nodes.Keys, old(Now()), Now())
      ensures error == ERROR_SUCCESS ==> |entries| <= MAXIMUM_ENTRIES
      ensures error == ERROR_SUCCESS ==>
                path in entries && entries[path].namespaceDirectory && path in fs.dacls
    {
      ghost var before := Now();
      var inserted := TryEmplace(path);
      KeptOffFolders(fs.nodes.Keys, before, Now(), path);
      if |entries| > MAXIMUM_ENTRIES {
        return ERROR_NOT_ENOUGH_QUOTA;
      }
      error := PinNamespace(path, inserted);
      KeptOffFolders(fs.nodes.Keys, before, Now(), path);
    }

    method PinNamespace(path: Wide, inserted: bool) returns (error: Error)
      requires Valid() && userSid.Some? && path !in fs.nodes && path in entries
      requires inserted ==> entries[path] == FRESH_ENTRY
      modifies this`entries
      ensures Valid() && entries.Keys == old(entries.Keys)
      ensures forall p :: p in entries && p != path ==> entries[p] == old(entries)[p]
      ensures error == ERROR_SUCCESS ==> entries[path].namespaceDirectory && path in fs.dacls
    {
      PinnedAt(fs.nodes.Keys, Now(), path);
      if !entries[path].namespaceDirectory {
        Mark(path, entries[path].(namespaceDirectory := true));
      }
      error := ERROR_SUCCESS;
      if inserted || !entries[path].open {
        error := fs.OpenNamespace(path);
        if error != ERROR_SUCCESS {
          return;
        }
        PinnedAt(fs.nodes.Keys, Now(), path);
        Mark(path, entries[path].(open := true));
      }
      PinnedAt(fs.nodes.Keys, Now(), path);
    }

    /** Stores a clear namespace entry. */
    method Mark(path: Wide, e: Entry)
      requires Valid() && userSid.Some? && path !in fs.nodes && path in entries
      requires e.namespaceDirectory && (e.open ==> path in fs.dacls)
      requires Clear(entries[path]) && Clear(e)
      modifies this`entries
      ensures Valid() && entries == old(entries)[path := e]
    {
      ClearEntryKeeps(Here(userSid.value), Now(), path, e);
      OwnedSet(userSid.value, fs.owners, entries, path, e);
      entries := entries[path := e];
    }
  }

  /** Scopes of two accounts share the folders. A whole operation of the one, of which this only needs
      that it changed no ACE but its own account's, leaves the other scope valid and all its protections
      and passages in place. */
  twostate lemma OtherScopeSpared(user: Sid, other: ReadScope)
    requires old(other.Valid()) && other.userSid.Some? && user.Principal? && user != other.userSid.value
    requires other.userSid == old(other.userSid) && other.groups == old(other.groups)
    requires other.allowed == old(other.allowed) && other.entries == old(other.entries)
    requires other.order == old(other.order) && other.volumes == old(other.volumes)
    requires !HasGroup(other.groups, user) && !HasGroup(other.groups, OwnerRights)
    requires other.fs.dacls.Keys == old(other.fs.dacls.Keys)
    requires Others(user, old(other.fs.dacls)) == Others(user, other.fs.dacls)
    requires OwnMarks(other.Here(other.userSid.value), user, old(other.fs.dacls))
    requires OwnMarks(other.Here(other.userSid.value), user, other.fs.dacls)
    ensures other.Valid()
    ensures var s := other.Here(other.userSid.value);
            && Protected(s, old(other.fs.dacls)) <= Protected(s, other.fs.dacls)
            && Passages(s, old(other.fs.dacls)) <= Passages(s, other.fs.dacls)
  {
    var s := other.Here(other.userSid.value);
    OthersSpared(s, user, old(other.fs.dacls), other.fs.dacls);
    RecordsSpared(s, user, old(other.Now()), other.Now());
    PinnedStays(s.folders, old(other.Now()), other.Now());
  }

  /** A foreign edit between two operations, over any number of folders, leaves the scope valid: every
      operation, `Restore` among them, can follow it. */
  twostate lemma ForeignEditSpared(scope: ReadScope)
    requires old(scope.Valid()) && scope.userSid.Some?
    requires scope.userSid == old(scope.userSid) && scope.entries == old(scope.entries)
    requires scope.allowed == old(scope.allowed) && scope.order == old(scope.order)
    requires scope.volumes == old(scope.volumes)
    requires ForeignlyEdited(scope.userSid.value, old(scope.Now()), scope.fs.dacls)
    ensures scope.Valid()
  {
    ForeignEditKeepsRecords(scope.userSid.value, old(scope.Now()), scope.Now());
    PinnedStays(scope.fs.nodes.Keys, old(scope.Now()), scope.Now());
  }

  lemma PinnedStays(folders: set<Wide>, before: World, after: World)
    requires Pinned(folders, before) && after.entries == before.entries && after.dacls.Keys == before.dacls.Keys
    ensures Pinned(folders, after)
  {
    forall p | p in after.entries
      ensures PinnedEntry(folders, after, p)
    {
      PinnedAt(folders, before, p);
    }
  }

  /** A valid scope's own ACEs are what that asks for. */
  lemma ScopeMarksAreOwn(scope: ReadScope)
    requires scope.Valid() && scope.userSid.Some?
    ensures OwnMarks(scope.Here(scope.userSid.value), scope.userSid.value, scope.fs.dacls)
  {
    RecordedMarksAreOwn(scope.Here(scope.userSid.value), scope.userSid.value, scope.Now());
  }

  predicate Unmarked(user: Sid, dacls: Dacls) {
    forall p, i :: p in dacls && 0 <= i < |dacls[p]| ==> dacls[p][i].lease != Some(user)
  }

  /** The path lies inside one of the directories a launch asks for. */
  predicate Asked(canonical: map<Wide, Wide>, directories: seq<Wide>, p: Wide) {
    exists i :: 0 <= i < |directories| && directories[i] in canonical && Within(p, canonical[directories[i]])
  }

  /** The allowed roots followed by the canonical names of the first directories. */
  predicate Extended(canonical: map<Wide, Wide>, allowed: seq<Wide>, directories: seq<Wide>, n: nat,
                     extended: seq<Wide>)
  {
    && n <= |directories| && |extended| == |allowed| + n && extended[..|allowed|] == allowed
    && forall i :: 0 <= i < n ==>
         directories[i] in canonical && extended[|allowed| + i] == canonical[directories[i]]
  }

  lemma RootsGrow(canonical: map<Wide, Wide>, allowed: seq<Wide>, directories: seq<Wide>, extended: seq<Wide>,
                  roots: seq<Wide>)
    requires Extended(canonical, allowed, directories, |directories|, extended) && SameCover(roots, extended)
    ensures forall p :: Readable(p, roots) <==> Readable(p, allowed) || Asked(canonical, directories, p)
  {
    forall p
      ensures Readable(p, extended) <==> Readable(p, allowed) || Asked(canonical, directories, p)
    {
      if i :| 0 <= i < |allowed| && Within(p, allowed[i]) {
        assert extended[i] == extended[..|allowed|][i];
      }
      if i :| 0 <= i < |directories| && directories[i] in canonical && Within(p, canonical[directories[i]]) {
        assert Within(p, extended[|allowed| + i]);
      }
      if i :| 0 <= i < |extended| && Within(p, extended[i]) {
        if i < |allowed| {
          assert allowed[i] == extended[..|allowed|][i];
        } else {
          assert Within(p, canonical[directories[i - |allowed|]]);
        }
      }
    }
  }

  ghost predicate VolumesDone(s: Scene, w: World, names: seq<Wide>, n: nat, volumes: map<Wide, Wide>,
                              roots: map<Wide, Wide>, empty: set<Wide>)
  {
    forall i :: 0 <= i < n && i < |names| ==>
      if names[i] in volumes then names[i] in roots && Done(s, w, roots[names[i]]) else names[i] in empty
  }

  lemma VolumesStay(s: Scene, before: World, after: World, names: seq<Wide>, n: nat, known: map<Wide, Wide>,
                    volumes: map<Wide, Wide>, roots: map<Wide, Wide>, empty: set<Wide>)
    requires n < |names| && VolumesDone(s, before, names, n, known, roots, empty) && Progress(s, before, after)
    requires volumes == known || (names[n] in roots && volumes == known[names[n] := roots[names[n]]])
    requires if names[n] in volumes then names[n] in roots && Done(s, after, roots[names[n]]) else names[n] in empty
    ensures VolumesDone(s, after, names, n + 1, volumes, roots, empty)
  {
    forall i | 0 <= i < n && names[i] in volumes && names[i] != names[n]
      ensures names[i] in roots && Done(s, after, roots[names[i]])
    {
      DoneStays(s, before, after, roots[names[i]]);
    }
  }

  /** The first n entries are clear, but for those whose restoration failed. */
  predicate ClearUpTo(entries: Entries, order: seq<Wide>, n: nat, failed: set<Wide>) {
    forall j :: 0 <= j < n && j < |order| ==> order[j] in entries && (order[j] in failed || Clear(entries[order[j]]))
  }

  lemma ClearGrows(before: Entries, order: seq<Wide>, i: nat, after: Entries, failed: set<Wide>, more: set<Wide>)
    requires i < |order| && ClearUpTo(before, order, i, failed) && failed <= more
    requires order[i] in after && (order[i] in more || Clear(after[order[i]]))
    requires after.Keys == before.Keys && forall q :: q in after && q != order[i] ==> after[q] == before[q]
    ensures ClearUpTo(after, order, i + 1, more)
  {
  }

  /** Only entries that had something to restore have failed, and the others from the nth on are as they
      were. */
  predicate Untried(start: Entries, now: Entries, order: seq<Wide>, n: nat, failed: set<Wide>) {
    && (forall p :: p in failed ==> p in start && !Clear(start[p]))
    && forall j :: n <= j < |order| ==> order[j] in start && order[j] in now && now[order[j]] == start[order[j]]
  }

  lemma UntriedShrinks(start: Entries, before: Entries, after: Entries, order: seq<Wide>, i: nat,
                       failed: set<Wide>, more: set<Wide>)
    requires Ordered(order) && i < |order| && Untried(start, before, order, i, failed)
    requires more == failed || (more == failed + {order[i]} && !Clear(before[order[i]]))
    requires after.Keys == before.Keys && forall q :: q in after && q != order[i] ==> after[q] == before[q]
    ensures Untried(start, after, order, i + 1, more)
  {
    LessIrreflexive(order[i]);
    assert forall j :: i < j < |order| ==> order[j] != order[i];
  }

  /** The folders' DACLs and entries are as before. */
  predicate FoldersKept(folders: set<Wide>, before: World, after: World) {
    && (forall p :: p in folders && p in before.dacls ==> p in after.dacls && after.dacls[p] == before.dacls[p])
    && (forall p :: p in folders ==> At(after.entries, p) == At(before.entries, p))
  }

  lemma GrantOutcome(folders: set<Wide>, before: World, after: World, path: Wide, account: Account,
                     owner: Option<Sid>, failed: bool)
    requires path in before.entries && path in before.dacls && path !in folders
    requires before.entries[path].namespaceDirectory && Recorded(account.sid, before)
    requires Outcome(before, after, path, account, owner, DIRECTORY_TRAVERSE, false, failed)
    ensures after.dacls.Keys == before.dacls.Keys
    ensures Others(account.sid, after.dacls) == Others(account.sid, before.dacls)
    ensures FoldersKept(folders, before, after)
    ensures forall p :: p in after.dacls && p != path ==> after.dacls[p] == before.dacls[p]
    ensures !failed ==> HasAce(after.dacls[path], account.sid, DIRECTORY_TRAVERSE, true)
  {
    OutcomeConserves(before, after, path, account, owner, DIRECTORY_TRAVERSE, false, failed);
    EditCarries(account, owner, before.entries[path], DIRECTORY_TRAVERSE, false, before.dacls[path]);
  }

  lemma KeptOffFolders(folders: set<Wide>, before: World, after: World, path: Wide)
    requires path !in folders && after.dacls == before.dacls
    requires forall p :: p != path ==> (p in after.entries <==> p in before.entries)
    requires forall p :: p != path && p in before.entries ==> after.entries[p] == before.entries[p]
    ensures FoldersKept(folders, before, after)
  {
  }

  predicate Granted(user: Sid, dacls: Dacls, directories: seq<Wide>, n: nat) {
    forall i :: 0 <= i < n && i < |directories| ==>
      directories[i] in dacls && HasAce(dacls[directories[i]], user, DIRECTORY_TRAVERSE, true)
  }

  lemma GrantsGrow(user: Sid, before: Dacls, after: Dacls, directories: seq<Wide>, n: nat)
    requires n < |directories| && Granted(user, before, directories, n) && before.Keys == after.Keys
    requires directories[n] in after && HasAce(after[directories[n]], user, DIRECTORY_TRAVERSE, true)
    requires forall p :: p in after && p != directories[n] ==> after[p] == before[p]
    ensures Granted(user, after, directories, n + 1)
  {
  }

  ghost predicate ChildrenDone(s: Scene, w: World, path: Wide, node: Node, n: nat) {
    forall i :: 0 <= i < n && i < |node.records| && IsSubfolder(node.records[i]) ==>
                  Done(s, w, Child(path, node.records[i].name))
  }

  lemma UnlistedNone(nodes: map<Wide, Node>, p: Wide, q: Wide)
    requires Unlisted(nodes) == {} && p in nodes && q in nodes && Within(q, p) && q != p
    ensures Listed(nodes[p], p, q)
  {
    assert (p, q) !in Unlisted(nodes);
  }

  lemma ChildrenStay(s: Scene, before: World, after: World, path: Wide, node: Node, n: nat)
    requires n < |node.records| && ChildrenDone(s, before, path, node, n) && Progress(s, before, after)
    requires IsSubfolder(node.records[n]) ==> Done(s, after, Child(path, node.records[n].name))
    ensures ChildrenDone(s, after, path, node, n + 1)
  {
    forall i | 0 <= i < n && IsSubfolder(node.records[i])
      ensures Done(s, after, Child(path, node.records[i].name))
    {
      DoneStays(s, before, after, Child(path, node.records[i].name));
    }
  }

  /** Once every subfolder is done, each excluded folder under an ancestor of an allowed root is
      protected strictly below the ancestor. */
  lemma ChildrenCover(s: Scene, w: World, path: Wide, nodes: map<Wide, Node>)
    requires path in nodes && s.folders == nodes.Keys && Unlisted(nodes) == {}
    requires AboveAllowed(path, s.allowed)
    requires ChildrenDone(s, w, path, nodes[path], |nodes[path].records|)
    ensures CoveredStrictlyBelow(s, w.dacls, path)
  {
    forall q | q in s.folders && Excluded(q, s.allowed) && Within(q, path)
      ensures Covered(s, w.dacls, q, |path| + 1, true)
    {
      UnlistedNone(nodes, path, q);
      var node := nodes[path];
      var i :| 0 <= i < |node.records| && IsSubfolder(node.records[i]) && Within(q, Child(path, node.records[i].name));
      assert Done(s, w, Child(path, node.records[i].name));
    }
  }

  /** An ancestor is done when its subfolders were and its own mask suits. */
  lemma AncestorDone(s: Scene, before: World, after: World, path: Wide, nodes: map<Wide, Node>)
    requires path in nodes && s.folders == nodes.Keys && Unlisted(nodes) == {}
    requires AboveAllowed(path, s.allowed) && Progress(s, before, after)
    requires ChildrenDone(s, before, path, nodes[path], |nodes[path].records|)
    requires Suits(path, s.allowed, At(after.entries, path)) && Passable(s, after.dacls, path)
    ensures Done(s, after, path)
  {
    var node := nodes[path];
    forall q | q in s.folders && Within(q, path)
      ensures Suits(q, s.allowed, At(after.entries, q))
      ensures Excluded(q, s.allowed) ==> Covered(s, after.dacls, q, |path|, true)
      ensures AboveAllowed(q, s.allowed) ==> Passable(s, after.dacls, q)
    {
      if q != path {
        UnlistedNone(nodes, path, q);
        var i :| 0 <= i < |node.records| && IsSubfolder(node.records[i]) &&
                 Within(q, Child(path, node.records[i].name));
        DoneStays(s, before, after, Child(path, node.records[i].name));
      }
    }
  }

  /** The entries at positions `first` to `k` are below `path` and hold no deny. */
  predicate ClearedPart(entries: Entries, order: seq<Wide>, path: Wide, first: nat, k: nat) {
    && first <= k <= |order|
    && forall j :: first <= j < k ==> order[j] in entries && GrantOnly(entries[order[j]]) && Within(order[j], path)
  }

  /** One step of the scan either moves past an entry whose deny is gone or erases the entry. */
  predicate ClearedStep(before: Entries, order: seq<Wide>, k: nat, after: Entries, order': seq<Wide>, next: nat)
    requires k < |order|
  {
    && (if next == k then order' == order[..k] + order[k + 1..]
        else next == k + 1 && order' == order && order[k] in after && GrantOnly(after[order[k]]))
    && forall j :: 0 <= j < k ==> order[j] in before && order[j] in after && after[order[j]] == before[order[j]]
  }

  lemma KeptStep(before: Entries, order: seq<Wide>, k: nat, after: Entries)
    requires Ordered(order) && k < |order| && order[k] in after && GrantOnly(after[order[k]])
    requires (forall q :: q in order ==> q in before) && after.Keys == before.Keys
    requires forall q :: q in after && q != order[k] ==> after[q] == before[q]
    ensures ClearedStep(before, order, k, after, order, k + 1)
  {
    LessIrreflexive(order[k]);
    assert forall j :: 0 <= j < k ==> order[j] != order[k];
  }

  lemma DroppedStep(before: Entries, order: seq<Wide>, k: nat, middle: Entries)
    requires Ordered(order) && k < |order| && (forall q :: q in order ==> q in before)
    requires middle.Keys == before.Keys && forall q :: q in middle && q != order[k] ==> middle[q] == before[q]
    ensures ClearedStep(before, order, k, middle - {order[k]}, order[..k] + order[k + 1..], k)
  {
    LessIrreflexive(order[k]);
    assert forall j :: 0 <= j < k ==> order[j] != order[k];
  }

  lemma ClearedGrows(before: Entries, order: seq<Wide>, k: nat, after: Entries, order': seq<Wide>, next: nat,
                     path: Wide, first: nat)
    requires k < |order| && Within(order[k], path)
    requires ClearedStep(before, order, k, after, order', next) && ClearedPart(before, order, path, first, k)
    ensures ClearedPart(after, order', path, first, next)
  {
    forall j | first <= j < k
      ensures order'[j] == order[j] && order[j] in after && GrantOnly(after[order[j]]) && Within(order'[j], path)
    {
    }
  }

  lemma ClearedAll(entries: Entries, order: seq<Wide>, path: Wide, k: nat)
    requires Ordered(order) && forall q :: q in order <==> q in entries
    requires ClearedPart(entries, order, path, LowerBound(order, path + [BACKSLASH]), k)
    requires k < |order| ==> !Within(order[k], path)
    ensures GrantsOnlyBelow(entries, path)
  {
    BelowBlock(order, path, k);
    forall q | q in entries && Within(q, path) && q != path
      ensures GrantOnly(entries[q])
    {
      var j :| 0 <= j < |order| && order[j] == q;
    }
  }

  lemma NothingToDo(w: World, path: Wide, account: Account, owner: Option<Sid>, mask: Mask, readableRoot: bool)
    requires path in w.entries && mask == 0 && Clear(w.entries[path])
    requires path in w.dacls ==>
               !AddsTraverse(account, w.entries[path], mask, readableRoot,
                             Preserved(account.sid, w.entries[path], w.dacls[path]))
    ensures Outcome(w, w, path, account, owner, mask, readableRoot, false)
  {
    if path in w.dacls {
      assert w.dacls == w.dacls[path := w.dacls[path]];
    }
    assert w.entries == w.entries[path := w.entries[path]];
  }
}
