/** The write scope: labelling two directory trees Low under one shared budget
    (src/broker/BrokerWriteScope.cpp). */
module WriteScope {
  import opened Win32

  const MAXIMUM_DEPTH: nat := 128

  // ---- labels ----

  /** One ACE of an object's mandatory label. */
  datatype LabelAce = LabelAce(mandatory: bool, low: bool, noWriteUp: bool, inheritOnly: bool, inherits: bool)

  type Label = seq<LabelAce>

  /** S:(ML;OICI;NW;;;LW) */
  const LOW_ACE := LabelAce(true, true, true, false, true)
  const LOW: Label := [LOW_ACE]

  predicate IsLowAce(ace: LabelAce, directory: bool) {
    ace.mandatory && ace.low && ace.noWriteUp && !ace.inheritOnly && (directory ==> ace.inherits)
  }

  predicate IsLow(sacl: Label, directory: bool) {
    exists i :: 0 <= i < |sacl| && IsLowAce(sacl[i], directory)
  }

  lemma LowIsLow(directory: bool)
    ensures IsLow(LOW, directory)
  {
    assert IsLowAce(LOW[0], directory);
  }

  /** The loop of `HasLowLabel`. */
  method HasLowLabel(sacl: Label, directory: bool) returns (low: bool)
    ensures low == IsLow(sacl, directory)
  {
    low := false;
    for index := 0 to |sacl|
      invariant low == exists i :: 0 <= i < index && IsLowAce(sacl[i], directory)
    {
      if IsLowAce(sacl[index], directory) {
        low := true;
      }
    }
  }

  // ---- the tree ----

  /** What each call on an object answers. `end` is the error that ends its enumeration. */
  datatype Access = Access(open: nat, info: nat, volume: nat, readLabel: nat, write: nat, relabel: nat, verify: nat,
                           list: nat, end: nat)

  /** A file or directory. `children` are the entries its enumeration returns, without `.` and `..`. */
  datatype Node = Node(id: nat, directory: bool, reparse: bool, links: nat, access: Access, children: seq<Node>)

  type Labels = map<nat, Label>

  predicate IsUnavailable(error: nat) {
    error == ERROR_ACCESS_DENIED || error == ERROR_SHARING_VIOLATION || error == ERROR_FILE_NOT_FOUND ||
    error == ERROR_PATH_NOT_FOUND
  }

  /** Neither a reparse point nor a file with several links. */
  predicate Eligible(node: Node) {
    node.access.open == ERROR_SUCCESS && !node.reparse && (node.directory || node.links == 1)
  }

  /** Eligible, and Low already or open to relabelling. */
  predicate Available(node: Node, labels: Labels) {
    && Eligible(node)
    && (node.id in labels && !IsLow(labels[node.id], node.directory) ==>
          node.access.write == ERROR_SUCCESS && node.access.relabel == ERROR_SUCCESS)
  }

  function Ids(node: Node): set<nat>
    decreases node, 1
  {
    {node.id} + ChildIds(node.children)
  }

  function ChildIds(nodes: seq<Node>): set<nat>
    decreases nodes, 0
  {
    if nodes == [] then {} else Ids(nodes[0]) + ChildIds(nodes[1..])
  }

  /** The ids a walk may relabel: eligible objects behind eligible directories. */
  function Relabelable(node: Node): set<nat>
    decreases node, 1
  {
    if !Eligible(node) then {} else {node.id} + if node.directory then RelabelableIn(node.children) else {}
  }

  function RelabelableIn(nodes: seq<Node>): set<nat>
    decreases nodes, 0
  {
    if nodes == [] then {} else Relabelable(nodes[0]) + RelabelableIn(nodes[1..])
  }

  /** The objects reachable through available entries, with whether each is a directory. */
  function Reachable(node: Node, labels: Labels): set<(nat, bool)>
    decreases node, 1
  {
    if !Available(node, labels) then {}
    else {(node.id, node.directory)} +
         if node.directory && node.access.list == ERROR_SUCCESS then ReachableIn(node.children, labels) else {}
  }

  function ReachableIn(nodes: seq<Node>, labels: Labels): set<(nat, bool)>
    decreases nodes, 0
  {
    if nodes == [] then {} else Reachable(nodes[0], labels) + ReachableIn(nodes[1..], labels)
  }

  /** The reachable part, with the entries listed on it, goes no deeper than the limit. */
  predicate Shallow(node: Node, labels: Labels, depth: nat)
    decreases node, 1
  {
    && depth <= MAXIMUM_DEPTH
    && (Available(node, labels) && node.directory && node.access.list == ERROR_SUCCESS ==>
          ShallowIn(node.children, labels, depth + 1))
  }

  predicate ShallowIn(nodes: seq<Node>, labels: Labels, depth: nat)
    decreases nodes, 0
  {
    nodes != [] ==> Shallow(nodes[0], labels, depth) && ShallowIn(nodes[1..], labels, depth)
  }

  // ---- one more entry ----

  lemma {:induction false} ChildInIds(nodes: seq<Node>, i: nat)
    requires i < |nodes|
    ensures Ids(nodes[i]) <= ChildIds(nodes)
  {
    if i > 0 {
      ChildInIds(nodes[1..], i - 1);
    }
  }

  lemma {:induction false} OneMore(nodes: seq<Node>, i: nat, labels: Labels, depth: nat)
    requires i < |nodes|
    ensures RelabelableIn(nodes[..i + 1]) == RelabelableIn(nodes[..i]) + Relabelable(nodes[i])
    ensures ReachableIn(nodes[..i + 1], labels) == ReachableIn(nodes[..i], labels) + Reachable(nodes[i], labels)
    ensures ShallowIn(nodes[..i + 1], labels, depth) <==>
            ShallowIn(nodes[..i], labels, depth) && Shallow(nodes[i], labels, depth)
  {
    if i == 0 {
      assert nodes[..1][1..] == [] && nodes[..1][0] == nodes[0] && nodes[..0] == [];
    } else {
      OneMore(nodes[1..], i - 1, labels, depth);
      assert nodes[1..][..i] == nodes[..i + 1][1..] && nodes[1..][..i - 1] == nodes[..i][1..];
    }
  }

  // ---- relabelling ----

  ghost predicate AllLow(objects: set<(nat, bool)>, labels: Labels) {
    forall o :: o in objects ==> o.0 in labels && IsLow(labels[o.0], o.1)
  }

  /** Labels change only on these ids, and only to Low. */
  ghost predicate Relabels(before: Labels, after: Labels, ids: set<nat>) {
    && after.Keys == before.Keys
    && forall id :: id in before ==> after[id] == before[id] || (id in ids && after[id] == LOW)
  }

  lemma RelabelsKeepsLow(before: Labels, after: Labels, ids: set<nat>, objects: set<(nat, bool)>)
    requires Relabels(before, after, ids) && AllLow(objects, before)
    ensures AllLow(objects, after)
  {
    LowIsLow(true);
    LowIsLow(false);
  }

  lemma {:induction false} AvailableLater(node: Node, before: Labels, after: Labels, ids: set<nat>)
    requires Relabels(before, after, ids)
    ensures Available(node, before) ==> Available(node, after)
  {
    LowIsLow(node.directory);
  }

  /** Relabelling only makes more objects reachable. */
  lemma {:induction false} ReachableLater(node: Node, before: Labels, after: Labels, ids: set<nat>)
    requires Relabels(before, after, ids)
    ensures Reachable(node, before) <= Reachable(node, after)
    decreases node, 1
  {
    AvailableLater(node, before, after, ids);
    ReachableInLater(node.children, before, after, ids);
  }

  lemma {:induction false} ReachableInLater(nodes: seq<Node>, before: Labels, after: Labels, ids: set<nat>)
    requires Relabels(before, after, ids)
    ensures ReachableIn(nodes, before) <= ReachableIn(nodes, after)
    decreases nodes, 0
  {
    if nodes != [] {
      ReachableLater(nodes[0], before, after, ids);
      ReachableInLater(nodes[1..], before, after, ids);
    }
  }

  /** And makes deeper what is walked. */
  lemma {:induction false} ShallowEarlier(node: Node, before: Labels, after: Labels, ids: set<nat>, depth: nat)
    requires Relabels(before, after, ids) && Shallow(node, after, depth)
    ensures Shallow(node, before, depth)
    decreases node, 1
  {
    AvailableLater(node, before, after, ids);
    if Available(node, before) && node.directory && node.access.list == ERROR_SUCCESS {
      ShallowInEarlier(node.children, before, after, ids, depth + 1);
    }
  }

  lemma {:induction false} ShallowInEarlier(nodes: seq<Node>, before: Labels, after: Labels, ids: set<nat>, depth: nat)
    requires Relabels(before, after, ids) && ShallowIn(nodes, after, depth)
    ensures ShallowIn(nodes, before, depth)
    decreases nodes, 0
  {
    if nodes != [] {
      ShallowEarlier(nodes[0], before, after, ids, depth);
      ShallowInEarlier(nodes[1..], before, after, ids, depth);
    }
  }

  /** What the walk of some entries has achieved. */
  ghost predicate Walked(nodes: seq<Node>, before: Labels, after: Labels, depth: nat) {
    && Relabels(before, after, RelabelableIn(nodes))
    && AllLow(ReachableIn(nodes, before), after)
    && ShallowIn(nodes, before, depth)
  }

  lemma WalkedOne(nodes: seq<Node>, i: nat, start: Labels, now: Labels, after: Labels, depth: nat)
    requires i < |nodes| && Walked(nodes[..i], start, now, depth)
    requires Relabels(now, after, Relabelable(nodes[i]))
    ensures Relabels(start, after, RelabelableIn(nodes[..i + 1]))
    ensures AllLow(Reachable(nodes[i], now), after) && Shallow(nodes[i], now, depth) ==>
              Walked(nodes[..i + 1], start, after, depth)
  {
    OneMore(nodes, i, start, depth);
    if AllLow(Reachable(nodes[i], now), after) && Shallow(nodes[i], now, depth) {
      ReachableLater(nodes[i], start, now, RelabelableIn(nodes[..i]));
      ShallowEarlier(nodes[i], start, now, RelabelableIn(nodes[..i]), depth);
      RelabelsKeepsLow(now, after, Relabelable(nodes[i]), ReachableIn(nodes[..i], start));
    }
  }

  lemma {:induction false} RelabelableGrows(nodes: seq<Node>, i: nat)
    requires i <= |nodes|
    ensures RelabelableIn(nodes[..i]) <= RelabelableIn(nodes)
  {
    if i > 0 {
      RelabelableGrows(nodes[1..], i - 1);
      assert nodes[..i][1..] == nodes[1..][..i - 1];
    }
  }

  // ---- the walk ----

  /** The labels of all objects, and how many objects were opened and looked at. */
  class Volume {
    var labels: Labels
    ghost var inspected: nat
  }

  class WriteScopeBudget {
    var remainingObjects: nat

    constructor (maximum: nat)
      ensures remainingObjects == maximum
    {
      remainingObjects := maximum;
    }

    /** The clock may have passed the deadline at any check. */
    method CheckTime() returns (error: nat)
      ensures error == ERROR_SUCCESS || error == ERROR_TIMEOUT
    {
      var late: bool := *;
      error := if late then ERROR_TIMEOUT else ERROR_SUCCESS;
    }

    method ConsumeObject() returns (error: nat)
      modifies this
      ensures error == ERROR_SUCCESS ==>
                old(remainingObjects) > 0 && remainingObjects == old(remainingObjects) - 1
      ensures error != ERROR_SUCCESS ==> remainingObjects == old(remainingObjects)
    {
      error := CheckTime();
      if error != ERROR_SUCCESS {
        return;
      }
      if remainingObjects == 0 {
        return ERROR_NOT_ENOUGH_QUOTA;
      }
      remainingObjects := remainingObjects - 1;
    }
  }

  /** What skipping an unavailable child, but not an unavailable root, returns. */
  function Skipped(root: bool, error: nat): nat {
    if !root && IsUnavailable(error) then ERROR_SUCCESS else error
  }

  /** Opens one object and checks it, before any label is written; `proceed` says that the walk goes on. */
  method Inspect(volume: Volume, node: Node, root: bool) returns (error: nat, proceed: bool)
    modifies volume`inspected
    ensures volume.inspected == old(volume.inspected) + 1
    ensures proceed ==> error == ERROR_SUCCESS && Eligible(node) && (root ==> node.directory)
    ensures !proceed && error == ERROR_SUCCESS ==> !root && !Eligible(node)
  {
    volume.inspected := volume.inspected + 1;
    if node.access.open != ERROR_SUCCESS {
      return Skipped(root, node.access.open), false;
    }
    if node.access.info != ERROR_SUCCESS {
      return node.access.info, false;
    }
    if node.reparse || (!node.directory && node.links != 1) {
      return if root then ERROR_ACCESS_DENIED else ERROR_SUCCESS, false;
    }
    if root && !node.directory {
      return ERROR_DIRECTORY, false;
    }
    if root && node.access.volume != ERROR_SUCCESS {
      return node.access.volume, false;
    }
    return ERROR_SUCCESS, true;
  }

  /** Makes one inspected object Low. */
  method Relabel(volume: Volume, node: Node, root: bool) returns (error: nat, proceed: bool)
    requires node.id in volume.labels && Eligible(node)
    modifies volume`labels
    ensures Relabels(old(volume.labels), volume.labels, {node.id})
    ensures proceed ==> error == ERROR_SUCCESS && IsLow(volume.labels[node.id], node.directory)
    ensures !proceed && error == ERROR_SUCCESS ==> !root && !Available(node, old(volume.labels))
  {
    if node.access.readLabel != ERROR_SUCCESS {
      return node.access.readLabel, false;
    }
    var low := HasLowLabel(volume.labels[node.id], node.directory);
    if low {
      return ERROR_SUCCESS, true;
    }
    if node.access.write != ERROR_SUCCESS {
      return Skipped(root, node.access.write), false;
    }
    if node.access.relabel != ERROR_SUCCESS {
      return Skipped(root, node.access.relabel), false;
    }
    volume.labels := volume.labels[node.id := LOW];
    if node.access.verify != ERROR_SUCCESS {
      return node.access.verify, false;
    }
    low := HasLowLabel(volume.labels[node.id], node.directory);
    LowIsLow(node.directory);
    return ERROR_SUCCESS, true;
  }

  /** Every object looked at since then was paid for. */
  ghost predicate Paid(volume: Volume, inspected: nat, budget: WriteScopeBudget, remaining: nat)
    reads volume, budget
  {
    budget.remainingObjects <= remaining && volume.inspected - inspected == remaining - budget.remainingObjects
  }

  /** The enumeration loop. */
  method LabelChildren(volume: Volume, node: Node, root: bool, depth: nat, budget: WriteScopeBudget)
    returns (error: nat)
    requires ChildIds(node.children) <= volume.labels.Keys
    modifies volume, budget
    ensures Relabels(old(volume.labels), volume.labels, RelabelableIn(node.children))
    ensures Paid(volume, old(volume.inspected), budget, old(budget.remainingObjects))
    ensures error == ERROR_SUCCESS ==> Walked(node.children, old(volume.labels), volume.labels, depth)
    decreases node, 0
  {
    ghost var start := volume.labels;
    for i := 0 to |node.children|
      invariant Walked(node.children[..i], start, volume.labels, depth)
      invariant Paid(volume, old(volume.inspected), budget, old(budget.remainingObjects))
    {
      RelabelableGrows(node.children, i);
      RelabelableGrows(node.children, i + 1);
      error := budget.CheckTime();
      if error != ERROR_SUCCESS {
        return;
      }
      ChildInIds(node.children, i);
      ghost var now := volume.labels;
      error := LabelTree(volume, node.children[i], false, depth, budget);
      WalkedOne(node.children, i, start, now, volume.labels, depth);
      if error != ERROR_SUCCESS {
        return;
      }
    }
    assert node.children[..|node.children|] == node.children;
    if node.access.end != ERROR_NO_MORE_FILES && (root || !IsUnavailable(node.access.end)) {
      return node.access.end;
    }
    error := budget.CheckTime();
  }

  method LabelTree(volume: Volume, node: Node, root: bool, depth: nat, budget: WriteScopeBudget) returns (error: nat)
    requires Ids(node) <= volume.labels.Keys
    modifies volume, budget
    ensures Relabels(old(volume.labels), volume.labels, Relabelable(node))
    ensures Paid(volume, old(volume.inspected), budget, old(budget.remainingObjects))
    ensures error == ERROR_SUCCESS ==>
              AllLow(Reachable(node, old(volume.labels)), volume.labels) && Shallow(node, old(volume.labels), depth)
    ensures error == ERROR_SUCCESS && root ==> node.directory && AllLow({(node.id, true)}, volume.labels)
    ensures depth > MAXIMUM_DEPTH ==> error == ERROR_NOT_ENOUGH_QUOTA && volume.labels == old(volume.labels)
    decreases node, 1
  {
    if depth > MAXIMUM_DEPTH {
      return ERROR_NOT_ENOUGH_QUOTA;
    }
    error := budget.ConsumeObject();
    if error != ERROR_SUCCESS {
      return;
    }
    var proceed;
    error, proceed := Inspect(volume, node, root);
    if !proceed {
      return;
    }
    error, proceed := Relabel(volume, node, root);
    if !proceed || !node.directory {
      return;
    }
    if node.access.list != ERROR_SUCCESS {
      return Skipped(root, node.access.list);
    }
    ghost var before, start := old(volume.labels), volume.labels;
    error := LabelChildren(volume, node, root, depth + 1, budget);
    NodeWalked(node, before, start, volume.labels, depth, error == ERROR_SUCCESS);
  }

  lemma NodeWalked(node: Node, before: Labels, start: Labels, after: Labels, depth: nat, done: bool)
    requires Eligible(node) && node.directory && node.access.list == ERROR_SUCCESS && depth <= MAXIMUM_DEPTH
    requires node.id in before && Relabels(before, start, {node.id}) && IsLow(start[node.id], true)
    requires Relabels(start, after, RelabelableIn(node.children))
    requires done ==> Walked(node.children, start, after, depth + 1)
    ensures Relabels(before, after, Relabelable(node))
    ensures done ==>
              AllLow(Reachable(node, before), after) && Shallow(node, before, depth) && AllLow({(node.id, true)}, after)
  {
    if done {
      ReachableInLater(node.children, before, start, {node.id});
      ShallowInEarlier(node.children, before, start, {node.id}, depth + 1);
      RelabelsKeepsLow(start, after, RelabelableIn(node.children), {(node.id, true)});
    }
  }

  // ---- both roots ----

  /** A component of the path to a root. */
  datatype Ancestor = Ancestor(open: nat, info: nat, reparse: bool)

  /** A root directory: what path validation says, the components above it, and its tree. */
  datatype Root = Root(validation: nat, volume: nat, ancestors: seq<Ancestor>, tree: Node)

  predicate Anchored(root: Root) {
    && root.validation == ERROR_SUCCESS
    && forall i :: 0 <= i < |root.ancestors| ==> root.ancestors[i].open == ERROR_SUCCESS && !root.ancestors[i].reparse
  }

  /** Opens and checks the ancestors one component at a time. */
  method PinAncestors(root: Root, budget: WriteScopeBudget) returns (error: nat)
    requires root.validation == ERROR_SUCCESS
    ensures error == ERROR_SUCCESS ==> Anchored(root)
  {
    for i := 0 to |root.ancestors|
      invariant forall k :: 0 <= k < i ==> root.ancestors[k].open == ERROR_SUCCESS && !root.ancestors[k].reparse
    {
      error := budget.CheckTime();
      if error != ERROR_SUCCESS {
        return;
      }
      var ancestor := root.ancestors[i];
      if ancestor.open != ERROR_SUCCESS {
        return ancestor.open;
      }
      if ancestor.info != ERROR_SUCCESS {
        return ancestor.info;
      }
      if ancestor.reparse {
        return ERROR_ACCESS_DENIED;
      }
    }
    return ERROR_SUCCESS;
  }

  method LabelRoot(volume: Volume, root: Root, budget: WriteScopeBudget) returns (error: nat)
    requires Ids(root.tree) <= volume.labels.Keys
    modifies volume, budget
    ensures Relabels(old(volume.labels), volume.labels, Relabelable(root.tree))
    ensures volume.labels == old(volume.labels) || Anchored(root)
    ensures Paid(volume, old(volume.inspected), budget, old(budget.remainingObjects))
    ensures error == ERROR_SUCCESS ==>
              Anchored(root) && root.tree.directory && AllLow({(root.tree.id, true)}, volume.labels) &&
              AllLow(Reachable(root.tree, old(volume.labels)), volume.labels) &&
              Shallow(root.tree, old(volume.labels), 0)
  {
    error := budget.CheckTime();
    if error != ERROR_SUCCESS {
      return;
    }
    if root.validation != ERROR_SUCCESS {
      return root.validation;
    }
    if root.volume != ERROR_SUCCESS {
      return root.volume;
    }
    error := PinAncestors(root, budget);
    if error != ERROR_SUCCESS {
      return;
    }
    error := LabelTree(volume, root.tree, true, 0, budget);
  }

  /** `PrepareWriteScope`: on success everything reachable through available entries under both roots is
      Low; on any result only relabelable objects of the two trees changed, and only to Low; at most the
      one budget is spent over both. */
  method PrepareWriteScope(volume: Volume, profile: Root, working: Root, maximumObjects: nat)
    returns (error: nat)
    requires Ids(profile.tree) + Ids(working.tree) <= volume.labels.Keys
    modifies volume
    ensures Relabels(old(volume.labels), volume.labels, Relabelable(profile.tree) + Relabelable(working.tree))
    ensures old(volume.inspected) <= volume.inspected <= old(volume.inspected) + maximumObjects
    ensures error == ERROR_SUCCESS ==>
              && AllLow({(profile.tree.id, true), (working.tree.id, true)}, volume.labels)
              && AllLow(Reachable(profile.tree, old(volume.labels)) + Reachable(working.tree, old(volume.labels)),
                        volume.labels)
              && Shallow(profile.tree, old(volume.labels), 0) && Shallow(working.tree, old(volume.labels), 0)
  {
    var budget := new WriteScopeBudget(maximumObjects);
    ghost var before := volume.labels;
    error := LabelRoot(volume, profile, budget);
    if error != ERROR_SUCCESS {
      return;
    }
    ghost var middle := volume.labels;
    error := LabelRoot(volume, working, budget);
    if error == ERROR_SUCCESS {
      ReachableLater(working.tree, before, middle, Relabelable(profile.tree));
      ShallowEarlier(working.tree, before, middle, Relabelable(profile.tree), 0);
      RelabelsKeepsLow(middle, volume.labels, Relabelable(working.tree),
                       Reachable(profile.tree, before) + {(profile.tree.id, true)});
    }
  }

  // ---- what is never touched ----

  predicate Excluded(node: Node) {
    node.reparse || (!node.directory && node.links != 1)
  }

  /** Nodes of a tree. */
  function Nodes(node: Node): set<Node>
    decreases node, 1
  {
    {node} + NodesIn(node.children)
  }

  function NodesIn(nodes: seq<Node>): set<Node>
    decreases nodes, 0
  {
    if nodes == [] then {} else Nodes(nodes[0]) + NodesIn(nodes[1..])
  }

  /** A relabelable id is the id of an eligible node of the tree. */
  lemma {:induction false} RelabelableIsEligible(node: Node, id: nat)
    requires id in Relabelable(node)
    ensures exists n :: n in Nodes(node) && n.id == id && Eligible(n)
    decreases node, 1
  {
    if id == node.id {
      assert node in Nodes(node);
    } else {
      RelabelableInIsEligible(node.children, id);
      var n :| n in NodesIn(node.children) && n.id == id && Eligible(n);
      assert n in Nodes(node);
    }
  }

  lemma {:induction false} RelabelableInIsEligible(nodes: seq<Node>, id: nat)
    requires id in RelabelableIn(nodes)
    ensures exists n :: n in NodesIn(nodes) && n.id == id && Eligible(n)
    decreases nodes, 0
  {
    if id in Relabelable(nodes[0]) {
      RelabelableIsEligible(nodes[0], id);
      var n :| n in Nodes(nodes[0]) && n.id == id && Eligible(n);
      assert n in NodesIn(nodes);
    } else {
      RelabelableInIsEligible(nodes[1..], id);
      var n :| n in NodesIn(nodes[1..]) && n.id == id && Eligible(n);
      assert n in NodesIn(nodes);
    }
  }

  /** No reparse point, no file with several links and nothing outside the tree changes its label. */
  lemma ExcludedKeepsLabel(node: Node, before: Labels, after: Labels, id: nat)
    requires Relabels(before, after, Relabelable(node)) && id in before
    requires forall n :: n in Nodes(node) && n.id == id ==> Excluded(n)
    ensures after[id] == before[id]
  {
    if id in Relabelable(node) {
      RelabelableIsEligible(node, id);
    }
  }
}
