/** Canonical folder paths, the `Within` test and the reduction of the allowed-root list
    (src/broker/BrokerReadScope.cpp). */
module Paths {
  import opened Text

  /** `path` is `root` or lies below it. */
  predicate Within(path: Wide, root: Wide) {
    path == root || (|path| > |root| && StartsWith(path, root) && path[|root|] == BACKSLASH)
  }

  function Child(path: Wide, name: Wide): Wide {
    path + [BACKSLASH] + name
  }

  lemma WithinTransitive(a: Wide, b: Wide, c: Wide)
    requires Within(a, b) && Within(b, c)
    ensures Within(a, c)
  {
    if a != b && b != c {
      assert a[..|c|] == a[..|b|][..|c|];
      assert a[|c|] == a[..|b|][|c|];
    }
  }

  /** Two folders above (or equal to) a common one are themselves nested. */
  lemma WithinComparable(q: Wide, a: Wide, b: Wide)
    requires Within(q, a) && Within(q, b)
    ensures |a| >= |b| ==> Within(a, b)
    ensures |a| <= |b| ==> Within(b, a)
  {
    if |a| >= |b| {
      WithinOfLonger(q, a, b);
    }
    if |a| <= |b| {
      WithinOfLonger(q, b, a);
    }
  }

  lemma WithinOfLonger(q: Wide, a: Wide, b: Wide)
    requires Within(q, a) && Within(q, b) && |a| >= |b|
    ensures Within(a, b)
  {
    assert a == q[..|a|];
    assert b == q[..|b|];
    assert a[..|b|] == q[..|b|];
    if |a| > |b| {
      assert a[|b|] == q[|b|];
    } else {
      assert a == b;
    }
  }

  /** Strictly below `path` means exactly: extends `path` plus a separator. */
  lemma BelowIsPrefix(key: Wide, path: Wide)
    ensures (Within(key, path) && key != path) <==> StartsWith(key, path + [BACKSLASH])
  {
    var p := path + [BACKSLASH];
    if StartsWith(key, p) {
      assert key[..|path|] == key[..|p|][..|path|] == path;
      assert key[|path|] == key[..|p|][|path|];
    }
    if Within(key, path) && key != path {
      assert key[..|p|] == key[..|path|] + [key[|path|]];
    }
  }

  // ---- which folders the scope leaves readable ----

  predicate Readable(path: Wide, allowed: seq<Wide>) {
    exists i :: 0 <= i < |allowed| && Within(path, allowed[i])
  }

  predicate AboveAllowed(path: Wide, allowed: seq<Wide>) {
    exists i :: 0 <= i < |allowed| && Within(allowed[i], path)
  }

  /** Neither inside an allowed root nor an ancestor of one. */
  predicate Excluded(path: Wide, allowed: seq<Wide>) {
    !Readable(path, allowed) && !AboveAllowed(path, allowed)
  }

  lemma ReadableBelow(q: Wide, path: Wide, allowed: seq<Wide>)
    requires Within(q, path) && Readable(path, allowed)
    ensures Readable(q, allowed)
  {
    var i :| 0 <= i < |allowed| && Within(path, allowed[i]);
    WithinTransitive(q, path, allowed[i]);
  }

  lemma ExcludedBelow(q: Wide, path: Wide, allowed: seq<Wide>)
    requires Within(q, path) && Excluded(path, allowed)
    ensures Excluded(q, allowed)
  {
    forall i | 0 <= i < |allowed|
      ensures !Within(q, allowed[i]) && !Within(allowed[i], q)
    {
      if Within(q, allowed[i]) {
        WithinComparable(q, path, allowed[i]);
      } else if Within(allowed[i], q) {
        WithinTransitive(allowed[i], q, path);
      }
    }
  }

  /** Every ancestor of a folder inside an allowed root is inside it or above it. */
  lemma AboveReadable(q: Wide, x: Wide, allowed: seq<Wide>)
    requires Readable(q, allowed) && Within(q, x)
    ensures Readable(x, allowed) || AboveAllowed(x, allowed)
  {
    var i :| 0 <= i < |allowed| && Within(q, allowed[i]);
    WithinComparable(q, x, allowed[i]);
  }

  // ---- sorting and reducing the allowed roots ----

  predicate Sorted(s: seq<Wide>) {
    forall i, j :: 0 <= i < j < |s| ==> !Less(s[j], s[i])
  }

  /** `std::ranges::sort` on strings: a library call, modelled by insertion. */
  function Insert(s: seq<Wide>, w: Wide): (r: seq<Wide>)
    requires Sorted(s)
    ensures Sorted(r) && multiset(r) == multiset(s) + multiset{w}
  {
    if |s| == 0 then [w]
    else if Less(w, s[0]) then
      InsertFront(s, w);
      [w] + s
    else
      var t := Insert(s[1..], w);
      assert s == [s[0]] + s[1..];
      InsertAfter(s, w, t);
      [s[0]] + t
  }

  lemma InsertFront(s: seq<Wide>, w: Wide)
    requires Sorted(s) && |s| > 0 && Less(w, s[0])
    ensures Sorted([w] + s)
  {
    forall j | 0 <= j < |s|
      ensures !Less(s[j], w)
    {
      if Less(s[j], w) {
        LessTransitive(s[j], w, s[0]);
        if j == 0 {
          LessIrreflexive(s[0]);
        }
      }
    }
  }

  lemma InsertAfter(s: seq<Wide>, w: Wide, t: seq<Wide>)
    requires Sorted(s) && |s| > 0 && !Less(w, s[0])
    requires Sorted(t) && multiset(t) == multiset(s[1..]) + multiset{w}
    ensures Sorted([s[0]] + t)
  {
    forall j | 0 <= j < |t|
      ensures !Less(t[j], s[0])
    {
      assert t[j] in multiset(t);
      if t[j] != w {
        assert t[j] in multiset(s[1..]);
        var k :| 0 <= k < |s[1..]| && s[1..][k] == t[j];
        assert s[k + 1] == t[j];
      }
    }
  }

  function Sort(s: seq<Wide>): (r: seq<Wide>)
    ensures Sorted(r) && multiset(r) == multiset(s)
  {
    if |s| == 0 then []
    else
      assert s == s[..|s| - 1] + [s[|s| - 1]];
      Insert(Sort(s[..|s| - 1]), s[|s| - 1])
  }

  predicate Antichain(roots: seq<Wide>) {
    forall i, j :: 0 <= i < |roots| && 0 <= j < |roots| && i != j ==> !Within(roots[i], roots[j])
  }

  /** The two lists allow the same folders and exclude the same folders. */
  ghost predicate SameCover(a: seq<Wide>, b: seq<Wide>) {
    && (forall p :: Readable(p, a) <==> Readable(p, b))
    && (forall p :: Excluded(p, a) <==> Excluded(p, b))
  }

  /** Inside an allowed root only the root itself is at or above an allowed root. */
  lemma AboveInsideRoot(q: Wide, path: Wide, allowed: seq<Wide>)
    requires Antichain(allowed) && Readable(path, allowed) && AboveAllowed(q, allowed) && Within(q, path)
    ensures q == path
  {
    var i :| 0 <= i < |allowed| && Within(path, allowed[i]);
    var j :| 0 <= j < |allowed| && Within(allowed[j], q);
    WithinTransitive(allowed[j], q, path);
    WithinTransitive(allowed[j], path, allowed[i]);
    assert i == j;
  }

  /** Keep only the broadest roots of the sorted list. */
  method ReduceRoots(unsorted: seq<Wide>) returns (roots: seq<Wide>)
    ensures Antichain(roots)
    ensures SameCover(roots, unsorted)
    ensures forall r :: r in roots ==> r in unsorted
  {
    var allowed := Sort(unsorted);
    roots := [];
    for n := 0 to |allowed|
      invariant Antichain(roots)
      invariant forall i :: 0 <= i < |roots| ==> roots[i] in allowed[..n]
      invariant forall i :: 0 <= i < n ==> Readable(allowed[i], roots)
    {
      var root := allowed[n];
      ghost var before := roots;
      if !(exists i :: 0 <= i < |roots| && Within(root, roots[i])) {
        KeepsAntichain(allowed, n, roots);
        roots := roots + [root];
        assert Within(root, roots[|before|]);
      }
      forall i | 0 <= i < n + 1
        ensures Readable(allowed[i], roots)
      {
        if i < n {
          var k :| 0 <= k < |before| && Within(allowed[i], before[k]);
          assert roots[k] == before[k];
        }
      }
    }
    ReducedCover(unsorted, allowed, roots);
  }

  lemma KeepsAntichain(allowed: seq<Wide>, n: nat, roots: seq<Wide>)
    requires Sorted(allowed) && n < |allowed| && Antichain(roots)
    requires forall i :: 0 <= i < |roots| ==> roots[i] in allowed[..n]
    requires !Readable(allowed[n], roots)
    ensures Antichain(roots + [allowed[n]])
  {
    var root := allowed[n];
    forall i | 0 <= i < |roots|
      ensures !Within(roots[i], root)
    {
      var k :| 0 <= k < n && allowed[k] == roots[i];
      if Within(roots[i], root) && roots[i] != root {
        PrefixIsLess(root, roots[i]);
      }
    }
  }

  lemma ReducedCover(unsorted: seq<Wide>, allowed: seq<Wide>, roots: seq<Wide>)
    requires multiset(allowed) == multiset(unsorted)
    requires forall i :: 0 <= i < |roots| ==> roots[i] in allowed
    requires forall i :: 0 <= i < |allowed| ==> Readable(allowed[i], roots)
    ensures SameCover(roots, unsorted)
    ensures forall r :: r in roots ==> r in unsorted
  {
    SameMembers(unsorted, allowed);
    forall i | 0 <= i < |unsorted|
      ensures Readable(unsorted[i], roots)
    {
      assert unsorted[i] in allowed;
      var k :| 0 <= k < |allowed| && allowed[k] == unsorted[i];
    }
    forall p
      ensures Readable(p, roots) <==> Readable(p, unsorted)
      ensures Excluded(p, roots) <==> Excluded(p, unsorted)
    {
      CoverFromSubset(p, roots, unsorted);
      CoverFromRoots(p, unsorted, roots);
    }
  }

  lemma SameMembers(a: seq<Wide>, b: seq<Wide>)
    requires multiset(a) == multiset(b)
    ensures forall r :: r in a <==> r in b
  {
    forall r
      ensures r in a <==> r in b
    {
      assert r in multiset(a) <==> r in multiset(b);
    }
  }

  lemma CoverFromSubset(p: Wide, roots: seq<Wide>, all: seq<Wide>)
    requires forall i :: 0 <= i < |roots| ==> roots[i] in all
    ensures Readable(p, roots) ==> Readable(p, all)
    ensures AboveAllowed(p, roots) ==> AboveAllowed(p, all)
  {
  }

  lemma CoverFromRoots(p: Wide, all: seq<Wide>, roots: seq<Wide>)
    requires forall i :: 0 <= i < |all| ==> Readable(all[i], roots)
    ensures Readable(p, all) ==> Readable(p, roots)
    ensures AboveAllowed(p, all) ==> AboveAllowed(p, roots) || Readable(p, roots)
  {
    if Readable(p, all) {
      var i :| 0 <= i < |all| && Within(p, all[i]);
      ReadableBelow(p, all[i], roots);
    }
    if AboveAllowed(p, all) {
      var i :| 0 <= i < |all| && Within(all[i], p);
      var r :| 0 <= r < |roots| && Within(all[i], roots[r]);
      WithinComparable(all[i], roots[r], p);
    }
  }
}
