/** The iteration order of `std::map<std::wstring, ...>` and the scan from `lower_bound` that `Visit`
    makes (src/broker/BrokerReadScope.cpp). */
module KeyOrder {
  import opened Text
  import opened Paths

  /** The keys of `std::map`, in its iteration order. */
  predicate Ordered(order: seq<Wide>) {
    forall i, j :: 0 <= i < j < |order| ==> Less(order[i], order[j])
  }

  function LowerBound(order: seq<Wide>, key: Wide): (k: nat)
    requires Ordered(order)
    ensures k <= |order|
    ensures forall i :: 0 <= i < k ==> Less(order[i], key)
    ensures forall i :: k <= i < |order| ==> !Less(order[i], key)
  {
    if |order| == 0 then 0
    else if !Less(order[0], key) then
      assert forall i :: 0 <= i < |order| ==> !Less(order[i], key) by {
        forall i | 0 < i < |order|
          ensures !Less(order[i], key)
        {
          if Less(order[i], key) {
            LessTransitive(order[0], order[i], key);
          }
        }
      }
      0
    else 1 + LowerBound(order[1..], key)
  }

  lemma InsertKeepsOrder(order: seq<Wide>, key: Wide)
    requires Ordered(order) && key !in order
    ensures var k := LowerBound(order, key); Ordered(order[..k] + [key] + order[k..])
  {
    var k := LowerBound(order, key);
    forall i | k <= i < |order|
      ensures Less(key, order[i])
    {
      LessTotal(order[i], key);
    }
  }

  /** The scan from `lower_bound(path + "\")` while `Within` reaches exactly the keys strictly below
      `path`: they are a contiguous block that starts there. */
  lemma BelowBlock(order: seq<Wide>, path: Wide, end: nat)
    requires Ordered(order)
    requires LowerBound(order, path + [BACKSLASH]) <= end <= |order|
    requires forall j :: LowerBound(order, path + [BACKSLASH]) <= j < end ==> Within(order[j], path)
    requires end < |order| ==> !Within(order[end], path)
    ensures forall j :: 0 <= j < |order| ==>
              (LowerBound(order, path + [BACKSLASH]) <= j < end <==> Within(order[j], path) && order[j] != path)
  {
    var p := path + [BACKSLASH];
    var k := LowerBound(order, p);
    forall j | 0 <= j < |order|
      ensures k <= j < end <==> Within(order[j], path) && order[j] != path
    {
      BelowIsPrefix(order[j], path);
      if j < k && StartsWith(order[j], p) {
        BeforePrefix(order[j], p);
      } else if k <= j < end {
        if order[j] == path {
          PrefixIsLess(path, p);
        }
      } else if end <= j && StartsWith(order[j], p) {
        if end < j {
          PrefixBlockContiguous(p, order[end], order[j]);
        }
        BelowIsPrefix(order[end], path);
      }
    }
  }

  lemma BeforePrefix(key: Wide, prefix: Wide)
    requires StartsWith(key, prefix)
    ensures !Less(key, prefix)
  {
    if Less(key, prefix) {
      if key != prefix {
        PrefixIsLess(prefix, key);
        LessTransitive(key, prefix, key);
      }
      LessIrreflexive(key);
    }
  }

  lemma LowerBoundUnique(order: seq<Wide>, key: Wide, k: nat)
    requires Ordered(order) && k <= |order|
    requires forall i :: 0 <= i < k ==> Less(order[i], key)
    requires forall i :: k <= i < |order| ==> !Less(order[i], key)
    ensures LowerBound(order, key) == k
  {
    assert k < |order| ==> !Less(order[k], key);
    assert LowerBound(order, key) < |order| ==> !Less(order[LowerBound(order, key)], key);
  }

  lemma DropKeepsBound(order: seq<Wide>, k: nat, bound: Wide)
    requires Ordered(order) && k < |order| && LowerBound(order, bound) <= k
    ensures Ordered(order[..k] + order[k + 1..])
    ensures LowerBound(order[..k] + order[k + 1..], bound) == LowerBound(order, bound)
  {
    var after, n := order[..k] + order[k + 1..], LowerBound(order, bound);
    DropKeys(order, k);
    forall i | 0 <= i < n
      ensures Less(after[i], bound)
    {
      assert after[i] == order[i];
    }
    forall i | n <= i < |after|
      ensures !Less(after[i], bound)
    {
      var j := if i < k then i else i + 1;
      assert after[i] == order[j] && n <= j < |order|;
    }
    LowerBoundUnique(after, bound, n);
  }

  lemma DropKeys(order: seq<Wide>, k: nat)
    requires Ordered(order) && k < |order|
    ensures Ordered(order[..k] + order[k + 1..])
    ensures forall key :: key in order[..k] + order[k + 1..] <==> key in order && key != order[k]
  {
    var after := order[..k] + order[k + 1..];
    assert forall i :: 0 <= i < |after| ==> after[i] == order[if i < k then i else i + 1];
    forall key | key in order && key != order[k]
      ensures key in after
    {
      var i :| 0 <= i < |order| && order[i] == key;
      assert after[if i < k then i else i - 1] == key;
    }
    forall key | key in after
      ensures key in order && key != order[k]
    {
      var i :| 0 <= i < |after| && after[i] == key;
      assert key == order[if i < k then i else i + 1];
      LessIrreflexive(key);
    }
  }
}
