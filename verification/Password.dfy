/** Generated passwords: rejection sampling without bias, and a shuffle that reaches every order in
    exactly one way (src/broker/BrokerPassword.cpp). */
module Password {
  import opened Text
  import opened Wrappers

  const PASSWORD_LENGTH: nat := 32
  const RANDOM_RANGE: nat := 0x1_0000_0000

  /** ABCDEFGHJKLMNPQRSTUVWXYZ */
  const UPPERCASE: Wide := [
    0x41, 0x42, 0x43, 0x44, 0x45, 0x46, 0x47, 0x48, 0x4A, 0x4B, 0x4C, 0x4D, 0x4E, 0x50, 0x51, 0x52,
    0x53, 0x54, 0x55, 0x56, 0x57, 0x58, 0x59, 0x5A]
  /** abcdefghijkmnopqrstuvwxyz */
  const LOWERCASE: Wide := [
    0x61, 0x62, 0x63, 0x64, 0x65, 0x66, 0x67, 0x68, 0x69, 0x6A, 0x6B, 0x6D, 0x6E, 0x6F, 0x70, 0x71,
    0x72, 0x73, 0x74, 0x75, 0x76, 0x77, 0x78, 0x79, 0x7A]
  /** 23456789 */
  const DIGITS: Wide := [0x32, 0x33, 0x34, 0x35, 0x36, 0x37, 0x38, 0x39]
  /** !#$%&*+-=?@ */
  const SYMBOLS: Wide := [0x21, 0x23, 0x24, 0x25, 0x26, 0x2A, 0x2B, 0x2D, 0x3D, 0x3F, 0x40]

  const ALLOWED: Wide := UPPERCASE + LOWERCASE + DIGITS + SYMBOLS

  // ---- rejection sampling ----

  function Limit(upperBound: nat): (limit: nat)
    requires 1 <= upperBound <= RANDOM_RANGE
    ensures 0 < limit <= RANDOM_RANGE && limit % upperBound == 0
  {
    MultipleBelow(RANDOM_RANGE, upperBound);
    RANDOM_RANGE - RANDOM_RANGE % upperBound
  }

  lemma MultipleBelow(n: nat, d: nat)
    requires 1 <= d <= n
    ensures 0 < n - n % d <= n && n - n % d == n / d * d && (n - n % d) % d == 0
  {
    ModOfMultiple(n / d, d);
  }

  lemma ModOfMultiple(k: nat, d: nat)
    requires 1 <= d
    ensures k * d % d == 0 && k * d / d == k
  {
    ModOfSum(k, d, 0);
  }

  lemma TimesAtLeast(x: int, d: nat)
    requires x >= 1
    ensures x * d >= d
  {
  }

  lemma ModOfSum(k: nat, d: nat, r: nat)
    requires r < d
    ensures (k * d + r) % d == r && (k * d + r) / d == k
  {
    var n := k * d + r;
    var q := n / d;
    assert n == q * d + n % d;
    if q > k {
      TimesAtLeast(q - k, d);
    } else if q < k {
      TimesAtLeast(k - q, d);
    }
  }

  /** The 32-bit values below n that `RandomIndex` maps to index i. */
  function Preimage(n: nat, upperBound: nat, i: nat): set<nat>
    requires 1 <= upperBound
  {
    set r: nat | r < n && r % upperBound == i
  }

  lemma {:induction false} PreimageSize(k: nat, upperBound: nat, i: nat)
    requires 1 <= upperBound && i < upperBound
    ensures |Preimage(k * upperBound, upperBound, i)| == k
  {
    if k == 0 {
      assert Preimage(0, upperBound, i) == {};
    } else {
      PreimageSize(k - 1, upperBound, i);
      var next := (k - 1) * upperBound + i;
      PreimageStep(k - 1, upperBound, i);
      assert next !in Preimage((k - 1) * upperBound, upperBound, i);
    }
  }

  lemma PreimageStep(k: nat, upperBound: nat, i: nat)
    requires 1 <= upperBound && i < upperBound
    ensures Preimage((k + 1) * upperBound, upperBound, i) ==
            Preimage(k * upperBound, upperBound, i) + {k * upperBound + i}
  {
    assert (k + 1) * upperBound == k * upperBound + upperBound;
    ModOfSum(k, upperBound, i);
    forall r: nat | k * upperBound <= r < k * upperBound + upperBound && r % upperBound == i
      ensures r == k * upperBound + i
    {
      ModOfSum(k, upperBound, r - k * upperBound);
    }
  }

  /** No bias: of the accepted values, equally many lead to each index. */
  lemma Unbiased(upperBound: nat, i: nat)
    requires 1 <= upperBound <= RANDOM_RANGE && i < upperBound
    ensures |Preimage(Limit(upperBound), upperBound, i)| == Limit(upperBound) / upperBound
    ensures Limit(upperBound) / upperBound > 0
  {
    var k := RANDOM_RANGE / upperBound;
    MultipleBelow(RANDOM_RANGE, upperBound);
    ModOfMultiple(k, upperBound);
    PreimageSize(k, upperBound, i);
  }

  /** The system's random numbers: 32-bit draws until one fails. */
  class RandomSource {
    var draws: seq<nat>

    ghost predicate Valid()
      reads this
    {
      forall i :: 0 <= i < |draws| ==> draws[i] < RANDOM_RANGE
    }

    method Draw() returns (ok: bool, random: nat)
      requires Valid()
      modifies this
      ensures Valid() && (ok <==> old(draws) != [])
      ensures ok ==> random == old(draws)[0] && draws == old(draws)[1..]
      ensures !ok ==> draws == old(draws)
    {
      if |draws| == 0 {
        return false, 0;
      }
      ok, random := true, draws[0];
      draws := draws[1..];
    }

    /** `RandomIndex`. */
    method Index(upperBound: nat) returns (index: Option<nat>)
      requires Valid() && 1 <= upperBound <= RANDOM_RANGE
      modifies this
      ensures Valid() && |draws| <= |old(draws)|
      ensures (index, draws) == IndexOf(old(draws), upperBound)
      ensures index.Some? ==> index.value < upperBound
    {
      var limit := Limit(upperBound);
      while true
        invariant Valid() && |draws| <= |old(draws)|
        invariant IndexOf(draws, upperBound) == IndexOf(old(draws), upperBound)
        decreases |draws|
      {
        var ok, random := Draw();
        if !ok {
          return None;
        }
        if random < limit {
          return Some(random % upperBound);
        }
      }
    }
  }

  /** The index of the first accepted draw, and the draws after it. */
  function IndexOf(draws: seq<nat>, upperBound: nat): (Option<nat>, seq<nat>)
    requires 1 <= upperBound <= RANDOM_RANGE
  {
    if draws == [] then (None, draws)
    else if draws[0] < Limit(upperBound) then (Some(draws[0] % upperBound), draws[1..])
    else IndexOf(draws[1..], upperBound)
  }

  /** Draw k is the first that is not rejected, and maps to i. */
  predicate FirstAccepted(draws: seq<nat>, upperBound: nat, k: nat, i: nat)
    requires 1 <= upperBound <= RANDOM_RANGE
  {
    && k < |draws| && draws[k] in Preimage(Limit(upperBound), upperBound, i)
    && forall m :: 0 <= m < k ==> draws[m] >= Limit(upperBound)
  }

  lemma {:induction false} IndexOfFirstAccepted(draws: seq<nat>, upperBound: nat, i: nat)
    requires 1 <= upperBound <= RANDOM_RANGE
    ensures IndexOf(draws, upperBound).0 == Some(i) <==> exists k :: FirstAccepted(draws, upperBound, k, i)
  {
    if draws != [] {
      var rest := draws[1..];
      IndexOfFirstAccepted(rest, upperBound, i);
      if draws[0] < Limit(upperBound) {
        assert FirstAccepted(draws, upperBound, 0, i) <==> draws[0] % upperBound == i;
        assert forall k :: FirstAccepted(draws, upperBound, k, i) ==> k == 0;
      } else {
        if k: nat :| FirstAccepted(rest, upperBound, k, i) {
          assert draws[k + 1] == rest[k];
          assert forall m :: 0 < m < k + 1 ==> draws[m] == rest[m - 1];
          assert FirstAccepted(draws, upperBound, k + 1, i);
        }
        if k: nat :| FirstAccepted(draws, upperBound, k, i) {
          assert k > 0 && rest[k - 1] == draws[k];
          assert forall m :: 0 <= m < k - 1 ==> rest[m] == draws[m + 1];
          assert FirstAccepted(rest, upperBound, k - 1, i);
        }
      }
    }
  }

  // ---- many indices, one after another ----

  predicate Bounds(bounds: seq<nat>) {
    forall k :: 0 <= k < |bounds| ==> 1 <= bounds[k] <= RANDOM_RANGE
  }

  predicate Below(indices: seq<nat>, bounds: seq<nat>) {
    |indices| == |bounds| && forall k :: 0 <= k < |indices| ==> indices[k] < bounds[k]
  }

  /** The indices that successive calls of `RandomIndex` with these bounds give, and the draws left. */
  function Indices(draws: seq<nat>, bounds: seq<nat>): (r: Option<(seq<nat>, seq<nat>)>)
    requires Bounds(bounds)
    ensures r.Some? ==> Below(r.value.0, bounds)
    decreases |bounds|
  {
    if bounds == [] then Some(([], draws))
    else
      IndexBelow(draws, bounds[0]);
      var (index, rest) := IndexOf(draws, bounds[0]);
      if index.None? then None else Prefixed([index.value], Indices(rest, bounds[1..]))
  }

  lemma {:induction false} IndexBelow(draws: seq<nat>, upperBound: nat)
    requires 1 <= upperBound <= RANDOM_RANGE
    ensures IndexOf(draws, upperBound).0.Some? ==> IndexOf(draws, upperBound).0.value < upperBound
  {
    if draws != [] && draws[0] >= Limit(upperBound) {
      IndexBelow(draws[1..], upperBound);
    }
  }

  function Prefixed(first: seq<nat>, r: Option<(seq<nat>, seq<nat>)>): Option<(seq<nat>, seq<nat>)> {
    if r.None? then None else Some((first + r.value.0, r.value.1))
  }

  /** From `start`, the first of the indices are `c`, and `draws` are left. */
  predicate Taken(start: seq<nat>, bounds: seq<nat>, c: seq<nat>, draws: seq<nat>)
    requires Bounds(bounds)
  {
    |c| <= |bounds| && Prefixed(c, Indices(draws, bounds[|c|..])) == Indices(start, bounds)
  }

  lemma NoneTaken(start: seq<nat>, bounds: seq<nat>)
    requires Bounds(bounds)
    ensures Taken(start, bounds, [], start)
  {
    var r := Indices(start, bounds);
    assert bounds[0..] == bounds && (r.Some? ==> [] + r.value.0 == r.value.0);
  }

  /** One more call of `RandomIndex`: it adds its index, or there are not enough draws. */
  lemma OneTaken(start: seq<nat>, bounds: seq<nat>, c: seq<nat>, draws: seq<nat>)
    requires Bounds(bounds) && Taken(start, bounds, c, draws) && |c| < |bounds|
    ensures var (index, rest) := IndexOf(draws, bounds[|c|]);
            if index.None? then Indices(start, bounds).None?
            else index.value < bounds[|c|] && Taken(start, bounds, c + [index.value], rest)
  {
    var left := bounds[|c|..];
    var (index, rest) := IndexOf(draws, bounds[|c|]);
    IndexBelow(draws, bounds[|c|]);
    assert left[0] == bounds[|c|] && left[1..] == bounds[|c| + 1..];
    if index.Some? {
      var r := Indices(rest, left[1..]);
      assert r.Some? ==> c + ([index.value] + r.value.0) == (c + [index.value]) + r.value.0;
    }
  }

  lemma AllTaken(start: seq<nat>, bounds: seq<nat>, c: seq<nat>, draws: seq<nat>)
    requires Bounds(bounds) && Taken(start, bounds, c, draws) && |c| == |bounds|
    ensures Indices(start, bounds) == Some((c, draws))
  {
    assert bounds[|c|..] == [] && c + [] == c;
  }

  /** The sequences of accepted draws that give these indices. */
  function Accepting(bounds: seq<nat>, indices: seq<nat>): set<seq<nat>>
    requires Bounds(bounds) && Below(indices, bounds)
    decreases |bounds|
  {
    if bounds == [] then {[]}
    else Pairs(Preimage(Limit(bounds[0]), bounds[0], indices[0]), Accepting(bounds[1..], indices[1..]))
  }

  function Pairs(firsts: set<nat>, rests: set<seq<nat>>): set<seq<nat>> {
    set first, rest | first in firsts && rest in rests :: [first] + rest
  }

  lemma TimesAtLeastNone(m: nat, n: nat)
    ensures m * n >= 0
  {
  }

  /** How many there are, whatever the indices. */
  function Ways(bounds: seq<nat>): nat
    requires Bounds(bounds)
  {
    if bounds == [] then 1
    else
      var (each, more) := (Limit(bounds[0]) / bounds[0], Ways(bounds[1..]));
      TimesAtLeastNone(each, more);
      each * more
  }

  lemma {:induction false} PairsOfOne(first: nat, rests: set<seq<nat>>)
    ensures |Pairs({first}, rests)| == |rests|
    decreases |rests|
  {
    if rests == {} {
      assert Pairs({first}, rests) == {};
    } else {
      var rest :| rest in rests;
      PairsOfOne(first, rests - {rest});
      forall other | other in rests - {rest}
        ensures [first] + other != [first] + rest
      {
        assert ([first] + other)[1..] == other && ([first] + rest)[1..] == rest;
      }
      assert [first] + rest !in Pairs({first}, rests - {rest});
      OneMorePair(first, rest, rests - {rest});
      assert rests - {rest} + {rest} == rests;
    }
  }

  lemma OneMorePair(first: nat, rest: seq<nat>, rests: set<seq<nat>>)
    ensures Pairs({first}, rests + {rest}) == Pairs({first}, rests) + {[first] + rest}
  {
    assert first in {first} && rest in rests + {rest};
    forall pair | pair in Pairs({first}, rests + {rest})
      ensures pair in Pairs({first}, rests) + {[first] + rest}
    {
      var other :| other in rests + {rest} && pair == [first] + other;
      assert other != rest ==> first in {first} && other in rests;
    }
    forall pair | pair in Pairs({first}, rests)
      ensures pair in Pairs({first}, rests + {rest})
    {
      var other :| other in rests && pair == [first] + other;
      assert first in {first} && other in rests + {rest};
    }
  }

  lemma MoreFirsts(firsts: set<nat>, first: nat, rests: set<seq<nat>>)
    requires first !in firsts
    ensures Pairs(firsts + {first}, rests) == Pairs(firsts, rests) + Pairs({first}, rests)
    ensures Pairs(firsts, rests) !! Pairs({first}, rests)
  {
    forall pair | pair in Pairs(firsts, rests)
      ensures pair !in Pairs({first}, rests)
    {
      assert pair[0] in firsts;
    }
  }

  lemma {:induction false} PairsSize(firsts: set<nat>, rests: set<seq<nat>>)
    ensures |Pairs(firsts, rests)| == |firsts| * |rests|
    decreases |firsts|
  {
    if firsts == {} {
      assert Pairs(firsts, rests) == {};
    } else {
      var first :| first in firsts;
      var others := firsts - {first};
      PairsSize(others, rests);
      PairsOfOne(first, rests);
      MoreFirsts(others, first, rests);
      assert others + {first} == firsts;
      OneMoreRow(|firsts|, |others|, |rests|);
    }
  }

  lemma OneMoreRow(m: nat, n: nat, k: nat)
    requires m == n + 1
    ensures m * k == n * k + k
  {
  }

  /** Every choice of indices comes from equally many sequences of accepted draws. */
  lemma {:induction false} EquallyLikely(bounds: seq<nat>, indices: seq<nat>)
    requires Bounds(bounds) && Below(indices, bounds)
    ensures |Accepting(bounds, indices)| == Ways(bounds)
    decreases |bounds|
  {
    if bounds != [] {
      Unbiased(bounds[0], indices[0]);
      EquallyLikely(bounds[1..], indices[1..]);
      PairsSize(Preimage(Limit(bounds[0]), bounds[0], indices[0]), Accepting(bounds[1..], indices[1..]));
    }
  }

  /** And those draws do give them, whatever draws follow. */
  lemma {:induction false} AcceptedGive(bounds: seq<nat>, indices: seq<nat>, draws: seq<nat>, more: seq<nat>)
    requires Bounds(bounds) && Below(indices, bounds) && draws in Accepting(bounds, indices)
    ensures Indices(draws + more, bounds) == Some((indices, more))
    decreases |bounds|
  {
    if bounds == [] {
      assert draws + more == more;
    } else {
      var first, rest :| first in Preimage(Limit(bounds[0]), bounds[0], indices[0]) &&
                         rest in Accepting(bounds[1..], indices[1..]) && draws == [first] + rest;
      assert (draws + more)[1..] == rest + more;
      AcceptedGive(bounds[1..], indices[1..], rest, more);
      assert [indices[0]] + indices[1..] == indices;
    }
  }

  /** Each index takes at least one draw, and just one when every draw is accepted. */
  lemma {:induction false} DrawsTaken(draws: seq<nat>, bounds: seq<nat>)
    requires Bounds(bounds)
    ensures var r := Indices(draws, bounds); r.Some? ==> |draws| >= |bounds| + |r.value.1|
    decreases |bounds|
  {
    if bounds != [] {
      IndexTakes(draws, bounds[0]);
      DrawsTaken(IndexOf(draws, bounds[0]).1, bounds[1..]);
    }
  }

  lemma {:induction false} IndexTakes(draws: seq<nat>, upperBound: nat)
    requires 1 <= upperBound <= RANDOM_RANGE
    ensures var (index, rest) := IndexOf(draws, upperBound);
            index.Some? ==> |draws| > |rest| && (draws[0] < Limit(upperBound) || |draws| > |rest| + 1)
  {
    if draws != [] && draws[0] >= Limit(upperBound) {
      IndexTakes(draws[1..], upperBound);
    }
  }

  /** Among as many draws as there are bounds, exactly the accepting ones give these indices. */
  lemma {:induction false} AcceptingExactly(bounds: seq<nat>, indices: seq<nat>, draws: seq<nat>)
    requires Bounds(bounds) && Below(indices, bounds) && |draws| == |bounds|
    ensures draws in Accepting(bounds, indices) <==> Indices(draws, bounds) == Some((indices, []))
    decreases |bounds|
  {
    if draws in Accepting(bounds, indices) {
      AcceptedGive(bounds, indices, draws, []);
      assert draws + [] == draws;
    }
    if bounds != [] && Indices(draws, bounds) == Some((indices, [])) {
      var (index, rest) := IndexOf(draws, bounds[0]);
      IndexTakes(draws, bounds[0]);
      DrawsTaken(rest, bounds[1..]);
      var more := Indices(rest, bounds[1..]).value.0;
      assert indices[0] == index.value && indices[1..] == more;
      AcceptingExactly(bounds[1..], indices[1..], rest);
      assert draws == [draws[0]] + rest;
    }
  }

  // ---- the shuffle ----

  /** Choices for the positions from i down: each at most its position. */
  predicate Choices(c: seq<nat>, i: nat) {
    |c| <= i && forall k :: 0 <= k < |c| ==> c[k] <= i - k
  }

  function Swapped<T>(s: seq<T>, i: nat, j: nat): (t: seq<T>)
    requires i < |s| && j < |s|
    ensures |t| == |s|
  {
    s[i := s[j]][j := s[i]]
  }

  lemma SwapKeeps<T>(s: seq<T>, i: nat, j: nat)
    requires i < |s| && j < |s|
    ensures multiset(Swapped(s, i, j)) == multiset(s)
  {
  }

  /** The list after swapping position i, then i - 1, and so on, each with its choice. */
  function Shuffled<T>(s: seq<T>, i: nat, c: seq<nat>): (t: seq<T>)
    requires i < |s| && Choices(c, i)
    ensures |t| == |s|
    decreases |c|
  {
    if c == [] then s else Shuffled(Swapped(s, i, c[0]), i - 1, c[1..])
  }

  lemma {:induction false} ShuffleKeeps<T>(s: seq<T>, i: nat, c: seq<nat>)
    requires i < |s| && Choices(c, i)
    ensures multiset(Shuffled(s, i, c)) == multiset(s)
    decreases |c|
  {
    if c != [] {
      SwapKeeps(s, i, c[0]);
      ShuffleKeeps(Swapped(s, i, c[0]), i - 1, c[1..]);
    }
  }

  /** Positions above i stay as they are. */
  lemma {:induction false} ShuffledAbove<T>(s: seq<T>, i: nat, c: seq<nat>, k: nat)
    requires i < k < |s| && Choices(c, i)
    ensures Shuffled(s, i, c)[k] == s[k]
    decreases |c|
  {
    if c != [] {
      ShuffledAbove(Swapped(s, i, c[0]), i - 1, c[1..], k);
    }
  }

  /** One more turn of the loop. */
  lemma {:induction false} ShuffledMore<T>(s: seq<T>, i: nat, c: seq<nat>, j: nat)
    requires i < |s| && Choices(c, i) && |c| < i && j <= i - |c|
    ensures Choices(c + [j], i) && Shuffled(s, i, c + [j]) == Swapped(Shuffled(s, i, c), i - |c|, j)
    decreases |c|
  {
    if c == [] {
      assert [j][1..] == [] && [] + [j] == [j];
    } else {
      ShuffledMore(Swapped(s, i, c[0]), i - 1, c[1..], j);
      assert (c + [j])[1..] == c[1..] + [j];
    }
  }

  predicate Distinct<T(==)>(s: seq<T>) {
    forall i, j :: 0 <= i < j < |s| ==> s[i] != s[j]
  }

  /** Different choices give different orders. */
  lemma {:induction false} ShuffleInjective<T>(s: seq<T>, i: nat, c: seq<nat>, d: seq<nat>)
    requires i < |s| && Choices(c, i) && Choices(d, i) && |c| == |d| == i
    requires Distinct(s) && Shuffled(s, i, c) == Shuffled(s, i, d)
    ensures c == d
    decreases i
  {
    if i > 0 {
      var (t, u) := (Swapped(s, i, c[0]), Swapped(s, i, d[0]));
      ShuffledAbove(t, i - 1, c[1..], i);
      ShuffledAbove(u, i - 1, d[1..], i);
      assert s[c[0]] == t[i] == u[i] == s[d[0]];
      assert c[0] == d[0];
      ShuffleInjective(t, i - 1, c[1..], d[1..]);
      assert c == [c[0]] + c[1..] && d == [d[0]] + d[1..];
    }
  }

  lemma SplitLast<T>(s: seq<T>, i: nat)
    requires i < |s|
    ensures multiset(s[..i]) == multiset(s[..i + 1]) - multiset{s[i]}
  {
    assert s[..i + 1] == s[..i] + [s[i]];
  }

  lemma SwappedPrefix<T>(s: seq<T>, i: nat, j: nat)
    requires j <= i < |s|
    ensures multiset(Swapped(s, i, j)[..i + 1]) == multiset(s[..i + 1])
    ensures Swapped(s, i, j)[i + 1..] == s[i + 1..]
  {
    assert Swapped(s, i, j)[..i + 1] == Swapped(s[..i + 1], i, j);
    SwapKeeps(s[..i + 1], i, j);
  }

  /** Lists that agree above position i and hold the same elements up to it. */
  predicate Agree<T(==)>(s: seq<T>, p: seq<T>, i: nat) {
    i < |s| == |p| && multiset(s[..i + 1]) == multiset(p[..i + 1]) && s[i + 1..] == p[i + 1..]
  }

  lemma AgreeStep<T>(s: seq<T>, p: seq<T>, i: nat, j: nat)
    requires Agree(s, p, i) && 0 < i && j <= i && s[j] == p[i]
    ensures Agree(Swapped(s, i, j), p, i - 1)
  {
    var t := Swapped(s, i, j);
    SwappedPrefix(s, i, j);
    SplitLast(t, i);
    SplitLast(p, i);
    assert t[i] == p[i];
    assert multiset(t[..i]) == multiset(p[..i]);
    SameTail(t, p, i);
  }

  lemma SameTail<T>(t: seq<T>, p: seq<T>, i: nat)
    requires i < |t| == |p| && t[i] == p[i] && t[i + 1..] == p[i + 1..]
    ensures t[i..] == p[i..]
  {
    assert t[i..] == [t[i]] + t[i + 1..] && p[i..] == [p[i]] + p[i + 1..];
  }

  lemma AgreeChoice<T>(s: seq<T>, p: seq<T>, i: nat) returns (j: nat)
    requires Agree(s, p, i)
    ensures j <= i && s[j] == p[i]
  {
    assert p[..i + 1][i] in multiset(s[..i + 1]);
    j :| 0 <= j < |s[..i + 1]| && s[..i + 1][j] == p[i];
  }

  /** Every order is reached. */
  lemma {:induction false} ShuffleSurjective<T>(s: seq<T>, p: seq<T>, i: nat) returns (c: seq<nat>)
    requires Agree(s, p, i)
    ensures |c| == i && Choices(c, i) && Shuffled(s, i, c) == p
    decreases i
  {
    var j := AgreeChoice(s, p, i);
    if i == 0 {
      c := [];
      assert s == [s[0]] + s[1..] && p == [p[0]] + p[1..];
    } else {
      AgreeStep(s, p, i, j);
      var more := ShuffleSurjective(Swapped(s, i, j), p, i - 1);
      c := [j] + more;
      assert c[1..] == more;
    }
  }

  /** These choices for every position but the first turn one list into the other. */
  predicate Reaches<T(==)>(s: seq<T>, c: seq<nat>, p: seq<T>) {
    |c| + 1 == |s| && Choices(c, |c|) && Shuffled(s, |c|, c) == p
  }

  /** Each order of distinct elements comes from exactly one sequence of choices; with choices drawn
      without bias, each order is as likely as any other. */
  lemma ShuffleBijective<T>(s: seq<T>, p: seq<T>)
    requires |s| > 0 && Distinct(s) && multiset(s) == multiset(p)
    ensures exists c :: Reaches(s, c, p) && forall d :: Reaches(s, d, p) ==> d == c
  {
    var last := |s| - 1;
    assert |s| == |multiset(s)| == |multiset(p)| == |p|;
    assert s[..last + 1] == s && p[..last + 1] == p;
    var c := ShuffleSurjective(s, p, last);
    assert Reaches(s, c, p);
    forall d | Reaches(s, d, p)
      ensures d == c
    {
      ShuffleInjective(s, last, c, d);
    }
  }

  /** The bounds of the swap loop from position i down. */
  function SwapBounds(i: nat): (bounds: seq<nat>)
    requires i < RANDOM_RANGE
    ensures |bounds| == i && Bounds(bounds) && forall k :: 0 <= k < i ==> bounds[k] == i + 1 - k
  {
    seq(i, k requires 0 <= k < i => i + 1 - k)
  }

  lemma BelowSwapBounds(c: seq<nat>, i: nat)
    requires i < RANDOM_RANGE
    ensures Below(c, SwapBounds(i)) <==> |c| == i && Choices(c, i)
  {
  }

  /** The list once all positions above `index` had their swap, with the choices c. */
  predicate Turned(was: Wide, now: Wide, index: nat, c: seq<nat>) {
    index + |c| + 1 == |was| && Choices(c, |was| - 1) && now == Shuffled(was, |was| - 1, c)
  }

  lemma TurnedMore(was: Wide, now: Wide, index: nat, c: seq<nat>, j: nat)
    requires Turned(was, now, index, c) && j <= index && 0 < index
    ensures index < |now| && Turned(was, Swapped(now, index, j), index - 1, c + [j])
  {
    ShuffledMore(was, |was| - 1, c, j);
  }

  method Swap(a: array<Unit>, i: nat, j: nat)
    requires i < a.Length && j < a.Length
    modifies a
    ensures a[..] == Swapped(old(a[..]), i, j)
  {
    a[i], a[j] := a[j], a[i];
  }

  /** The swap loop, in place, with the indices that the draws give. */
  method Shuffle(a: array<Unit>, source: RandomSource) returns (ok: bool, ghost c: seq<nat>)
    requires source.Valid() && 0 < a.Length <= RANDOM_RANGE
    modifies a, source
    ensures source.Valid() && Choices(c, a.Length - 1) && a[..] == Shuffled(old(a[..]), a.Length - 1, c)
    ensures Indices(old(source.draws), SwapBounds(a.Length - 1)) == if ok then Some((c, source.draws)) else None
    ensures ok ==> |c| == a.Length - 1
  {
    ghost var was := a[..];
    c := [];
    NoneTaken(source.draws, SwapBounds(a.Length - 1));
    var index := a.Length - 1;
    while index > 0
      invariant 0 <= index < a.Length && source.Valid() && Turned(was, a[..], index, c)
      invariant Taken(old(source.draws), SwapBounds(a.Length - 1), c, source.draws)
    {
      ok, c := SwapAt(a, index, source, old(source.draws), was, c);
      if !ok {
        return false, c;
      }
      index := index - 1;
    }
    AllTaken(old(source.draws), SwapBounds(a.Length - 1), c, source.draws);
    ok := true;
  }

  /** One turn of the swap loop. */
  method SwapAt(
    a: array<Unit>, index: nat, source: RandomSource, ghost start: seq<nat>, ghost was: Wide, ghost c: seq<nat>)
    returns (ok: bool, ghost more: seq<nat>)
    requires source.Valid() && 0 < index < a.Length <= RANDOM_RANGE
    requires Turned(was, a[..], index, c) && Taken(start, SwapBounds(a.Length - 1), c, source.draws)
    modifies a, source
    ensures source.Valid()
    ensures if ok then Turned(was, a[..], index - 1, more) && Taken(start, SwapBounds(a.Length - 1), more, source.draws)
            else more == c && a[..] == old(a[..]) && Indices(start, SwapBounds(a.Length - 1)).None?
  {
    OneTaken(start, SwapBounds(a.Length - 1), c, source.draws);
    var swapIndex := source.Index(index + 1);
    if swapIndex.None? {
      return false, c;
    }
    TurnedMore(was, a[..], index, c, swapIndex.value);
    Swap(a, index, swapIndex.value);
    return true, c + [swapIndex.value];
  }

  // ---- the password ----

  predicate Among(c: Unit, alphabet: Wide) {
    c in alphabet
  }

  predicate HasOneOf(password: Wide, alphabet: Wide) {
    exists i :: 0 <= i < |password| && Among(password[i], alphabet)
  }

  /** Of full length, from the allowed characters only, with one of each class. */
  predicate Strong(password: Wide) {
    && |password| == PASSWORD_LENGTH
    && (forall i :: 0 <= i < |password| ==> Among(password[i], ALLOWED))
    && HasOneOf(password, UPPERCASE) && HasOneOf(password, LOWERCASE) && HasOneOf(password, DIGITS)
    && HasOneOf(password, SYMBOLS)
  }

  lemma PermutedHasOneOf(s: Wide, t: Wide, alphabet: Wide)
    requires multiset(s) == multiset(t) && HasOneOf(s, alphabet)
    ensures HasOneOf(t, alphabet)
  {
    var i :| 0 <= i < |s| && Among(s[i], alphabet);
    assert s[i] in multiset(t);
  }

  /** An order of a strong password is strong. */
  lemma PermutedStrong(s: Wide, t: Wide)
    requires multiset(s) == multiset(t) && Strong(s)
    ensures Strong(t)
  {
    assert |s| == |multiset(s)| == |multiset(t)| == |t|;
    PermutedHasOneOf(s, t, UPPERCASE);
    PermutedHasOneOf(s, t, LOWERCASE);
    PermutedHasOneOf(s, t, DIGITS);
    PermutedHasOneOf(s, t, SYMBOLS);
    forall i | 0 <= i < |t|
      ensures Among(t[i], ALLOWED)
    {
      assert t[i] in multiset(s);
    }
  }

  method SelectCharacter(alphabet: Wide, source: RandomSource) returns (character: Option<Unit>)
    requires source.Valid() && 0 < |alphabet| <= RANDOM_RANGE
    modifies source
    ensures source.Valid() && (character.Some? ==> Among(character.value, alphabet))
    ensures var (index, rest) := IndexOf(old(source.draws), |alphabet|);
            source.draws == rest && (character.None? <==> index.None?) &&
            (index.Some? ==> index.value < |alphabet| && character == Some(alphabet[index.value]))
  {
    var index := source.Index(|alphabet|);
    if index.None? {
      return None;
    }
    return Some(alphabet[index.value]);
  }

  /** The class a position is drawn from before the shuffle. */
  function AlphabetOf(index: nat): Wide {
    if index == 0 then UPPERCASE
    else if index == 1 then LOWERCASE
    else if index == 2 then DIGITS
    else if index == 3 then SYMBOLS
    else ALLOWED
  }

  lemma AlphabetAllowed(index: nat, c: Unit)
    requires Among(c, AlphabetOf(index))
    ensures Among(c, ALLOWED)
  {
  }

  predicate Drawn(s: Wide) {
    forall i :: 0 <= i < |s| ==> Among(s[i], AlphabetOf(i))
  }

  lemma DrawnStrong(s: Wide)
    requires |s| == PASSWORD_LENGTH && Drawn(s)
    ensures Strong(s)
  {
    assert Among(s[0], AlphabetOf(0)) && Among(s[1], AlphabetOf(1));
    assert Among(s[2], AlphabetOf(2)) && Among(s[3], AlphabetOf(3));
    forall i | 0 <= i < |s|
      ensures Among(s[i], ALLOWED)
    {
      AlphabetAllowed(i, s[i]);
    }
  }

  predicate Alphabets(alphabets: seq<Wide>) {
    forall k :: 0 <= k < |alphabets| ==> 0 < |alphabets[k]| <= RANDOM_RANGE
  }

  /** The alphabets of the positions. */
  function PasswordAlphabets(): (alphabets: seq<Wide>)
    ensures |alphabets| == PASSWORD_LENGTH && Alphabets(alphabets)
    ensures forall k :: 0 <= k < |alphabets| ==> alphabets[k] == AlphabetOf(k)
  {
    seq(PASSWORD_LENGTH, k requires 0 <= k < PASSWORD_LENGTH => AlphabetOf(k))
  }

  function Sizes(alphabets: seq<Wide>): (bounds: seq<nat>)
    requires Alphabets(alphabets)
    ensures |bounds| == |alphabets| && Bounds(bounds)
    ensures forall k :: 0 <= k < |bounds| ==> bounds[k] == |alphabets[k]|
  {
    seq(|alphabets|, k requires 0 <= k < |alphabets| => |alphabets[k]|)
  }

  /** The bounds of the characters' indices. */
  function CharacterBounds(): (bounds: seq<nat>)
    ensures |bounds| == PASSWORD_LENGTH && Bounds(bounds)
  {
    Sizes(PasswordAlphabets())
  }

  /** The characters at these indices of their alphabets. */
  function Selected(alphabets: seq<Wide>, indices: seq<nat>): (s: Wide)
    requires Alphabets(alphabets) && Below(indices, Sizes(alphabets))
    ensures |s| == |alphabets|
    ensures forall k :: 0 <= k < |s| ==> s[k] == alphabets[k][indices[k]]
  {
    seq(|alphabets|, k requires 0 <= k < |alphabets| => alphabets[k][indices[k]])
  }

  /** The password that a choice of characters and a choice of swaps make. */
  function PasswordAt(characters: seq<nat>, swaps: seq<nat>): (password: Wide)
    requires Below(characters, CharacterBounds()) && Below(swaps, SwapBounds(PASSWORD_LENGTH - 1))
  {
    BelowSwapBounds(swaps, PASSWORD_LENGTH - 1);
    Shuffled(Selected(PasswordAlphabets(), characters), PASSWORD_LENGTH - 1, swaps)
  }

  /** The password that the draws make, if they suffice. */
  function PasswordOf(draws: seq<nat>): Option<Wide> {
    var characters := Indices(draws, CharacterBounds());
    if characters.None? then None
    else
      var swaps := Indices(characters.value.1, SwapBounds(PASSWORD_LENGTH - 1));
      if swaps.None? then None else Some(PasswordAt(characters.value.0, swaps.value.0))
  }

  lemma SelectedStrong(characters: seq<nat>)
    requires Below(characters, CharacterBounds())
    ensures Strong(Selected(PasswordAlphabets(), characters))
  {
    var (alphabets, s) := (PasswordAlphabets(), Selected(PasswordAlphabets(), characters));
    forall k | 0 <= k < |s|
      ensures Among(s[k], AlphabetOf(k))
    {
      assert s[k] == alphabets[k][characters[k]];
    }
    DrawnStrong(s);
  }

  /** Whatever the choices, the password is strong: it is an order of the selected characters. */
  lemma PasswordIsStrong(characters: seq<nat>, swaps: seq<nat>)
    requires Below(characters, CharacterBounds()) && Below(swaps, SwapBounds(PASSWORD_LENGTH - 1))
    ensures multiset(PasswordAt(characters, swaps)) == multiset(Selected(PasswordAlphabets(), characters))
    ensures Strong(PasswordAt(characters, swaps))
  {
    BelowSwapBounds(swaps, PASSWORD_LENGTH - 1);
    SelectedStrong(characters);
    ShuffleKeeps(Selected(PasswordAlphabets(), characters), PASSWORD_LENGTH - 1, swaps);
    PermutedStrong(Selected(PasswordAlphabets(), characters), PasswordAt(characters, swaps));
  }

  /** Every choice of characters and of swaps, and so every order of them, is made by equally many sequences
      of accepted draws, and by each of those. */
  lemma NoChoiceIsFavoured(characters: seq<nat>, swaps: seq<nat>)
    requires Below(characters, CharacterBounds()) && Below(swaps, SwapBounds(PASSWORD_LENGTH - 1))
    ensures |Accepting(CharacterBounds(), characters)| == Ways(CharacterBounds())
    ensures |Accepting(SwapBounds(PASSWORD_LENGTH - 1), swaps)| == Ways(SwapBounds(PASSWORD_LENGTH - 1))
    ensures forall a, b :: a in Accepting(CharacterBounds(), characters) &&
                           b in Accepting(SwapBounds(PASSWORD_LENGTH - 1), swaps) ==>
                             PasswordOf(a + b) == Some(PasswordAt(characters, swaps))
  {
    EquallyLikely(CharacterBounds(), characters);
    EquallyLikely(SwapBounds(PASSWORD_LENGTH - 1), swaps);
    forall a, b | a in Accepting(CharacterBounds(), characters) &&
                  b in Accepting(SwapBounds(PASSWORD_LENGTH - 1), swaps)
      ensures PasswordOf(a + b) == Some(PasswordAt(characters, swaps))
    {
      AcceptedGive(CharacterBounds(), characters, a, b);
      AcceptedGive(SwapBounds(PASSWORD_LENGTH - 1), swaps, b, []);
      assert b + [] == b;
    }
  }

  /** `generated` holds the characters at these indices so far. */
  predicate Filled(alphabets: seq<Wide>, generated: Wide, indices: seq<nat>) {
    && |indices| <= |generated| == |alphabets|
    && forall k :: 0 <= k < |indices| ==>
         indices[k] < |alphabets[k]| && generated[k] == alphabets[k][indices[k]]
  }

  lemma FilledMore(alphabets: seq<Wide>, generated: Wide, indices: seq<nat>, index: nat)
    requires Filled(alphabets, generated, indices) && |indices| < |alphabets| && index < |alphabets[|indices|]|
    ensures Filled(alphabets, generated[|indices| := alphabets[|indices|][index]], indices + [index])
  {
  }

  lemma FilledAll(alphabets: seq<Wide>, generated: Wide, indices: seq<nat>)
    requires Alphabets(alphabets) && Filled(alphabets, generated, indices) && |indices| == |alphabets|
    ensures Below(indices, Sizes(alphabets)) && generated == Selected(alphabets, indices)
  {
  }

  method GenerateBrokerPassword(source: RandomSource) returns (password: Option<Wide>)
    requires source.Valid()
    modifies source
    ensures source.Valid() && password == PasswordOf(old(source.draws))
    ensures password.Some? ==> Strong(password.value)
  {
    var generated := new Unit[PASSWORD_LENGTH];
    var ok;
    ghost var characters, swaps;
    ok, characters := SelectCharacters(generated, source);
    if !ok {
      return None;
    }
    ok, swaps := Shuffle(generated, source);
    if !ok {
      return None;
    }
    PasswordIsStrong(characters, swaps);
    return Some(generated[..]);
  }

  /** The two fill loops: a character of each class, then any. */
  method SelectCharacters(generated: array<Unit>, source: RandomSource) returns (ok: bool, ghost characters: seq<nat>)
    requires source.Valid() && generated.Length == PASSWORD_LENGTH
    modifies generated, source
    ensures source.Valid()
    ensures Indices(old(source.draws), CharacterBounds()) == if ok then Some((characters, source.draws)) else None
    ensures ok ==> generated[..] == Selected(PasswordAlphabets(), characters)
  {
    ghost var alphabets := PasswordAlphabets();
    var requiredClasses := [UPPERCASE, LOWERCASE, DIGITS, SYMBOLS];
    characters := [];
    NoneTaken(source.draws, Sizes(alphabets));
    for index := 0 to |requiredClasses|
      invariant source.Valid() && |characters| == index && Filled(alphabets, generated[..], characters)
      invariant Taken(old(source.draws), Sizes(alphabets), characters, source.draws)
    {
      ok, characters := SelectAt(
        requiredClasses[index], generated, index, source, old(source.draws), alphabets, characters);
      if !ok {
        return false, characters;
      }
    }
    for index := |requiredClasses| to generated.Length
      invariant source.Valid() && |characters| == index && Filled(alphabets, generated[..], characters)
      invariant Taken(old(source.draws), Sizes(alphabets), characters, source.draws)
    {
      ok, characters := SelectAt(ALLOWED, generated, index, source, old(source.draws), alphabets, characters);
      if !ok {
        return false, characters;
      }
    }
    AllTaken(old(source.draws), Sizes(alphabets), characters, source.draws);
    FilledAll(alphabets, generated[..], characters);
    ok := true;
  }

  /** One turn of either fill loop. */
  method SelectAt(
    alphabet: Wide, generated: array<Unit>, index: nat, source: RandomSource,
    ghost start: seq<nat>, ghost alphabets: seq<Wide>, ghost characters: seq<nat>)
    returns (ok: bool, ghost more: seq<nat>)
    requires source.Valid() && |characters| == index < generated.Length && Alphabets(alphabets)
    requires Filled(alphabets, generated[..], characters) && alphabet == alphabets[index]
    requires Taken(start, Sizes(alphabets), characters, source.draws)
    modifies generated, source
    ensures source.Valid()
    ensures if ok then
              |more| == index + 1 && Filled(alphabets, generated[..], more) &&
              Taken(start, Sizes(alphabets), more, source.draws)
            else Indices(start, Sizes(alphabets)).None?
  {
    ghost var before := generated[..];
    ghost var choice := IndexOf(source.draws, |alphabet|).0;
    OneTaken(start, Sizes(alphabets), characters, source.draws);
    var character := SelectCharacter(alphabet, source);
    if character.None? {
      return false, characters;
    }
    FilledMore(alphabets, before, characters, choice.value);
    generated[index] := character.value;
    assert generated[..] == before[index := character.value];
    return true, characters + [choice.value];
  }
}
