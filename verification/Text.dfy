/** UTF-16 text as the broker stores it (`std::wstring`), raw bytes, and the code-unit order that
    `std::map<std::wstring, ...>` and `std::ranges::sort` use. */
module Text {

  type Unit = x: int | 0 <= x <= 0xFFFF
  type Byte = x: int | 0 <= x <= 0xFF
  type Wide = seq<Unit>
  type Bytes = seq<Byte>

  const BACKSLASH: Unit := 0x5C

  /** The wide-string literal with these ASCII characters. */
  function Lit(s: string): (w: Wide)
    requires forall i :: 0 <= i < |s| ==> s[i] < 128 as char
    ensures |w| == |s|
    ensures forall i :: 0 <= i < |s| ==> w[i] == s[i] as int
  {
    seq(|s|, i requires 0 <= i < |s| => s[i] as int)
  }

  predicate StartsWith(s: Wide, prefix: Wide) {
    |prefix| <= |s| && s[..|prefix|] == prefix
  }

  /** Lexicographic comparison of code units, the order of `std::wstring`. */
  predicate Less(a: Wide, b: Wide) {
    if |b| == 0 then false
    else if |a| == 0 then true
    else a[0] < b[0] || (a[0] == b[0] && Less(a[1..], b[1..]))
  }

  lemma {:induction false} LessIrreflexive(a: Wide)
    ensures !Less(a, a)
  {
    if |a| > 0 {
      LessIrreflexive(a[1..]);
    }
  }

  lemma {:induction false} LessTransitive(a: Wide, b: Wide, c: Wide)
    requires Less(a, b) && Less(b, c)
    ensures Less(a, c)
  {
    if |a| > 0 && a[0] == b[0] == c[0] {
      LessTransitive(a[1..], b[1..], c[1..]);
    }
  }

  lemma {:induction false} LessTotal(a: Wide, b: Wide)
    ensures Less(a, b) || a == b || Less(b, a)
  {
    if |a| > 0 && |b| > 0 && a[0] == b[0] {
      LessTotal(a[1..], b[1..]);
      assert a == [a[0]] + a[1..] && b == [b[0]] + b[1..];
    }
  }

  /** A string sorts strictly before every proper extension of it. */
  lemma {:induction false} PrefixIsLess(a: Wide, b: Wide)
    requires StartsWith(b, a) && a != b
    ensures Less(a, b)
  {
    if |a| > 0 {
      assert b[0] == b[..|a|][0];
      assert StartsWith(b[1..], a[1..]) by {
        assert b[1..][..|a| - 1] == b[..|a|][1..];
      }
      PrefixIsLess(a[1..], b[1..]);
    } else {
      assert |b| > 0;
    }
  }

  /** Extensions of one prefix are contiguous in the order: what sorts between the prefix and
      one of its extensions extends it too. */
  lemma {:induction false} PrefixBlockContiguous(prefix: Wide, mid: Wide, last: Wide)
    requires !Less(mid, prefix) && Less(mid, last) && StartsWith(last, prefix)
    ensures StartsWith(mid, prefix)
  {
    if |prefix| > 0 {
      assert |mid| > 0;
      assert last[0] == last[..|prefix|][0];
      assert mid[0] == prefix[0] == last[0];
      assert last[1..][..|prefix| - 1] == last[..|prefix|][1..];
      PrefixBlockContiguous(prefix[1..], mid[1..], last[1..]);
      assert mid[..|prefix|] == [mid[0]] + mid[1..][..|prefix| - 1];
      assert prefix == [prefix[0]] + prefix[1..];
    }
  }
}
