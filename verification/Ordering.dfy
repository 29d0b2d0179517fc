/** String order and separators, and sorting by a comparison. */
module Ordering {

  /** The bytewise order of strings. */
  predicate StringLe(a: string, b: string) {
    a == [] || (b != [] && (a[0] < b[0] || (a[0] == b[0] && StringLe(a[1..], b[1..]))))
  }

  /** Where two strings first differ, one has the smaller character or ends. */
  predicate FirstDifference(a: string, b: string, k: nat) {
    && k <= |a| && k <= |b| && a[..k] == b[..k]
    && if k == |a| then k < |b| else k < |b| && a[k] < b[k]
  }

  ghost predicate ComesBefore(a: string, b: string) {
    exists k: nat :: FirstDifference(a, b, k)
  }

  /** The order by its first difference. */
  lemma {:induction false} StringLeIff(a: string, b: string)
    ensures StringLe(a, b) <==> a == b || ComesBefore(a, b)
    ensures StringLe(a, b) && a != b <==> ComesBefore(a, b)
    decreases |a|
  {
    if a == [] {
      assert b != [] ==> FirstDifference(a, b, 0);
    } else if b != [] {
      if a[0] == b[0] {
        assert a == [a[0]] + a[1..] && b == [b[0]] + b[1..];
        StringLeIff(a[1..], b[1..]);
        TailDifference(a, b);
      } else {
        assert a[0] < b[0] ==> FirstDifference(a, b, 0);
        assert forall k: nat | 0 < k && k <= |a| && k <= |b| :: a[..k][0] != b[..k][0];
      }
    }
  }

  lemma TailDifference(a: string, b: string)
    requires a != [] && b != [] && a[0] == b[0]
    ensures ComesBefore(a, b) <==> ComesBefore(a[1..], b[1..])
  {
    if k: nat :| FirstDifference(a, b, k) {
      assert k > 0 && a[1..][..k - 1] == a[..k][1..] && b[1..][..k - 1] == b[..k][1..];
      assert FirstDifference(a[1..], b[1..], k - 1);
    }
    if k: nat :| FirstDifference(a[1..], b[1..], k) {
      assert a[..k + 1] == [a[0]] + a[1..][..k] && b[..k + 1] == [b[0]] + b[1..][..k];
      assert FirstDifference(a, b, k + 1);
    }
  }

  lemma {:induction false} StringLeTotal(a: string, b: string)
    ensures StringLe(a, b) || StringLe(b, a)
    ensures StringLe(a, b) && StringLe(b, a) ==> a == b
    ensures StringLe(a, a)
    decreases |a|
  {
    if a != [] {
      StringLeTotal(a[1..], if b == [] then b else b[1..]);
      if b != [] && a[0] == b[0] {
        assert a == [a[0]] + a[1..] && b == [b[0]] + b[1..];
      }
    }
  }

  lemma {:induction false} StringLeTransitive(a: string, b: string, c: string)
    requires StringLe(a, b) && StringLe(b, c)
    ensures StringLe(a, c)
    decreases |a|
  {
    if a != [] && a[0] == b[0] == c[0] {
      StringLeTransitive(a[1..], b[1..], c[1..]);
    }
  }

  ghost predicate TotalPreorder<T(!new)>(le: (T, T) -> bool) {
    && (forall a, b :: le(a, b) || le(b, a))
    && (forall a, b, c :: le(a, b) && le(b, c) ==> le(a, c))
  }

  ghost predicate SortedBy<T>(le: (T, T) -> bool, xs: seq<T>) {
    forall i, j :: 0 <= i < j < |xs| ==> le(xs[i], xs[j])
  }

  lemma StringLeIsPreorder()
    ensures TotalPreorder(StringLe)
  {
    forall a, b
      ensures StringLe(a, b) || StringLe(b, a)
    {
      StringLeTotal(a, b);
    }
    forall a, b, c | StringLe(a, b) && StringLe(b, c)
      ensures StringLe(a, c)
    {
      StringLeTransitive(a, b, c);
    }
  }

  method Insert<T(!new)>(ys: seq<T>, x: T, le: (T, T) -> bool) returns (zs: seq<T>)
    requires TotalPreorder(le) && SortedBy(le, ys)
    ensures SortedBy(le, zs) && multiset(zs) == multiset(ys) + multiset{x}
  {
    var j := |ys|;
    while j > 0 && !le(ys[j - 1], x)
      invariant 0 <= j <= |ys|
      invariant forall k :: j <= k < |ys| ==> !le(ys[k], x)
    {
      j := j - 1;
    }
    InsertSorted(le, ys, x, j);
    assert ys == ys[..j] + ys[j..];
    zs := ys[..j] + [x] + ys[j..];
  }

  /** Any sort of the library: some ordering of the same elements that respects `le`. */
  method Sort<T(!new)>(xs: seq<T>, le: (T, T) -> bool) returns (ys: seq<T>)
    requires TotalPreorder(le)
    ensures SortedBy(le, ys) && multiset(ys) == multiset(xs)
  {
    ys := [];
    var i := 0;
    while i < |xs|
      invariant 0 <= i <= |xs|
      invariant SortedBy(le, ys) && multiset(ys) == multiset(xs[..i])
    {
      ys := Insert(ys, xs[i], le);
      assert xs[..i + 1] == xs[..i] + [xs[i]];
      i := i + 1;
    }
    assert xs[..i] == xs;
  }

  lemma InsertSorted<T(!new)>(le: (T, T) -> bool, ys: seq<T>, x: T, j: nat)
    requires TotalPreorder(le) && SortedBy(le, ys) && j <= |ys|
    requires j > 0 ==> le(ys[j - 1], x)
    requires forall k :: j <= k < |ys| ==> !le(ys[k], x)
    ensures SortedBy(le, ys[..j] + [x] + ys[j..])
  {
    var zs := ys[..j] + [x] + ys[j..];
    forall a, b | 0 <= a < b < |zs|
      ensures le(zs[a], zs[b])
    {
      if b == j {
        assert le(ys[a], ys[j - 1]) || a == j - 1;
      } else if a == j {
        assert !le(ys[b - 1], x);
      }
    }
  }

  /** Where equal-ranked elements are equal, sorting has only one result. */
  lemma {:induction false} SortedIsUnique<T(!new)>(le: (T, T) -> bool, xs: seq<T>, ys: seq<T>)
    requires SortedBy(le, xs) && SortedBy(le, ys) && multiset(xs) == multiset(ys)
    requires forall a, b :: a in xs && b in xs && le(a, b) && le(b, a) ==> a == b
    ensures xs == ys
    decreases |xs|
  {
    assert |xs| == |multiset(xs)| == |multiset(ys)| == |ys|;
    if xs != [] {
      LeastsAgree(le, xs, ys);
      assert xs == [xs[0]] + xs[1..] && ys == [ys[0]] + ys[1..];
      assert multiset(xs[1..]) == multiset(xs) - multiset{xs[0]};
      assert multiset(ys[1..]) == multiset(ys) - multiset{ys[0]};
      SortedIsUnique(le, xs[1..], ys[1..]);
    }
  }

  lemma LeastsAgree<T(!new)>(le: (T, T) -> bool, xs: seq<T>, ys: seq<T>)
    requires xs != [] && ys != []
    requires SortedBy(le, xs) && SortedBy(le, ys) && multiset(xs) == multiset(ys)
    requires forall a, b :: a in xs && b in xs && le(a, b) && le(b, a) ==> a == b
    ensures xs[0] == ys[0]
  {
    assert xs[0] in multiset(ys) && ys[0] in multiset(xs);
    var i :| 0 <= i < |ys| && ys[i] == xs[0];
    var j :| 0 <= j < |xs| && xs[j] == ys[0];
  }

  predicate EndsWith(s: string, suffix: string) {
    |s| >= |suffix| && s[|s| - |suffix|..] == suffix
  }

  /** A string splits in one way at the last occurrence of a separator. */
  lemma {:induction false} SplitsOnce(a: string, b: string, a': string, b': string, separator: char)
    requires a + [separator] + b == a' + [separator] + b'
    requires separator !in b && separator !in b'
    ensures a == a' && b == b'
  {
    var s := a + [separator] + b;
    assert s[|a|] == separator && s[|a'|] == separator;
    assert forall i :: |a| < i < |s| ==> s[i] == b[i - |a| - 1];
    assert forall i :: |a'| < i < |s| ==> s[i] == b'[i - |a'| - 1];
    assert |a| == |a'|;
    assert a == s[..|a|] && b == s[|a| + 1..];
  }

  // ---------------------------------------------------------------- names joined by a hyphen

  /** `b` and `d` end alike, and `a` and `c` make up for the difference. */
  ghost predicate Overlap(a: string, b: string, c: string, d: string) {
    exists mid: string :: d == mid + "-" + b && a == c + "-" + mid
  }

  /** When two pairs of names join to the same string. */
  lemma JoinsCollideIff(a: string, b: string, c: string, d: string)
    ensures a + "-" + b == c + "-" + d <==> (a == c && b == d) || Overlap(a, b, c, d) || Overlap(c, d, a, b)
  {
    if a + "-" + b == c + "-" + d {
      if |b| == |d| {
        SameTail(a, b, c, d);
      } else if |b| < |d| {
        LongerTail(a, b, c, d);
      } else {
        LongerTail(c, d, a, b);
      }
    }
    if Overlap(a, b, c, d) {
      OverlapCollides(a, b, c, d);
    }
    if Overlap(c, d, a, b) {
      OverlapCollides(c, d, a, b);
    }
  }

  lemma SameTail(a: string, b: string, c: string, d: string)
    requires a + "-" + b == c + "-" + d && |b| == |d|
    ensures a == c && b == d
  {
    var k := a + "-" + b;
    assert a == k[..|a|] && b == k[|a| + 1..];
    assert |a| == |c|;
    assert c == k[..|c|] && d == k[|c| + 1..];
  }

  lemma LongerTail(a: string, b: string, c: string, d: string)
    requires a + "-" + b == c + "-" + d && |b| < |d|
    ensures Overlap(a, b, c, d)
  {
    var k := a + "-" + b;
    assert |a| > |c|;
    assert a == k[..|a|] && b == k[|a| + 1..];
    assert c == k[..|c|] && d == k[|c| + 1..];
    assert k[|c|] == '-' && k[|a|] == '-';
    var mid := k[|c| + 1..|a|];
    assert d == mid + "-" + b;
    assert a == c + "-" + mid;
  }

  lemma OverlapCollides(a: string, b: string, c: string, d: string)
    requires Overlap(a, b, c, d)
    ensures a + "-" + b == c + "-" + d
  {
    var mid: string :| d == mid + "-" + b && a == c + "-" + mid;
    assert a + "-" + b == c + "-" + (mid + "-" + b);
  }
}
