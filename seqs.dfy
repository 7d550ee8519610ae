/** Sequence operations the source takes from ramda (`uniq`, `countBy`,
    `sort`, `splitEvery`, `difference`, `indexOf`), written as Dafny
    functions, with the facts about them that the rest of the model uses. */
module Seqs {

  predicate Distinct<T(==,!new)>(s: seq<T>) {
    forall i, j :: 0 <= i < j < |s| ==> s[i] != s[j]
  }

  /** A second update at the same position replaces the first. */
  lemma UpdateAgain<T>(s: seq<T>, i: nat, x: T, y: T)
    requires i < |s|
    ensures s[i := x][i := y] == s[i := y]
  {
  }

  /** Updating the last element of `s + [x]` gives `s + [y]`. */
  lemma UpdateLast<T>(s: seq<T>, x: T, y: T)
    ensures (s + [x])[|s| := y] == s + [y]
  {
  }

  lemma DistinctAt<T(!new)>(s: seq<T>, a: nat, b: nat)
    requires Distinct(s) && a < |s| && b < |s| && a != b
    ensures s[a] != s[b]
  {
    if b < a {
      assert s[b] != s[a];
    }
  }

  /** ramda `uniq`: the first occurrence of every element, in order. */
  function Uniq<T(==,!new)>(s: seq<T>): (u: seq<T>)
    ensures forall x :: x in u <==> x in s
    ensures Distinct(u)
    ensures |u| <= |s|
  {
    if s == [] then []
    else
      var init := s[..|s| - 1];
      assert s == init + [s[|s| - 1]];
      var u0 := Uniq(init);
      if s[|s| - 1] in u0 then u0 else u0 + [s[|s| - 1]]
  }

  /** How often `x` occurs in `s` (ramda `countBy(identity)` at key `x`). */
  function Count<T(==,!new)>(s: seq<T>, x: T): nat {
    multiset(s)[x]
  }

  /** `Array.prototype.indexOf`: the first position of `x`, or -1. */
  function IndexOf<T(==,!new)>(s: seq<T>, x: T): (r: int)
    ensures -1 <= r < |s|
    ensures r == -1 <==> x !in s
    ensures r >= 0 ==> s[r] == x && x !in s[..r]
  {
    if s == [] then -1
    else if s[0] == x then 0
    else
      var r0 := IndexOf(s[1..], x);
      assert s[1..][..if r0 < 0 then 0 else r0] == s[1..1 + if r0 < 0 then 0 else r0];
      if r0 == -1 then -1 else 1 + r0
  }

  /** `filter(x => !includes(x, drop))`, and ramda `difference` on a list
      without repeated elements. */
  function Without<T(==,!new)>(s: seq<T>, drop: seq<T>): (r: seq<T>)
    ensures forall x :: x in r <==> x in s && x !in drop
    ensures forall x :: Count(r, x) == if x in drop then 0 else Count(s, x)
    ensures |r| <= |s|
  {
    if s == [] then []
    else
      assert s == [s[0]] + s[1..];
      (if s[0] in drop then [] else [s[0]]) + Without(s[1..], drop)
  }

  /** Filtering out what does not occur changes nothing. */
  lemma {:induction false} WithoutAbsent<T(!new)>(s: seq<T>, drop: seq<T>)
    requires forall x :: x in s ==> x !in drop
    ensures Without(s, drop) == s
  {
    if s != [] {
      assert s == [s[0]] + s[1..];
      assert s[0] !in drop;
      WithoutAbsent(s[1..], drop);
    }
  }

  /** `map(f)` on a list. */
  function Map<A, B>(f: A -> B, s: seq<A>): (r: seq<B>)
    ensures |r| == |s|
    ensures forall i :: 0 <= i < |s| ==> r[i] == f(s[i])
  {
    seq(|s|, i requires 0 <= i < |s| => f(s[i]))
  }

  /** Concatenation of a list of lists (`flat`). */
  function Flatten<T>(ss: seq<seq<T>>): seq<T> {
    if ss == [] then [] else ss[0] + Flatten(ss[1..])
  }

  /** ramda `splitEvery` and the source's `chunkDeck`: consecutive slices of
      length `n`, the last one possibly shorter. */
  function SplitEvery<T>(n: nat, s: seq<T>): seq<seq<T>>
    requires n > 0
    decreases |s|
  {
    if |s| == 0 then []
    else if |s| <= n then [s]
    else [s[..n]] + SplitEvery(n, s[n..])
  }

  /** The consecutive integers m, m+1, ..., m+n-1. */
  function Run(m: int, n: nat): (r: seq<int>)
    ensures |r| == n
    ensures forall i :: 0 <= i < n ==> r[i] == m + i
  {
    if n == 0 then [] else Run(m, n - 1) + [m + n - 1]
  }

  // ---------------------------------------------------------------------
  // Facts about Uniq and Count

  lemma {:induction false} UniqHead<T(!new)>(s: seq<T>)
    requires |s| > 0
    ensures |Uniq(s)| > 0 && Uniq(s)[0] == s[0]
  {
    if |s| > 1 {
      var init := s[..|s| - 1];
      UniqHead(init);
      assert init[0] == s[0];
    }
  }

  lemma UniqSnoc<T(!new)>(a: seq<T>, x: T)
    ensures Uniq(a + [x]) == if x in a then Uniq(a) else Uniq(a) + [x]
  {
    assert (a + [x])[..|a + [x]| - 1] == a;
  }

  /** Repeating the last element does not change the distinct values. */
  lemma UniqTwice<T(!new)>(a: seq<T>, x: T)
    ensures Uniq(a + [x] + [x]) == Uniq(a + [x])
  {
    UniqSnoc(a + [x], x);
  }

  /** Lists with the same distinct values keep them equal when the same
      element is appended. */
  lemma UniqSnocBoth<T(!new)>(a: seq<T>, b: seq<T>, x: T)
    requires Uniq(a) == Uniq(b)
    ensures Uniq(a + [x]) == Uniq(b + [x])
  {
    UniqSnoc(a, x);
    UniqSnoc(b, x);
    assert x in a <==> x in Uniq(a);
  }

  /** A list without repetitions is as long as its set of elements. */
  lemma {:induction false} DistinctCard<T(!new)>(s: seq<T>)
    requires Distinct(s)
    ensures |set x | x in s| == |s|
  {
    if s != [] {
      var init := s[..|s| - 1];
      var last := s[|s| - 1];
      assert Distinct(init);
      DistinctCard(init);
      assert s == init + [last];
      assert (set x | x in s) == (set x | x in init) + {last};
      assert last !in (set x | x in init);
    }
  }

  lemma UniqCard<T(!new)>(s: seq<T>)
    ensures |Uniq(s)| == |set x | x in s|
  {
    DistinctCard(Uniq(s));
    assert (set x | x in Uniq(s)) == (set x | x in s);
  }

  /** The number of distinct elements depends only on the multiset. */
  lemma UniqLengthOfPermutation<T(!new)>(a: seq<T>, b: seq<T>)
    requires multiset(a) == multiset(b)
    ensures |Uniq(a)| == |Uniq(b)|
  {
    UniqCard(a);
    UniqCard(b);
    forall x ensures x in a <==> x in b {
      assert x in a <==> x in multiset(a);
      assert x in b <==> x in multiset(b);
    }
    assert (set x | x in a) == (set x | x in b);
  }

  /** `uniq` keeps every element exactly when there are no repetitions. */
  lemma {:induction false} UniqFull<T(!new)>(s: seq<T>)
    ensures |Uniq(s)| == |s| <==> Distinct(s)
  {
    if s != [] {
      var init := s[..|s| - 1];
      var last := s[|s| - 1];
      assert s == init + [last];
      UniqFull(init);
      UniqSnoc(init, last);
      if last in init {
        var k :| 0 <= k < |init| && init[k] == last;
        assert s[k] == s[|s| - 1];
      } else {
        if Distinct(init) {
          assert Distinct(s);
        }
      }
    }
  }

  /** In a list without repetitions every element occurs once. */
  lemma {:induction false} DistinctCount<T(!new)>(s: seq<T>, x: T)
    requires Distinct(s) && x in s
    ensures Count(s, x) == 1
  {
    assert s == [s[0]] + s[1..];
    assert Distinct(s[1..]);
    if s[0] == x {
      assert x !in s[1..];
    } else {
      DistinctCount(s[1..], x);
    }
  }

  lemma MapAppend<A, B>(f: A -> B, a: seq<A>, b: seq<A>)
    ensures Map(f, a + b) == Map(f, a) + Map(f, b)
  {
  }

  /** Removing the element at `k` from `b` and the head from `a`, which
      equals it, keeps two rearrangements rearrangements. */
  lemma RemoveMatching<A(!new)>(a: seq<A>, b: seq<A>, k: nat)
    requires multiset(a) == multiset(b) && a != [] && k < |b| && b[k] == a[0]
    ensures multiset(a[1..]) == multiset(b[..k] + b[k + 1..])
  {
    assert b == b[..k] + [b[k]] + b[k + 1..];
    assert a == [a[0]] + a[1..];
    calc {
      multiset(a[1..]);
      multiset(a) - multiset{a[0]};
      multiset(b[..k]) + multiset{b[k]} + multiset(b[k + 1..]) - multiset{a[0]};
      multiset(b[..k] + b[k + 1..]);
    }
  }

  /** Mapping `b` gives the mapped image of `b[k]` and of `b` without it. */
  lemma MapRemove<A, B(!new)>(f: A -> B, b: seq<A>, k: nat)
    requires k < |b|
    ensures multiset(Map(f, b)) == multiset{f(b[k])} + multiset(Map(f, b[..k] + b[k + 1..]))
  {
    assert b == b[..k] + [b[k]] + b[k + 1..];
    MapAppend(f, b[..k] + [b[k]], b[k + 1..]);
    MapAppend(f, b[..k], [b[k]]);
    MapAppend(f, b[..k], b[k + 1..]);
  }

  /** The step of `MapPermutation`: when `a`'s head sits at `k` in `b` and
      the rest of `a` maps to a rearrangement of the rest of `b`, so do
      `a` and `b`. */
  lemma MapMatching<A, B(!new)>(f: A -> B, a: seq<A>, b: seq<A>, k: nat)
    requires a != [] && k < |b| && b[k] == a[0]
    requires multiset(Map(f, a[1..])) == multiset(Map(f, b[..k] + b[k + 1..]))
    ensures multiset(Map(f, a)) == multiset(Map(f, b))
  {
    MapRemove(f, a, 0);
    assert a[..0] + a[1..] == a[1..];
    MapRemove(f, b, k);
  }

  /** Mapping a rearranged list gives a rearrangement of the mapped list. */
  lemma {:induction false} MapPermutation<A(!new), B(!new)>(f: A -> B, a: seq<A>, b: seq<A>)
    requires multiset(a) == multiset(b)
    ensures multiset(Map(f, a)) == multiset(Map(f, b))
    decreases |a|
  {
    assert |a| == |multiset(a)| == |b|;
    if a != [] {
      assert a[0] in multiset(b);
      var k :| 0 <= k < |b| && b[k] == a[0];
      RemoveMatching(a, b, k);
      MapPermutation(f, a[1..], b[..k] + b[k + 1..]);
      MapMatching(f, a, b, k);
    } else {
      assert b == [];
    }
  }

  lemma CountSplit<T(!new)>(a: seq<T>, b: seq<T>, x: T)
    ensures Count(a + b, x) == Count(a, x) + Count(b, x)
  {
  }

  /** Two different values together occur at most as often as there are elements,
      and exactly that often only when nothing else occurs. */
  lemma {:induction false} CountTwo<T(!new)>(s: seq<T>, x: T, y: T)
    requires x != y
    ensures Count(s, x) + Count(s, y) <= |s|
    ensures Count(s, x) + Count(s, y) == |s| <==> forall z :: z in s ==> z == x || z == y
  {
    if s != [] {
      assert s == [s[0]] + s[1..];
      CountTwo(s[1..], x, y);
      CountSplit([s[0]], s[1..], x);
      CountSplit([s[0]], s[1..], y);
      assert forall z :: z in s <==> z == s[0] || z in s[1..];
      if s[0] == x || s[0] == y {
        assert Count([s[0]], x) + Count([s[0]], y) == 1;
      } else {
        assert Count([s[0]], x) + Count([s[0]], y) == 0;
        assert s[0] in s;
      }
    }
  }

  // ---------------------------------------------------------------------
  // Facts about splitting and flattening

  lemma {:induction false} FlattenSplit<T>(n: nat, s: seq<T>)
    requires n > 0
    ensures Flatten(SplitEvery(n, s)) == s
    decreases |s|
  {
    if |s| > n {
      FlattenSplit(n, s[n..]);
      assert s == s[..n] + s[n..];
    }
  }

  /** A list of k*n elements splits into k slices of exactly n elements. */
  lemma {:induction false} SplitExact<T>(n: nat, k: nat, s: seq<T>)
    requires n > 0 && |s| == n * k
    ensures |SplitEvery(n, s)| == k
    ensures forall c :: c in SplitEvery(n, s) ==> |c| == n
  {
    if k > 1 {
      assert |s[n..]| == n * (k - 1);
      SplitExact(n, k - 1, s[n..]);
    }
  }

  // ---------------------------------------------------------------------
  // Counting elements

  /** A list has at most as many distinct elements as it is long. */
  lemma {:induction false} SetCardLe<T(!new)>(s: seq<T>)
    ensures |set x | x in s| <= |s|
  {
    if s != [] {
      SetCardLe(s[1..]);
      assert (set x | x in s) == (set x | x in s[1..]) + {s[0]};
    }
  }

  /** A list shorter than a list without repetitions misses one of its
      elements. */
  lemma SomeoneLeft<T(!new)>(s: seq<T>, f: seq<T>)
    requires Distinct(s) && |f| < |s|
    ensures exists x :: x in s && x !in f
  {
    DistinctCard(s);
    SetCardLe(f);
    var a, b := set x | x in s, set x | x in f;
    SubsetCard(a * b, b);
    assert a == (a - b) + (a * b) && (a - b) * (a * b) == {};
    var x :| x in a - b;
  }

  lemma SubsetCard<T>(a: set<T>, b: set<T>)
    requires a <= b
    ensures |a| <= |b|
  {
    assert b == a + (b - a) && a * (b - a) == {};
  }
}
