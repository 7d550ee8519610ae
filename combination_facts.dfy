/** What the shapes of the combination resolver mean in terms of the cards'
    values, and the order its legality test puts on combinations. */
module CombinationFacts {
  import opened Wrappers
  import opened Seqs
  import opened Constants
  import opened CombinationResolver

  // ---------------------------------------------------------------------
  // Sorted value lists

  lemma LeAntisymmetric(x: Option<int>, y: Option<int>)
    requires Le(x, y) && Le(y, x)
    ensures x == y
  {
  }

  /** Sorting values gives the one ascending arrangement of their multiset. */
  lemma {:induction false} SortedValuesUnique(a: seq<Option<int>>, b: seq<Option<int>>)
    requires SortedValues(a) && SortedValues(b)
    requires multiset(a) == multiset(b)
    ensures a == b
  {
    assert |a| == |multiset(a)| == |multiset(b)| == |b|;
    if a != [] {
      assert a[0] in multiset(b);
      assert b[0] in multiset(a);
      var i :| 0 <= i < |b| && b[i] == a[0];
      var j :| 0 <= j < |a| && a[j] == b[0];
      assert Le(b[0], b[i]);
      assert Le(a[0], a[j]);
      LeAntisymmetric(a[0], b[0]);
      assert a == [a[0]] + a[1..];
      assert b == [b[0]] + b[1..];
      assert multiset(a[1..]) == multiset(a) - multiset{a[0]};
      assert multiset(b[1..]) == multiset(b) - multiset{b[0]};
      SortedValuesUnique(a[1..], b[1..]);
    }
  }

  /** `getCardValues` depends only on which cards are played, not on their order. */
  lemma CardValuesOfPermutation(a: seq<Card>, b: seq<Card>)
    requires multiset(a) == multiset(b)
    ensures CardValues(a) == CardValues(b)
  {
    MapPermutation(ValueOf, a, b);
    SortedValuesUnique(CardValues(a), CardValues(b));
  }

  /** The last entry of an ascending list is also the last entry of its `uniq`. */
  lemma {:induction false} UniqSortedLast(t: seq<Option<int>>)
    requires SortedValues(t) && |t| > 0
    ensures |Uniq(t)| > 0 && Uniq(t)[|Uniq(t)| - 1] == t[|t| - 1]
  {
    var init := t[..|t| - 1];
    var last := t[|t| - 1];
    UniqSnoc(init, last);
    assert t == init + [last];
    if last in init {
      var k :| 0 <= k < |init| && init[k] == last;
      assert Le(t[k], t[|t| - 2]) && Le(t[|t| - 2], t[|t| - 1]);
      LeAntisymmetric(t[|t| - 2], t[|t| - 1]);
      UniqSortedLast(init);
    }
  }

  /** An ascending list with a number at its end holds numbers only. */
  lemma AllValued(v: seq<Option<int>>)
    requires SortedValues(v) && |v| > 0 && v[|v| - 1].Some?
    ensures forall i :: 0 <= i < |v| ==> v[i].Some?
  {
    forall i | 0 <= i < |v| ensures v[i].Some? {
      if i < |v| - 1 {
        assert Le(v[i], v[|v| - 1]);
      }
    }
  }

  /** Ascending distinct numbers rise by at least one per step. */
  lemma {:induction false} Gap(v: seq<Option<int>>, i: nat, j: nat)
    requires SortedValues(v) && Distinct(v) && i <= j < |v|
    requires forall k :: 0 <= k < |v| ==> v[k].Some?
    ensures v[j].value - v[i].value >= j - i
    decreases j - i
  {
    if i < j {
      Gap(v, i + 1, j);
      assert Le(v[i], v[i + 1]) && v[i] != v[i + 1];
    }
  }

  /** Ascending distinct numbers whose span is their count minus one are
      consecutive. */
  lemma ConsecutiveValues(v: seq<Option<int>>)
    requires SortedValues(v) && Distinct(v) && AreValuesConnected(v)
    ensures forall i :: 0 <= i < |v| ==> v[i] == Some(v[0].value + i)
  {
    AllValued(v);
    forall i | 0 <= i < |v| ensures v[i] == Some(v[0].value + i) {
      Gap(v, 0, i);
      Gap(v, i, |v| - 1);
    }
  }

  lemma UniqOfDistinct<T(!new)>(s: seq<T>)
    requires Distinct(s)
    ensures Uniq(s) == s
  {
    UniqFull(s);
    if s != [] {
      var init := s[..|s| - 1];
      assert s == init + [s[|s| - 1]];
      assert Distinct(init);
      UniqOfDistinct(init);
      UniqSnoc(init, s[|s| - 1]);
    }
  }

  /** A list has one distinct element exactly when all its elements equal the first. */
  lemma {:induction false} UniqOne<T(!new)>(s: seq<T>)
    requires |s| > 0
    ensures |Uniq(s)| == 1 <==> forall i :: 0 <= i < |s| ==> s[i] == s[0]
  {
    UniqHead(s);
    if forall i :: 0 <= i < |s| ==> s[i] == s[0] {
      UniqCard(s);
      assert (set x | x in s) == {s[0]};
    } else {
      var i :| 0 <= i < |s| && s[i] != s[0];
      assert s[i] in Uniq(s);
      var k :| 0 <= k < |Uniq(s)| && Uniq(s)[k] == s[i];
      assert k != 0;
    }
  }

  // ---------------------------------------------------------------------
  // Pairs of equal values

  /** Every even position holds the same value as the next one. */
  predicate EqualPairs<T(==)>(v: seq<T>) {
    forall k :: 0 <= k < |v| / 2 ==> v[2 * k] == v[2 * k + 1]
  }

  lemma EqualPairsTail<T(!new)>(v: seq<T>)
    requires |v| >= 2
    ensures EqualPairs(v) <==> v[0] == v[1] && EqualPairs(v[2..])
  {
    if v[0] == v[1] && EqualPairs(v[2..]) {
      forall k | 0 <= k < |v| / 2 ensures v[2 * k] == v[2 * k + 1] {
        if k > 0 {
          assert v[2..][2 * (k - 1)] == v[2..][2 * (k - 1) + 1];
        }
      }
    }
    if EqualPairs(v) {
      assert v[2 * 0] == v[2 * 0 + 1];
      forall k | 0 <= k < |v[2..]| / 2 ensures v[2..][2 * k] == v[2..][2 * k + 1] {
        assert v[2 * (k + 1)] == v[2 * (k + 1) + 1];
      }
    }
  }

  /** Splitting into twos gives equal pairs exactly when every even position
      holds the same value as the next one. */
  lemma {:induction false} EqualTwos<T(!new)>(v: seq<T>)
    requires |v| % 2 == 0
    ensures (forall c :: c in SplitEvery(2, v) ==> AreValuesEqual(c)) <==> EqualPairs(v)
    decreases |v|
  {
    if |v| > 0 {
      var head := v[..2];
      UniqOne(head);
      EqualPairsTail(v);
      if |v| > 2 {
        assert SplitEvery(2, v) == [head] + SplitEvery(2, v[2..]);
        EqualTwos(v[2..]);
        assert (forall c :: c in SplitEvery(2, v) ==> AreValuesEqual(c))
          <==> AreValuesEqual(head) && (forall c :: c in SplitEvery(2, v[2..]) ==> AreValuesEqual(c));
        assert AreValuesEqual(head) <==> v[0] == v[1];
      } else {
        assert SplitEvery(2, v) == [v];
        assert head == v;
        assert EqualPairs(v[2..]);
      }
    }
  }

  /** The values at the even positions. */
  function Halves<T>(v: seq<T>): (h: seq<T>)
    ensures |h| == |v| / 2
    ensures forall k :: 0 <= k < |v| / 2 ==> h[k] == v[2 * k]
  {
    seq(|v| / 2, k requires 0 <= k < |v| / 2 => v[2 * k])
  }

  /** A last pair `x, x` adds one `x` to the even positions. */
  lemma HalvesPair<T>(init: seq<T>, x: T)
    requires |init| % 2 == 0
    ensures Halves(init + [x] + [x]) == Halves(init) + [x]
  {
  }

  /** Dropping the last pair of a list of equal pairs leaves a list of
      equal pairs. */
  lemma EqualPairsInit<T(!new)>(v: seq<T>)
    requires |v| >= 2 && |v| % 2 == 0 && EqualPairs(v)
    ensures EqualPairs(v[..|v| - 2]) && v == v[..|v| - 2] + [v[|v| - 1]] + [v[|v| - 1]]
  {
    var init := v[..|v| - 2];
    assert v[2 * (|v| / 2 - 1)] == v[2 * (|v| / 2 - 1) + 1];
    forall k | 0 <= k < |init| / 2 ensures init[2 * k] == init[2 * k + 1] {
      assert v[2 * k] == v[2 * k + 1];
    }
  }

  /** The step of `UniqOfTwos`: a last pair `x, x` adds `x` to both sides. */
  lemma UniqOfTwosStep<T(!new)>(init: seq<T>, x: T)
    requires |init| % 2 == 0 && Uniq(init) == Uniq(Halves(init))
    ensures Uniq(init + [x] + [x]) == Uniq(Halves(init + [x] + [x]))
  {
    UniqTwice(init, x);
    UniqSnocBoth(init, Halves(init), x);
    HalvesPair(init, x);
  }

  /** A list of equal pairs has the distinct values of its even positions. */
  lemma {:induction false} UniqOfTwos<T(!new)>(v: seq<T>)
    requires |v| % 2 == 0 && EqualPairs(v)
    ensures Uniq(v) == Uniq(Halves(v))
    decreases |v|
  {
    if |v| > 0 {
      EqualPairsInit(v);
      UniqOfTwos(v[..|v| - 2]);
      UniqOfTwosStep(v[..|v| - 2], v[|v| - 1]);
    }
  }

  // ---------------------------------------------------------------------
  // The shapes in terms of values

  /** The last of a sorted rearrangement of `w` is one of `w` and no
      element of `w` comes after it. */
  lemma SortedLastBounds(v: seq<Option<int>>, w: seq<Option<int>>)
    requires SortedValues(v) && multiset(v) == multiset(w) && |v| > 0
    ensures v[|v| - 1] in w
    ensures forall i :: 0 <= i < |w| ==> Le(w[i], v[|v| - 1])
  {
    assert v[|v| - 1] in multiset(w);
    forall i | 0 <= i < |w| ensures Le(w[i], v[|v| - 1]) {
      assert w[i] in multiset(v);
      var k :| 0 <= k < |v| && v[k] == w[i];
      assert k == |v| - 1 || Le(v[k], v[|v| - 1]);
    }
  }

  /** Cards without a value (the Dog and the Phoenix) sort to the end. */
  lemma UnvaluedLast(cards: seq<Card>)
    requires Dog in cards || Phoenix in cards
    ensures |cards| > 0 && CardValues(cards)[|cards| - 1].None?
  {
    var v := CardValues(cards);
    var i :| 0 <= i < |cards| && (cards[i] == Dog || cards[i] == Phoenix);
    assert Values(cards)[i] == None;
    SortedLastBounds(v, Values(cards));
  }

  /** Sorted values m, m, m+1, m+1, ..., m+n-1, m+n-1. */
  predicate PairRun(v: seq<Option<int>>) {
    |v| >= 2 && |v| % 2 == 0 && v[0].Some? && forall i :: 0 <= i < |v| ==> v[i] == Some(v[0].value + i / 2)
  }

  /** The even positions of a pair run's values are its distinct values. */
  lemma PairHalves(v: seq<Option<int>>)
    requires PairValues(v)
    ensures EqualPairs(v)
    ensures Uniq(v) == Halves(v)
  {
    EqualTwos(v);
    var h := Halves(v);
    UniqOfTwos(v);
    assert |Uniq(h)| == |h|;
    UniqFull(h);
    UniqOfDistinct(h);
  }

  lemma HalvesSorted(v: seq<Option<int>>)
    requires SortedValues(v)
    ensures SortedValues(Halves(v))
  {
    var h := Halves(v);
    forall i, j | 0 <= i < j < |h| ensures Le(h[i], h[j]) {
      assert Le(v[2 * i], v[2 * j]);
    }
  }

  lemma PairValuesRun(v: seq<Option<int>>)
    requires SortedValues(v) && PairValues(v)
    ensures PairRun(v)
  {
    PairHalves(v);
    HalvesSorted(v);
    var h := Halves(v);
    ConsecutiveValues(h);
    forall i | 0 <= i < |v| ensures v[i] == Some(v[0].value + i / 2) {
      var k := i / 2;
      assert v[2 * k] == v[2 * k + 1];
      assert i == 2 * k || i == 2 * k + 1;
      assert h[k] == v[2 * k];
    }
  }

  lemma RunPairValues(v: seq<Option<int>>)
    requires PairRun(v)
    ensures PairValues(v)
  {
    assert EqualPairs(v) by {
      forall k | 0 <= k < |v| / 2 ensures v[2 * k] == v[2 * k + 1] {
        assert v[2 * k] == Some(v[0].value + k) && v[2 * k + 1] == Some(v[0].value + k);
      }
    }
    EqualTwos(v);
    UniqOfTwos(v);
    var h := Halves(v);
    assert forall k :: 0 <= k < |h| ==> h[k] == Some(v[0].value + k);
    assert Distinct(h) by {
      forall i, j | 0 <= i < j < |h| ensures h[i] != h[j] {
        assert h[i] == Some(v[0].value + i) && h[j] == Some(v[0].value + j);
      }
    }
    UniqOfDistinct(h);
  }

  /** PAIRn: the sorted values are m, m, m+1, m+1, ..., m+n-1, m+n-1. */
  lemma PairShape(cards: seq<Card>)
    ensures IsPair(cards) <==> PairRun(CardValues(cards))
  {
    var v := CardValues(cards);
    if IsPair(cards) {
      PairValuesRun(v);
    }
    if PairRun(v) {
      RunPairValues(v);
    }
  }

  /** STRAIGHTn and BOMB_STRAIGHTn: at least five sorted values m, m+1, ..., m+n-1. */
  lemma StraightShape(cards: seq<Card>)
    ensures IsStraight(cards) <==>
      var v := CardValues(cards);
      |v| >= 5 && v[0].Some? && forall i :: 0 <= i < |v| ==> v[i] == Some(v[0].value + i)
  {
    var v := CardValues(cards);
    UniqFull(v);
    if IsStraight(cards) {
      ConsecutiveValues(v);
    }
    if |v| >= 5 && v[0].Some? && forall i :: 0 <= i < |v| ==> v[i] == Some(v[0].value + i) {
      assert Distinct(v) by {
        forall i, j | 0 <= i < j < |v| ensures v[i] != v[j] {
          assert v[i] == Some(v[0].value + i) && v[j] == Some(v[0].value + j);
        }
      }
    }
  }

  /** The Dog and the Phoenix can be in no pair and no straight. */
  lemma UnvaluedBreaksRuns(cards: seq<Card>)
    requires Dog in cards || Phoenix in cards
    ensures !IsPair(cards) && !IsStraight(cards)
  {
    UnvaluedLast(cards);
    var v := CardValues(cards);
    UniqSortedLast(v);
  }

  /** The values depend only on the multiset of cards. */
  lemma ValuesOfPermutation(cards: seq<Card>)
    ensures multiset(CardValues(cards)) == multiset(Values(cards))
    ensures forall x :: Count(CardValues(cards), x) == Count(Values(cards), x)
  {
  }

  /** TRIPLE: three cards of one value. */
  lemma TripleShape(cards: seq<Card>)
    ensures IsTriple(cards) <==>
      |cards| == 3 && forall i :: 0 <= i < 3 ==> ValueOf(cards[i]) == ValueOf(cards[0])
  {
    if |cards| == 3 {
      SameValues(cards);
    }
  }

  /** BOMB4: four cards of one value and no Phoenix. */
  lemma Bomb4Shape(cards: seq<Card>)
    ensures IsBomb4(cards) <==>
      Phoenix !in cards && |cards| == 4 && forall i :: 0 <= i < 4 ==> ValueOf(cards[i]) == ValueOf(cards[0])
  {
    if |cards| == 4 {
      SameValues(cards);
    }
  }

  lemma SameValues(cards: seq<Card>)
    requires |cards| > 0
    ensures AreValuesEqual(CardValues(cards)) <==>
      forall i :: 0 <= i < |cards| ==> ValueOf(cards[i]) == ValueOf(cards[0])
  {
    var v := CardValues(cards);
    var w := Values(cards);
    UniqLengthOfPermutation(v, w);
    UniqOne(v);
    UniqOne(w);
  }

  lemma FullHouseCounts(v: seq<Option<int>>)
    requires FullHouseValues(v)
    ensures exists x, y :: x != y && Count(v, x) == 3 && Count(v, y) == 2
  {
    var u := Uniq(v);
    assert u[0] in u && u[1] in u && u[0] != u[1];
    forall z | z in v ensures z == u[0] || z == u[1] {
      assert z in u;
    }
    CountTwo(v, u[0], u[1]);
    if Count(v, u[0]) == 3 {
      assert Count(v, u[0]) == 3 && Count(v, u[1]) == 2;
    } else {
      assert Count(v, u[1]) == 3 && Count(v, u[0]) == 2;
    }
  }

  lemma CountsFullHouse(v: seq<Option<int>>, x: Option<int>, y: Option<int>)
    requires |v| == 5 && x != y && Count(v, x) == 3 && Count(v, y) == 2
    ensures FullHouseValues(v)
  {
    CountTwo(v, x, y);
    assert x in multiset(v) && y in multiset(v);
    UniqCard(v);
    assert (set z | z in v) == {x, y};
    forall z | z in Uniq(v) ensures Count(v, z) == 2 || Count(v, z) == 3 {
      assert z in v;
    }
  }

  /** FULL_HOUSE: five cards, one value three times and another twice. */
  lemma FullHouseShape(cards: seq<Card>)
    ensures IsFullHouse(cards) <==>
      |cards| == 5 && exists x, y :: x != y && Count(Values(cards), x) == 3 && Count(Values(cards), y) == 2
  {
    var v := CardValues(cards);
    ValuesOfPermutation(cards);
    if IsFullHouse(cards) {
      FullHouseCounts(v);
    }
    if |cards| == 5 && exists x, y :: x != y && Count(Values(cards), x) == 3 && Count(Values(cards), y) == 2 {
      var x, y :| x != y && Count(Values(cards), x) == 3 && Count(Values(cards), y) == 2;
      CountsFullHouse(v, x, y);
    }
  }

  // ---------------------------------------------------------------------
  // Classification

  /** The shapes exclude one another, so the order of the tests in
      `getCombinationType` never hides a shape. */
  lemma ShapesExclusive(cards: seq<Card>)
    ensures IsPair(cards) ==> !IsTriple(cards) && !IsFullHouse(cards) && !IsBomb4(cards) && !IsStraight(cards)
    ensures IsTriple(cards) ==> !IsFullHouse(cards) && !IsBomb4(cards) && !IsStraight(cards)
    ensures IsFullHouse(cards) ==> !IsBomb4(cards) && !IsStraight(cards)
    ensures IsBomb4(cards) ==> !IsStraight(cards)
  {
  }

  /** Each combination kind is returned exactly for its shape. */
  lemma Classification(cards: seq<Card>)
    requires |cards| >= 2
    ensures GetCombinationType(cards) == Some(Pair(|cards| / 2)) <==> IsPair(cards)
    ensures GetCombinationType(cards) == Some(Triple) <==> IsTriple(cards)
    ensures GetCombinationType(cards) == Some(FullHouse) <==> IsFullHouse(cards)
    ensures GetCombinationType(cards) == Some(Bomb4) <==> IsBomb4(cards)
    ensures GetCombinationType(cards) == Some(Straight(|cards|)) <==> IsStraight(cards) && !IsStraightBomb(cards)
    ensures GetCombinationType(cards) == Some(BombStraight(|cards|)) <==> IsStraight(cards) && IsStraightBomb(cards)
    ensures GetCombinationType(cards).None? <==>
      !IsPair(cards) && !IsTriple(cards) && !IsFullHouse(cards) && !IsBomb4(cards) && !IsStraight(cards)
  {
    ShapesExclusive(cards);
  }

  /** Pair counts, straight lengths and bomb-straight lengths are the number
      of pairs and of cards played. */
  lemma KindSizes(cards: seq<Card>)
    ensures GetCombinationType(cards) == Some(Single) <==> |cards| == 1
    ensures forall n: nat :: GetCombinationType(cards) == Some(Pair(n)) ==> 2 * n == |cards| && n >= 1
    ensures forall n: nat :: GetCombinationType(cards) == Some(Straight(n)) ==> n == |cards| >= 5
    ensures forall n: nat :: GetCombinationType(cards) == Some(BombStraight(n)) ==> n == |cards| >= 5
    ensures GetCombinationType(cards) == Some(Triple) ==> |cards| == 3
    ensures GetCombinationType(cards) == Some(FullHouse) ==> |cards| == 5
    ensures GetCombinationType(cards) == Some(Bomb4) ==> |cards| == 4
  {
  }

  /** The kind of a combination does not depend on the order of its cards. */
  lemma KindOfPermutation(a: seq<Card>, b: seq<Card>)
    requires multiset(a) == multiset(b)
    ensures GetCombinationType(a) == GetCombinationType(b)
  {
    assert |a| == |multiset(a)| == |b|;
    CardValuesOfPermutation(a, b);
    MapPermutation((c: Card) => c.ColorOf(), a, b);
    UniqLengthOfPermutation(ColorsOf(a), ColorsOf(b));
    assert Phoenix in a <==> Phoenix in multiset(a);
    assert Phoenix in b <==> Phoenix in multiset(b);
    assert IsPair(a) == IsPair(b);
    assert IsTriple(a) == IsTriple(b);
    assert IsFullHouse(a) == IsFullHouse(b);
    assert IsBomb4(a) == IsBomb4(b);
    assert IsStraight(a) == IsStraight(b);
    assert IsStraightBomb(a) == IsStraightBomb(b);
  }

  // ---------------------------------------------------------------------
  // Comparison

  /** Outside full houses a play is compared by its highest card: the last
      sorted value is the maximum of the values, and there is none when a
      Dog or a Phoenix is among the cards. */
  lemma HighestValue(cards: seq<Card>)
    ensures Last(CardValues(cards)).Some? <==> |cards| > 0 && Dog !in cards && Phoenix !in cards
    ensures Last(CardValues(cards)).Some? ==>
      Last(CardValues(cards)) in Values(cards)
      && forall i :: 0 <= i < |cards| ==> ValueOf(cards[i]).Some? && ValueOf(cards[i]).value <= Last(CardValues(cards)).value
  {
    var v := CardValues(cards);
    if |cards| > 0 {
      SortedLastBounds(v, Values(cards));
      if Dog in cards || Phoenix in cards {
        UnvaluedLast(cards);
      } else {
        assert Values(cards)[0] != None;
      }
    }
  }

  /** A full house compares by the value it holds twice. */
  lemma FullHousePairValue(cards: seq<Card>, x: int, y: int)
    requires |cards| == 5 && x != y
    requires Count(Values(cards), Some(x)) == 3 && Count(Values(cards), Some(y)) == 2
    ensures PairValue(cards) == Some(y)
  {
    var r := PairValue(cards);
    assert r.Some?;
    OnlyPairCount(Values(cards), r, Some(x), Some(y));
  }

  /** In three x and two y, only y occurs twice. */
  lemma OnlyPairCount(w: seq<Option<int>>, r: Option<int>, x: Option<int>, y: Option<int>)
    requires |w| == 5 && x != y && Count(w, x) == 3 && Count(w, y) == 2
    requires Count(w, r) == 2
    ensures r == y
  {
    CountTwo(w, x, y);
    assert r in multiset(w);
    assert r in w;
  }

  lemma BiggerIrreflexive(cards: seq<Card>, kind: Option<Combo>)
    ensures !IsBigger(cards, cards, kind)
  {
  }

  lemma BiggerAsymmetric(a: seq<Card>, b: seq<Card>, kind: Option<Combo>)
    requires IsBigger(a, b, kind)
    ensures !IsBigger(b, a, kind)
  {
  }

  lemma BiggerTransitive(a: seq<Card>, b: seq<Card>, c: seq<Card>, kind: Option<Combo>)
    requires IsBigger(a, b, kind) && IsBigger(b, c, kind)
    ensures IsBigger(a, c, kind)
  {
  }

  // ---------------------------------------------------------------------
  // Legality

  /** On an empty table everything may be played. */
  lemma EmptyTableAcceptsAll(played: seq<Card>, kind: Option<Combo>, table: Trick)
    requires table.kind.None?
    ensures IsValidCombination(played, kind, table)
  {
  }

  /** A bomb beats every combination that is not a bomb; a bomb straight
      beats a bomb four. */
  lemma BombOverrides(played: seq<Card>, p: Combo, table: Trick)
    requires table.kind.Some? && IsBomb(p)
    ensures !IsBomb(table.kind.value) ==> IsValidCombination(played, Some(p), table)
    ensures p.BombStraight? && table.kind.value == Bomb4 ==> IsValidCombination(played, Some(p), table)
  {
  }

  /** Only a bomb goes on a bomb. */
  lemma OnlyBombsBeatBombs(played: seq<Card>, p: Combo, table: Trick)
    requires table.kind.Some? && IsBomb(table.kind.value) && !IsBomb(p)
    ensures !IsValidCombination(played, Some(p), table)
  {
  }

  /** A bomb straight goes on a bomb straight when it is longer, or equally
      long and higher. */
  lemma BombStraightOnBombStraight(played: seq<Card>, n: nat, table: Trick, m: nat)
    requires table.kind == Some(BombStraight(m))
    ensures IsValidCombination(played, Some(BombStraight(n)), table) <==>
      |played| > |table.cards| || (n == m && IsBigger(played, table.cards, table.kind))
  {
  }

  /** Without bombs a play must be of the table's exact kind and higher. */
  lemma SameKindAndHigher(played: seq<Card>, p: Combo, table: Trick)
    requires table.kind.Some? && !IsBomb(p) && !IsBomb(table.kind.value)
    ensures IsValidCombination(played, Some(p), table) <==>
      Some(p) == table.kind && IsBigger(played, table.cards, table.kind)
  {
  }

  /** `a` may be played on `b`, both with the kinds the resolver gives them. */
  predicate Beats(a: seq<Card>, b: seq<Card>)
  {
    GetCombinationType(a).Some? && GetCombinationType(b).Some?
    && IsValidCombination(a, GetCombinationType(a), Trick("", b, GetCombinationType(b)))
  }

  /** No combination may be played on an identical copy of itself. */
  lemma BeatsIrreflexive(a: seq<Card>)
    ensures !Beats(a, a)
  {
  }

  lemma BeatsAsymmetric(a: seq<Card>, b: seq<Card>)
    requires Beats(a, b)
    ensures !Beats(b, a)
  {
    KindSizes(a);
    KindSizes(b);
  }

  /** Legality on the table is transitive: whatever beats a combination that
      beats a third also beats the third. */
  lemma BeatsTransitive(a: seq<Card>, b: seq<Card>, c: seq<Card>)
    requires Beats(a, b) && Beats(b, c)
    ensures Beats(a, c)
  {
    KindSizes(a);
    KindSizes(b);
    KindSizes(c);
  }
}
