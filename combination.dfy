/** The combination resolver: which shape a list of cards forms, and whether
    it may be played on the combination lying on the table. */
module CombinationResolver {
  import opened Wrappers
  import opened Seqs
  import opened Constants

  // ---------------------------------------------------------------------
  // Card values

  /** The rank table applied to a card's number: 2 ... 14 for the ranks,
      1 for the Mahjong and 25 for the Dragon. The Dog and the Phoenix have
      no number, so their lookup is undefined, written None. */
  function ValueOf(c: Card): Option<int> {
    c.Number()
  }

  function Values(cards: seq<Card>): seq<Option<int>> {
    Map(ValueOf, cards)
  }

  function ColorsOf(cards: seq<Card>): seq<Option<Color>> {
    Map((c: Card) => c.ColorOf(), cards)
  }

  /** The order of an ascending sort of numbers: every number before
      undefined, which JavaScript's sort always moves to the end. */
  predicate Le(x: Option<int>, y: Option<int>) {
    y.None? || (x.Some? && x.value <= y.value)
  }

  predicate SortedValues(v: seq<Option<int>>) {
    forall i, j :: 0 <= i < j < |v| ==> Le(v[i], v[j])
  }

  function InsertValue(x: Option<int>, v: seq<Option<int>>): (r: seq<Option<int>>)
    requires SortedValues(v)
    ensures SortedValues(r)
    ensures multiset(r) == multiset(v) + multiset{x}
    ensures |r| > 0 && (r[0] == x || (|v| > 0 && r[0] == v[0]))
  {
    if v == [] || Le(x, v[0]) then
      ConsSorted(x, v);
      [x] + v
    else
      var t := InsertValue(x, v[1..]);
      assert v == [v[0]] + v[1..];
      ConsSorted(v[0], t);
      [v[0]] + t
  }

  lemma ConsSorted(y: Option<int>, t: seq<Option<int>>)
    requires SortedValues(t) && (t == [] || Le(y, t[0]))
    ensures SortedValues([y] + t)
  {
    var r := [y] + t;
    forall i, j | 0 <= i < j < |r| ensures Le(r[i], r[j]) {
      assert r[j] == t[j - 1];
      if i > 0 {
        assert r[i] == t[i - 1];
      } else {
        assert Le(t[0], t[j - 1]);
      }
    }
  }

  function SortValues(v: seq<Option<int>>): (r: seq<Option<int>>)
    ensures SortedValues(r)
    ensures multiset(r) == multiset(v)
  {
    if v == [] then []
    else
      assert v == [v[0]] + v[1..];
      InsertValue(v[0], SortValues(v[1..]))
  }

  /** `getCardValues`: the cards' values in ascending order, the undefined
      ones last. */
  function CardValues(cards: seq<Card>): (v: seq<Option<int>>)
    ensures |v| == |cards|
    ensures multiset(v) == multiset(Values(cards))
    ensures SortedValues(v)
  {
    assert |multiset(SortValues(Values(cards)))| == |Values(cards)|;
    SortValues(Values(cards))
  }

  /** `areValuesEqual`: exactly one distinct value. */
  predicate AreValuesEqual<T(==,!new)>(s: seq<T>) {
    |Uniq(s)| == 1
  }

  /** `areValuesConnected`: last minus first is the length minus one; an
      undefined end gives NaN, which equals nothing. */
  predicate AreValuesConnected(s: seq<Option<int>>) {
    |s| > 0 && s[0].Some? && s[|s| - 1].Some? && s[|s| - 1].value - s[0].value == |s| - 1
  }

  // ---------------------------------------------------------------------
  // Shapes

  /** `isCombinationPair` on the sorted values: an even count, half as many
      distinct values, equal values in each slice of two, and connected
      distinct values. */
  predicate PairValues(v: seq<Option<int>>) {
    |v| % 2 == 0
    && |v| / 2 == |Uniq(v)|
    && (forall c :: c in SplitEvery(2, v) ==> AreValuesEqual(c))
    && AreValuesConnected(Uniq(v))
  }

  predicate IsPair(cards: seq<Card>) {
    PairValues(CardValues(cards))
  }

  predicate TripleValues(v: seq<Option<int>>) {
    |v| == 3 && AreValuesEqual(v)
  }

  predicate IsTriple(cards: seq<Card>) {
    TripleValues(CardValues(cards))
  }

  /** Five values, two distinct ones (undefined counts as one value, the key
      "undefined" of `countBy`), each occurring twice or three times. */
  predicate FullHouseValues(v: seq<Option<int>>) {
    |v| == 5 && |Uniq(v)| == 2 && forall x :: x in Uniq(v) ==> Count(v, x) == 2 || Count(v, x) == 3
  }

  predicate IsFullHouse(cards: seq<Card>) {
    FullHouseValues(CardValues(cards))
  }

  predicate Bomb4Values(v: seq<Option<int>>) {
    |v| == 4 && AreValuesEqual(v)
  }

  predicate IsBomb4(cards: seq<Card>) {
    if Phoenix in cards then false else Bomb4Values(CardValues(cards))
  }

  predicate StraightValues(v: seq<Option<int>>) {
    |v| >= 5 && |v| == |Uniq(v)| && AreValuesConnected(v)
  }

  predicate IsStraight(cards: seq<Card>) {
    StraightValues(CardValues(cards))
  }

  /** `isStraightBomb`: one colour among all cards (a special card has
      none, which counts as a colour of its own). */
  predicate IsStraightBomb(cards: seq<Card>) {
    AreValuesEqual(ColorsOf(cards))
  }

  /** `getCombinationType`: the first shape that matches, or None (null). */
  function GetCombinationType(cards: seq<Card>): (r: Option<Combo>)
    ensures |cards| == 0 ==> r == None
    ensures |cards| == 1 ==> r == Some(Single)
  {
    if |cards| == 0 then None
    else if |cards| == 1 then Some(Single)
    else if IsPair(cards) then Some(Pair(|cards| / 2))
    else if IsTriple(cards) then Some(Triple)
    else if IsFullHouse(cards) then Some(FullHouse)
    else if IsBomb4(cards) then Some(Bomb4)
    else if IsStraight(cards) then
      if IsStraightBomb(cards) then Some(BombStraight(|cards|)) else Some(Straight(|cards|))
    else None
  }

  // ---------------------------------------------------------------------
  // Comparison

  function Last(v: seq<Option<int>>): Option<int> {
    if |v| == 0 then None else v[|v| - 1]
  }

  /** JavaScript `>` on two values, false when either is undefined or NaN. */
  predicate Greater(a: Option<int>, b: Option<int>) {
    a.Some? && b.Some? && a.value > b.value
  }

  /** The first element of an ascending list that occurs exactly twice in `all`. */
  function FirstTwice(t: seq<Option<int>>, all: seq<Option<int>>): Option<int> {
    if t == [] then None
    else if t[0].Some? && Count(all, t[0]) == 2 then t[0]
    else FirstTwice(t[1..], all)
  }

  /** `getValueOfPairFromFullHouse`: the first key counted twice. Object keys
      that are numbers come first and ascending, so this is the smallest
      value occurring exactly twice; a key "undefined", or no key at all,
      gives NaN, written None. */
  function PairValue(cards: seq<Card>): (r: Option<int>)
    ensures r.Some? ==> Count(Values(cards), r) == 2
    ensures r.Some? ==> forall x :: Count(Values(cards), Some(x)) == 2 ==> r.value <= x
    ensures r.None? ==> forall x :: Count(Values(cards), Some(x)) != 2
  {
    var v := CardValues(cards);
    FirstTwiceFacts(v, v);
    forall x | Count(Values(cards), Some(x)) == 2 ensures Some(x) in v {
      assert Some(x) in multiset(v);
    }
    FirstTwice(v, v)
  }

  lemma {:induction false} FirstTwiceFacts(t: seq<Option<int>>, all: seq<Option<int>>)
    requires SortedValues(t)
    ensures var r := FirstTwice(t, all);
      (r.Some? ==> r in t && Count(all, r) == 2 && forall x :: Some(x) in t && Count(all, Some(x)) == 2 ==> r.value <= x)
      && (r.None? ==> forall x :: Some(x) in t ==> Count(all, Some(x)) != 2)
  {
    if t != [] {
      assert SortedValues(t[1..]);
      FirstTwiceFacts(t[1..], all);
      assert forall x :: x in t <==> x == t[0] || x in t[1..];
      if t[0].Some? {
        forall x | Some(x) in t ensures t[0].value <= x {
          var k :| 0 <= k < |t| && t[k] == Some(x);
          assert Le(t[0], t[k]) || k == 0;
        }
      }
    }
  }

  /** `isBiggerCombination`: full houses compare the value of their pair,
      everything else compares the highest value. */
  predicate IsBigger(played: seq<Card>, current: seq<Card>, kind: Option<Combo>) {
    if kind != Some(FullHouse) then Greater(Last(CardValues(played)), Last(CardValues(current)))
    else Greater(PairValue(played), PairValue(current))
  }

  /** `isValidCombination`. A played kind of null on a non-empty table makes
      the source throw inside `startsWith`, hence the precondition. The third
      test of the source checks the played kind twice, as written here. */
  predicate IsValidCombination(played: seq<Card>, playedKind: Option<Combo>, table: Trick)
    requires playedKind.Some? || table.kind.None?
  {
    if table.kind.None? then true
    else
      var p := playedKind.value;
      var c := table.kind.value;
      if (IsBomb(p) && !IsBomb(c))
         || (p.BombStraight? && !c.BombStraight?)
         || (p.BombStraight? && p.BombStraight? && |played| > |table.cards|)
      then true
      else playedKind == table.kind && IsBigger(played, table.cards, table.kind)
  }
}
