/** The helpers of the game engine: shuffling and dealing the deck, seat
    arithmetic around the table, the card points of a pile, and the small
    tests the handlers use (all exchange cards sent, a team finished, the
    holder of the Mahjong). */
module Utils {
  import opened Wrappers
  import opened Seqs
  import opened Dicts
  import opened Constants

  // ---------------------------------------------------------------------
  // Shuffling: `randomizeDeck`

  /** The random choices of the swap loop: when the loop is at position i
      it swaps with position `js[i]`, any of 0 ... i. */
  predicate SwapChoices(js: seq<nat>, n: nat) {
    |js| == n && forall i :: 0 <= i < n ==> js[i] <= i
  }

  function Swap<T>(s: seq<T>, i: nat, j: nat): (r: seq<T>)
    requires i < |s| && j < |s|
    ensures |r| == |s|
  {
    s[i := s[j]][j := s[i]]
  }

  lemma SwapPermutation<T>(s: seq<T>, i: nat, j: nat)
    requires i < |s| && j < |s|
    ensures multiset(Swap(s, i, j)) == multiset(s)
  {
    assert s == s[..i] + [s[i]] + s[i + 1..];
  }

  /** The swaps of positions i, i-1, ..., 1 applied one after another. */
  function Shuffled<T>(s: seq<T>, js: seq<nat>, i: nat): seq<T>
    requires i < |s| && SwapChoices(js, |s|)
    decreases i
  {
    if i == 0 then s else Shuffled(Swap(s, i, js[i]), js, i - 1)
  }

  /** Whatever the choices, the swaps only rearrange the cards. */
  lemma {:induction false} ShuffledPermutation<T>(s: seq<T>, js: seq<nat>, i: nat)
    requires i < |s| && SwapChoices(js, |s|)
    ensures |Shuffled(s, js, i)| == |s|
    ensures multiset(Shuffled(s, js, i)) == multiset(s)
    decreases i
  {
    if i > 0 {
      SwapPermutation(s, i, js[i]);
      ShuffledPermutation(Swap(s, i, js[i]), js, i - 1);
    }
  }

  /** The Fisher-Yates loop of `randomizeDeck`, from the last position down
      to position 1, on the array holding the copy of the deck. */
  method ShuffleInPlace<T>(a: array<T>, js: seq<nat>)
    requires a.Length > 0 && SwapChoices(js, a.Length)
    modifies a
    ensures a[..] == Shuffled(old(a[..]), js, a.Length - 1)
  {
    var i := a.Length - 1;
    ghost var target := Shuffled(a[..], js, i);
    while i > 0
      invariant 0 <= i < a.Length
      invariant Shuffled(a[..], js, i) == target
      decreases i
    {
      var j := js[i];
      ghost var before := a[..];
      a[i], a[j] := a[j], a[i];
      assert a[..] == Swap(before, i, j);
      assert Shuffled(before, js, i) == Shuffled(Swap(before, i, j), js, i - 1);
      i := i - 1;
    }
  }

  /** `randomizeDeck`: a copy of the deck, shuffled with the random index of
      each step given by `js`. */
  method RandomizeDeck(js: seq<nat>) returns (shuffled: seq<Card>)
    requires SwapChoices(js, |Deck|)
    ensures shuffled == Shuffled(Deck, js, |Deck| - 1)
    ensures multiset(shuffled) == multiset(Deck)
  {
    var deck := Deck;
    DeckFacts();
    var a := new Card[|deck|](k requires 0 <= k < |deck| => deck[k]);
    assert a[..] == deck;
    ShuffleInPlace(a, js);
    shuffled := a[..];
    ShuffledPermutation(deck, js, |deck| - 1);
  }

  // ---------------------------------------------------------------------
  // Dealing: `chunkDeck`

  /** Cuts the deck into consecutive slices of `ChunkSize` cards. */
  method ChunkDeck(deck: seq<Card>) returns (chunks: seq<seq<Card>>)
    ensures chunks == SplitEvery(ChunkSize, deck)
    ensures Flatten(chunks) == deck
    ensures |deck| == |Deck| ==> |chunks| == MaxPlayers && forall c :: c in chunks ==> |c| == ChunkSize
  {
    DeckFacts();
    chunks := [];
    var i := 0;
    while i < |deck|
      invariant i % ChunkSize == 0
      invariant chunks + SplitEvery(ChunkSize, deck[Min(i, |deck|)..]) == SplitEvery(ChunkSize, deck)
      decreases |deck| - i
    {
      var end := Min(i + ChunkSize, |deck|);
      var rest := deck[i..];
      if |rest| > ChunkSize {
        assert rest[ChunkSize..] == deck[Min(i + ChunkSize, |deck|)..];
        assert rest[..ChunkSize] == deck[i..end];
      } else {
        assert rest == deck[i..end];
      }
      chunks := chunks + [deck[i..end]];
      i := i + ChunkSize;
    }
    FlattenSplit(ChunkSize, deck);
    if |deck| == |Deck| {
      SplitExact(ChunkSize, MaxPlayers, deck);
    }
  }

  function Min(a: int, b: int): int {
    if a < b then a else b
  }

  // ---------------------------------------------------------------------
  // Seats: `findPlayerNextTo` and `getNextPlayerNotFinished`

  /** The player `plus` seats after `playerId`; an absent player counts as
      sitting at position -1, as `indexOf` reports. */
  function FindPlayerNextTo(ids: seq<string>, playerId: string, plus: nat): (r: string)
    requires |ids| > 0 && (playerId in ids || plus > 0)
    ensures r in ids
  {
    ids[(IndexOf(ids, playerId) + plus) % |ids|]
  }

  lemma IndexOfDistinct<T(!new)>(s: seq<T>, k: nat)
    requires Distinct(s) && k < |s|
    ensures IndexOf(s, s[k]) == k
  {
  }

  /** The player m seats after position i, wrapping around. */
  function Seat(ids: seq<string>, i: nat, m: nat): string
    requires |ids| > 0
  {
    ids[(i + m) % |ids|]
  }

  lemma ModWrap(x: int, n: int)
    requires n > 0 && 0 <= x < 2 * n
    ensures x % n == if x < n then x else x - n
  {
    if x >= n {
      assert x == 1 * n + (x - n);
    }
  }

  lemma ModShift(x: int, n: int)
    requires n > 0 && -n <= x < n
    ensures x % n == if x >= 0 then x else x + n
  {
    if x < 0 {
      assert x == (-1) * n + (x + n);
    } else {
      assert x == 0 * n + x;
    }
  }

  /** At a table without repeated seats, `plus` steps from seat k reach
      seat (k + plus) mod n. */
  lemma NextToSeat(ids: seq<string>, k: nat, plus: nat)
    requires Distinct(ids) && k < |ids|
    ensures FindPlayerNextTo(ids, ids[k], plus) == Seat(ids, k, plus)
  {
    IndexOfDistinct(ids, k);
  }

  /** The three neighbours of a player at a table of four are the other three
      players, each once. */
  lemma Neighbours(ids: seq<string>, p: string)
    requires |ids| == 4 && Distinct(ids) && p in ids
    ensures var a, b, c := FindPlayerNextTo(ids, p, 1), FindPlayerNextTo(ids, p, 2), FindPlayerNextTo(ids, p, 3);
      a != p && b != p && c != p && a != b && a != c && b != c
      && forall q :: q in ids ==> q == p || q == a || q == b || q == c
  {
    var k := IndexOf(ids, p);
    NextToSeat(ids, k, 1);
    NextToSeat(ids, k, 2);
    NextToSeat(ids, k, 3);
    ModWrap(k + 1, 4);
    ModWrap(k + 2, 4);
    ModWrap(k + 3, 4);
    assert p == ids[k];
    forall q | q in ids ensures q == p || q == Seat(ids, k, 1) || q == Seat(ids, k, 2) || q == Seat(ids, k, 3) {
      var j :| 0 <= j < 4 && ids[j] == q;
      assert j == k || j == (k + 1) % 4 || j == (k + 2) % 4 || j == (k + 3) % 4;
    }
  }

  /** The smallest offset m >= k at which the seat m after position i holds a
      player who has not finished. */
  function FirstOffset(ids: seq<string>, i: nat, finished: seq<string>, k: nat): (m: nat)
    requires i < |ids| && 1 <= k <= |ids|
    requires exists m :: k <= m <= |ids| && Seat(ids, i, m) !in finished
    ensures k <= m <= |ids| && Seat(ids, i, m) !in finished
    ensures forall m' :: k <= m' < m ==> Seat(ids, i, m') in finished
    decreases |ids| - k
  {
    if Seat(ids, i, k) !in finished then k else FirstOffset(ids, i, finished, k + 1)
  }

  /** Every seat is some offset 1 ... n after any seat. */
  function OffsetTo(n: nat, i: nat, j: nat): (m: nat)
    requires i < n && j < n
    ensures 1 <= m <= n && (i + m) % n == j
  {
    var m := if j > i then j - i else j - i + n;
    ModWrap(i + m, n);
    m
  }

  /** `getNextPlayerNotFinished` as a value: the first player after
      `socketId`, in seating order and wrapping around, who has not finished. */
  function NextNotFinished(turnOrder: seq<string>, socketId: string, finished: seq<string>): (r: string)
    requires Distinct(turnOrder) && socketId in turnOrder
    requires exists q :: q in turnOrder && q !in finished
    ensures r in turnOrder && r !in finished
  {
    var i := IndexOf(turnOrder, socketId);
    var q :| q in turnOrder && q !in finished;
    var m0 := OffsetTo(|turnOrder|, i, IndexOf(turnOrder, q));
    assert Seat(turnOrder, i, m0) == q;
    Seat(turnOrder, i, FirstOffset(turnOrder, i, finished, 1))
  }

  /** The player found is the first one after `socketId`, in seating order
      and wrapping around, who has not finished: every seat passed on the
      way has. */
  lemma NextNotFinishedIsFirst(turnOrder: seq<string>, socketId: string, finished: seq<string>)
    requires Distinct(turnOrder) && socketId in turnOrder
    requires exists q :: q in turnOrder && q !in finished
    ensures exists m :: (1 <= m <= |turnOrder| && NextNotFinished(turnOrder, socketId, finished) == Seat(turnOrder, IndexOf(turnOrder, socketId), m)
      && forall m' :: 1 <= m' < m ==> Seat(turnOrder, IndexOf(turnOrder, socketId), m') in finished)
  {
    var i := IndexOf(turnOrder, socketId);
    var q :| q in turnOrder && q !in finished;
    var m0 := OffsetTo(|turnOrder|, i, IndexOf(turnOrder, q));
    assert Seat(turnOrder, i, m0) == q;
    var m := FirstOffset(turnOrder, i, finished, 1);
    assert NextNotFinished(turnOrder, socketId, finished) == Seat(turnOrder, i, m);
  }

  /** A player who has not finished hands on to somebody else as long as
      another player has not finished either. */
  lemma NextNotFinishedOther(turnOrder: seq<string>, socketId: string, finished: seq<string>)
    requires Distinct(turnOrder) && socketId in turnOrder && socketId !in finished
    requires exists q :: q in turnOrder && q != socketId && q !in finished
    ensures NextNotFinished(turnOrder, socketId, finished) != socketId
  {
    var n := |turnOrder|;
    var i := IndexOf(turnOrder, socketId);
    var q :| q in turnOrder && q != socketId && q !in finished;
    var j := IndexOf(turnOrder, q);
    var mq := OffsetTo(n, i, j);
    assert Seat(turnOrder, i, mq) == turnOrder[j];
    AwayFromHome(i, mq, n);
    assert mq < n by {
      assert j != i;
    }
    var m := FirstOffset(turnOrder, i, finished, 1);
    assert NextNotFinished(turnOrder, socketId, finished) == Seat(turnOrder, i, m);
    assert m <= mq;
    AwayFromHome(i, m, n);
    DistinctAt(turnOrder, (i + m) % n, i);
  }

  /** Going round a table of n seats from seat i, only the full circle
      comes back to seat i. */
  lemma AwayFromHome(i: nat, m: nat, n: nat)
    requires i < n && 1 <= m <= n
    ensures (i + m) % n == i <==> m == n
  {
    ModWrap(i + m, n);
  }

  /** The `while` loop of `getNextPlayerNotFinished`: step one seat at a time
      while the player reached has finished. The loop ends because some
      player has not finished and no seat is repeated. */
  method GetNextPlayerNotFinished(turnOrder: seq<string>, socketId: string, finished: seq<string>) returns (nextPlayer: string)
    requires Distinct(turnOrder) && socketId in turnOrder
    requires exists q :: q in turnOrder && q !in finished
    ensures nextPlayer == NextNotFinished(turnOrder, socketId, finished)
  {
    var n := |turnOrder|;
    var i := IndexOf(turnOrder, socketId);
    var q :| q in turnOrder && q !in finished;
    var m0 := OffsetTo(n, i, IndexOf(turnOrder, q));
    assert Seat(turnOrder, i, m0) == q;
    var first := FirstOffset(turnOrder, i, finished, 1);
    nextPlayer := FindPlayerNextTo(turnOrder, socketId, 1);
    var k := 1;
    NextToSeat(turnOrder, i, 1);
    while nextPlayer in finished
      invariant 1 <= k <= first
      invariant nextPlayer == Seat(turnOrder, i, k)
      decreases n - k
    {
      SeatStep(turnOrder, i, k);
      nextPlayer := FindPlayerNextTo(turnOrder, nextPlayer, 1);
      k := k + 1;
    }
  }

  /** One more step from the seat k after position i is the seat k + 1 after it. */
  lemma SeatStep(ids: seq<string>, i: nat, k: nat)
    requires Distinct(ids) && i < |ids| && 1 <= k < |ids|
    ensures FindPlayerNextTo(ids, Seat(ids, i, k), 1) == Seat(ids, i, k + 1)
  {
    var n := |ids|;
    var here := (i + k) % n;
    NextToSeat(ids, here, 1);
    ModWrap(i + k, n);
    ModWrap(here + 1, n);
    ModWrap(i + k + 1, n);
  }

  // ---------------------------------------------------------------------
  // Points: `countDeckScore`

  /** The points of one card: the Phoenix -25, the Dragon 25, a five 5, a
      ten or a king 10, anything else 0. */
  function CardScore(c: Card): int {
    match c
    case Phoenix => -25
    case Dragon => 25
    case Ranked(_, r) => if r == 5 then 5 else if r == 10 || r == 13 then 10 else 0
    case _ => 0
  }

  /** The `reduce` from the left with 0, adding each card's points. */
  function CountDeckScore(cards: seq<Card>): int {
    if cards == [] then 0 else CountDeckScore(cards[..|cards| - 1]) + CardScore(cards[|cards| - 1])
  }

  /** The points of two piles together are the sum of their points. */
  lemma {:induction false} ScoreAppend(a: seq<Card>, b: seq<Card>)
    ensures CountDeckScore(a + b) == CountDeckScore(a) + CountDeckScore(b)
    decreases |b|
  {
    if b != [] {
      var b' := b[..|b| - 1];
      var ab := a + b;
      assert ab != [];
      assert ab[..|ab| - 1] == a + b';
      assert CountDeckScore(b) == CountDeckScore(b') + CardScore(b[|b| - 1]);
      assert ab[|ab| - 1] == b[|b| - 1];
      ScoreAppend(a, b');
      assert CountDeckScore(ab) == CountDeckScore(a + b') + CardScore(b[|b| - 1]);
    } else {
      assert a + b == a;
    }
  }

  /** The points of a pile do not depend on the order of its cards. */
  lemma {:induction false} ScorePermutation(a: seq<Card>, b: seq<Card>)
    requires multiset(a) == multiset(b)
    ensures CountDeckScore(a) == CountDeckScore(b)
    decreases |a|
  {
    assert |a| == |multiset(a)| == |b|;
    if a != [] {
      var x := a[|a| - 1];
      var a' := a[..|a| - 1];
      assert a == a' + [x];
      assert x in multiset(b);
      var k :| 0 <= k < |b| && b[k] == x;
      var b' := b[..k] + b[k + 1..];
      assert b == b[..k] + [x] + b[k + 1..];
      calc {
        multiset(a');
        multiset(a) - multiset{x};
        multiset(b[..k]) + multiset{b[k]} + multiset(b[k + 1..]) - multiset{x};
        multiset(b');
      }
      ScorePermutation(a', b');
      ScoreAppend(b[..k] + [x], b[k + 1..]);
      ScoreAppend(b[..k], [x]);
      ScoreAppend(b[..k], b[k + 1..]);
      assert CountDeckScore([x]) == CardScore(x);
    }
  }

  lemma SuitScore(c: Color)
    ensures CountDeckScore(SuitCards(c)) == 25
  {
    var s := SuitCards(c);
    var lo := [Ranked(c, 2), Ranked(c, 3), Ranked(c, 4), Ranked(c, 5), Ranked(c, 6), Ranked(c, 7)];
    var hi := [Ranked(c, 8), Ranked(c, 9), Ranked(c, 10), Ranked(c, 11), Ranked(c, 12), Ranked(c, 13), Ranked(c, 14)];
    assert s == lo + hi;
    ScoreAppend(lo, hi);
    ScoreList(lo);
    ScoreList(hi);
    SumList(lo);
    SumList(hi);
  }

  /** The pile's score written out as the plain sum of its cards' points. */
  function SumScores(s: seq<Card>): int {
    if s == [] then 0 else CardScore(s[0]) + SumScores(s[1..])
  }

  lemma {:induction false} ScoreList(s: seq<Card>)
    ensures CountDeckScore(s) == SumScores(s)
    decreases |s|
  {
    if s != [] {
      assert s == [s[0]] + s[1..];
      ScoreAppend([s[0]], s[1..]);
      ScoreList(s[1..]);
      assert CountDeckScore([s[0]]) == CardScore(s[0]);
    }
  }

  lemma SumList(s: seq<Card>)
    requires |s| <= 7
    ensures SumScores(s) == (if |s| > 0 then CardScore(s[0]) else 0)
      + (if |s| > 1 then CardScore(s[1]) else 0) + (if |s| > 2 then CardScore(s[2]) else 0)
      + (if |s| > 3 then CardScore(s[3]) else 0) + (if |s| > 4 then CardScore(s[4]) else 0)
      + (if |s| > 5 then CardScore(s[5]) else 0) + (if |s| > 6 then CardScore(s[6]) else 0)
  {
    if s != [] {
      SumList(s[1..]);
    }
  }

  /** The whole deck is worth 100 points: 25 in each colour (a five, a ten
      and a king), and the Phoenix's -25 against the Dragon's 25. */
  lemma DeckScore()
    ensures CountDeckScore(Deck) == 100
  {
    var s0, s1, s2, s3 := SuitCards(R), SuitCards(G), SuitCards(U), SuitCards(B);
    SuitScore(R);
    SuitScore(G);
    SuitScore(U);
    SuitScore(B);
    ScoreAppend(s0, s1);
    ScoreAppend(s0 + s1, s2);
    ScoreAppend(s0 + s1 + s2, s3);
    ScoreAppend(s0 + s1 + s2 + s3, SpecialCards);
    ScoreList(SpecialCards);
  }

  /** Any shuffle of the deck is worth 100 points. */
  lemma ShuffledDeckScore(deck: seq<Card>)
    requires multiset(deck) == multiset(Deck)
    ensures CountDeckScore(deck) == 100
  {
    DeckScore();
    ScorePermutation(deck, Deck);
  }

  // ---------------------------------------------------------------------
  // Tests on the per-player objects

  /** `allCardsAreSent`: no entry is empty. */
  predicate AllCardsAreSent(sent: Dict<seq<Card>>) {
    forall i :: 0 <= i < |sent| ==> sent[i].val != []
  }

  /** With one entry per player, all cards are sent exactly when every
      player's entry is non-empty. */
  lemma AllCardsAreSentPerPlayer(sent: Dict<seq<Card>>, players: seq<string>)
    requires Keys(sent) == players && Distinct(players)
    ensures AllCardsAreSent(sent) <==> forall p :: p in players ==> Get(sent, p) != Some([])
  {
    forall i | 0 <= i < |sent| ensures Get(sent, sent[i].key) == Some(sent[i].val) {
      GetAt(sent, i);
    }
    forall p | p in players ensures exists i :: 0 <= i < |sent| && sent[i].key == p {
      var i :| 0 <= i < |players| && players[i] == p;
      assert sent[i].key == p;
    }
  }

  /** `didAnyTeamFinish`: the finished players, sorted, equal one team's
      players, sorted; comparing sorted lists is comparing multisets. */
  predicate DidAnyTeamFinish(newFinished: seq<string>, team0: seq<string>, team1: seq<string>) {
    multiset(newFinished) == multiset(team0) || multiset(newFinished) == multiset(team1)
  }

  /** A single finished player is never a whole team of two. */
  lemma OneIsNoTeam(p: string, team0: seq<string>, team1: seq<string>)
    requires |team0| == 2 && |team1| == 2
    ensures !DidAnyTeamFinish([p], team0, team1)
  {
    assert |multiset([p])| == 1;
    assert |multiset(team0)| == 2 && |multiset(team1)| == 2;
  }

  /** Two partners finished, in either order, are their team. */
  lemma PartnersAreTeam(a: string, b: string, team0: seq<string>, team1: seq<string>)
    requires team0 == [a, b] || team0 == [b, a]
    ensures DidAnyTeamFinish([a, b], team0, team1)
  {
  }

  /** `getPlayerOnPlay`: the first player, in key order, whose hand holds the
      Mahjong, or none. */
  function GetPlayerOnPlay(cards: Dict<seq<Card>>): (r: Option<string>)
    ensures r.None? <==> forall i :: 0 <= i < |cards| ==> Mahjong !in cards[i].val
    ensures r.Some? ==> exists i :: (0 <= i < |cards| && cards[i].key == r.value && Mahjong in cards[i].val
      && forall j :: 0 <= j < i ==> Mahjong !in cards[j].val)
  {
    if cards == [] then None
    else if Mahjong in cards[0].val then Some(cards[0].key)
    else
      var r := GetPlayerOnPlay(cards[1..]);
      if r.Some? then
        var i :| 0 <= i < |cards[1..]| && cards[1..][i].key == r.value && Mahjong in cards[1..][i].val
          && forall j :: 0 <= j < i ==> Mahjong !in cards[1..][j].val;
        assert cards[i + 1] == cards[1..][i];
        r
      else r
  }
}
