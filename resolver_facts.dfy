/** What the resolvers promise: the routing of the exchange, the piles and
    the lead after a trick, the scoring of both ends of a turn, the bonus
    payouts, and that every resolver keeps a room's state valid. */
module ResolverFacts {
  import opened Wrappers
  import opened Seqs
  import opened Dicts
  import opened Constants
  import opened Utils
  import opened GameStates
  import opened Resolvers

  // ---------------------------------------------------------------------
  // The exchange

  /** A sender's own seat is the only one at offset 0. */
  lemma OffsetZero(order: seq<string>, s: nat, j: nat)
    requires Distinct(order) && s < |order| && j < |order|
    ensures Offset(order, s, order[j]) == 0 <==> s == j
    ensures Offset(order, s, order[j]) < |order|
  {
    IndexOfDistinct(order, j);
  }

  /** With lists of n - 1 cards every other seat hands the player at seat
      j exactly one card, and seat j hands them none. */
  lemma GiftLength(order: seq<string>, lists: seq<seq<Card>>, s: nat, j: nat)
    requires Distinct(order) && s < |order| == |lists| && j < |order|
    requires forall k :: 0 <= k < |order| ==> |lists[k]| >= |order| - 1
    ensures |Gift(order, lists, s, order[j])| == if s == j then 0 else 1
  {
    OffsetZero(order, s, j);
    assert order[j] in order;
  }

  /** When every list holds at least n - 1 cards, the player at seat j has
      received one card from each of the players at seats 0 ... s - 1
      other than themselves. */
  lemma {:induction false} ReceivedUpToLength(order: seq<string>, lists: seq<seq<Card>>, j: nat, s: nat)
    requires Distinct(order) && j < |order| == |lists| && s <= |order|
    requires forall k :: 0 <= k < |order| ==> |lists[k]| >= |order| - 1
    ensures |ReceivedUpTo(order, lists, order[j], s)| == if s > j then s - 1 else s
  {
    if s > 0 {
      ReceivedUpToLength(order, lists, j, s - 1);
      GiftLength(order, lists, s - 1, j);
    }
  }

  /** Every seated player receives exactly n - 1 cards when every player
      sends n - 1: three cards at a table of four. */
  lemma ReceivedLength(order: seq<string>, sent: Dict<seq<Card>>, j: nat)
    requires Distinct(order) && j < |order|
    requires forall k :: 0 <= k < |order| ==> |ListAt(sent, order[k])| >= |order| - 1
    ensures |Received(order, sent, order[j])| == |order| - 1
  {
    ReceivedUpToLength(order, SentLists(order, sent), j, |order|);
  }

  /** A card received from the players before seat a is still there once
      the players before seat b have handed out, for a <= b. */
  lemma {:induction false} ReceivedUpToGrows(order: seq<string>, lists: seq<seq<Card>>, r: string, a: nat, b: nat, x: Card)
    requires a <= b <= |order| == |lists| && x in ReceivedUpTo(order, lists, r, a)
    ensures x in ReceivedUpTo(order, lists, r, b)
    decreases b - a
  {
    if a < b {
      ReceivedUpToGrows(order, lists, r, a, b - 1, x);
    }
  }

  /** The exchange routing: the player `i` seats after the sender at seat
      `s` receives the card at position i - 1 of the sender's list. */
  lemma SentCardArrives(order: seq<string>, sent: Dict<seq<Card>>, s: nat, i: nat)
    requires Distinct(order) && s < |order| && 1 <= i < |order|
    requires i - 1 < |ListAt(sent, order[s])|
    ensures ListAt(sent, order[s])[i - 1] in Received(order, sent, FindPlayerNextTo(order, order[s], i))
  {
    var r := FindPlayerNextTo(order, order[s], i);
    NextToSeat(order, s, i);
    GiftAtSeat(order, sent, s, i);
    assert ReceivedUpTo(order, SentLists(order, sent), r, s + 1) == ReceivedUpTo(order, SentLists(order, sent), r, s) + Gift(order, SentLists(order, sent), s, r);
    ReceivedUpToGrows(order, SentLists(order, sent), r, s + 1, |order|, ListAt(sent, order[s])[i - 1]);
  }

  /** After the exchange the hand of seat k is the cards it received
      followed by its old hand, without the cards it sent. */
  lemma SwitchedHandOf(gs: GameState, sent: Dict<seq<Card>>, k: nat)
    requires Valid(gs) && k < MaxPlayers
    ensures var p := gs.turnOrder[k];
      Get(SwitchCardsState(gs, sent).cards, p)
        == Some(Without(Received(gs.turnOrder, sent, p) + At(gs.cards, p), ListAt(sent, p)))
  {
    var hands := SwitchedHands(gs.turnOrder, gs.cards, sent);
    GetAt(gs.cards, k);
    GetAt(hands, k);
  }

  /** The exchange keeps the state valid and starts the play phase;
      nothing but the hands, the phase and the player on play changes. */
  lemma SwitchCardsValid(gs: GameState, sent: Dict<seq<Card>>)
    requires Valid(gs)
    ensures var r := SwitchCardsState(gs, sent);
      Valid(r) && r.gamePart == PlayCards
      && r.(cards := gs.cards, gamePart := gs.gamePart, onPlay := gs.onPlay) == gs
  {
  }

  /** After the exchange the lead goes to a holder of the Mahjong, or to
      nobody, written "", when no hand holds it. */
  lemma SwitchCardsLead(gs: GameState, sent: Dict<seq<Card>>)
    requires Valid(gs)
    ensures var r := SwitchCardsState(gs, sent);
      (GetPlayerOnPlay(r.cards).Some? ==> Mahjong in ListAt(r.cards, r.onPlay))
      && (GetPlayerOnPlay(r.cards).None? ==> r.onPlay == "" && forall p :: p in gs.turnOrder ==> Mahjong !in ListAt(r.cards, p))
  {
    var hands := SwitchedHands(gs.turnOrder, gs.cards, sent);
    assert UniqueKeys(hands);
    var who := GetPlayerOnPlay(hands);
    if who.Some? {
      var i :| 0 <= i < |hands| && hands[i].key == who.value && Mahjong in hands[i].val;
      GetAt(hands, i);
    } else {
      forall p | p in gs.turnOrder ensures Mahjong !in ListAt(hands, p) {
        var i := IndexOf(gs.turnOrder, p);
        assert Keys(hands)[i] == p;
        GetAt(hands, i);
        assert Mahjong !in hands[i].val;
      }
    }
  }

  // ---------------------------------------------------------------------
  // The end of a trick

  /** `resolveTurnEnd` fails exactly when the receiver is not seated; the
      receiver's pile grows by the cards of the trick and every other pile
      and every hand stays as it was. */
  lemma TurnEndPiles(gs: GameState, sendDeckTo: Option<string>)
    requires Valid(gs)
    ensures var receiver := sendDeckTo.GetOr(gs.currentCombination.playedBy);
      var r := TurnEndState(gs, sendDeckTo);
      (r.None? <==> receiver !in gs.turnOrder)
      && (r.Some? ==>
        Get(r.value.collectedCards, receiver) == Some(At(gs.collectedCards, receiver) + gs.cardsPlayedThisTurn)
        && (forall k :: k != receiver ==> Get(r.value.collectedCards, k) == Get(gs.collectedCards, k))
        && r.value.cards == gs.cards)
  {
  }

  /** After a trick the trick, its cards, the passes and the dragon flag
      start over, the winner leads unless they have gone out, in which case the
      next player who has not leads, and the state stays valid. */
  lemma TurnEndResets(gs: GameState, sendDeckTo: Option<string>)
    requires Valid(gs) && TurnEndState(gs, sendDeckTo).Some?
    ensures var r := TurnEndState(gs, sendDeckTo).value;
      var winner := gs.currentCombination.playedBy;
      Valid(r)
      && r.currentCombination == DefaultTrick && r.cardsPlayedThisTurn == [] && r.numberOfPasses == 0 && !r.sendDeck
      && r.onPlay !in gs.finished
      && (winner !in gs.finished ==> r.onPlay == winner)
      && r.finished == gs.finished && r.teams == gs.teams && r.gamePart == gs.gamePart
  {
    var r := TurnEndState(gs, sendDeckTo).value;
    var receiver := sendDeckTo.GetOr(gs.currentCombination.playedBy);
    PutUnique(gs.collectedCards, receiver, At(gs.collectedCards, receiver) + gs.cardsPlayedThisTurn);
  }

  /** `resolveDragonSend` changes nothing but the player on play and the
      dragon flag, keeps the state valid, and the turn end that follows
      once the deck is sent is the one that would have happened without
      the stop. */
  lemma DragonSendFacts(gs: GameState, sendDeckTo: Option<string>)
    requires Valid(gs)
    ensures var r := DragonSendState(gs);
      Valid(r) && r.sendDeck && r.onPlay == gs.currentCombination.playedBy
      && r.(onPlay := gs.onPlay, sendDeck := gs.sendDeck) == gs
      && TurnEndState(r, sendDeckTo) == TurnEndState(gs, sendDeckTo)
  {
  }

  // ---------------------------------------------------------------------
  // The end of a turn

  /** With three distinct players out, the loser is the only seated player
      who has not gone out. */
  lemma LoserIsLast(t: seq<string>, newFinished: seq<string>, q: string)
    requires |t| == MaxPlayers && Distinct(t) && |newFinished| == MaxPlayers - 1 && Distinct(newFinished)
    requires forall p :: p in newFinished ==> p in t
    requires q in t && q !in newFinished
    ensures q == Loser(t, newFinished)
  {
    var loser := Loser(t, newFinished);
    if q != loser {
      var all, out := set p | p in t, set p | p in newFinished;
      DistinctCard(t);
      DistinctCard(newFinished);
      SubsetCard(out, all - {q, loser});
      assert false;
    }
  }

  /** The points of the winning pile are the points of its six parts. */
  lemma WinningPileScore(snap: GameState, loser: string, winners: seq<string>, cpt: seq<Card>, played: seq<Card>)
    requires Valid(snap) && loser in snap.turnOrder && |winners| == 2
    requires winners[0] in snap.turnOrder && winners[1] in snap.turnOrder
    ensures var c := snap.collectedCards;
      CountDeckScore(WinningPile(snap, loser, winners, cpt, played))
        == CountDeckScore(cpt) + CountDeckScore(played) + CountDeckScore(At(c, loser))
           + CountDeckScore(At(c, winners[0])) + CountDeckScore(At(c, winners[1]))
           + CountDeckScore(At(snap.cards, loser))
  {
    var c := snap.collectedCards;
    ScoreAppend(cpt, played);
    ScoreAppend(cpt + played, At(c, loser));
    ScoreAppend(At(c, winners[0]), At(c, winners[1]));
    ScoreAppend(At(c, winners[0]) + At(c, winners[1]), At(snap.cards, loser));
    ScoreAppend(cpt + played + At(c, loser), (At(c, winners[0]) + At(c, winners[1])) + At(snap.cards, loser));
  }

  /** After a normal end both teams keep their players and positions. */
  lemma NormalEndSeated(snap: GameState, loser: string, cpt: seq<Card>, played: seq<Card>)
    requires Valid(snap) && loser in snap.turnOrder
    ensures Seating(snap.turnOrder, NormalEndTeams(snap, loser, cpt, played))
  {
    TeamsOfSeat(snap.turnOrder, snap.teams, loser);
  }

  /** The loser's team gains the points of the pile of the loser's
      partner. */
  lemma NormalEndLosingScore(snap: GameState, loser: string, cpt: seq<Card>, played: seq<Card>)
    requires Valid(snap) && loser in snap.turnOrder
    ensures var i := TeamOf(snap.turnOrder, loser);
      var r := NormalEndTeams(snap, loser, cpt, played);
      |r| == 2 && r[i].score == snap.teams[i].score + CountDeckScore(At(snap.collectedCards, Teammate(snap.turnOrder, snap.teams, loser)))
  {
    TeamsOfSeat(snap.turnOrder, snap.teams, loser);
  }

  /** The other team gains the points of the winning pile. */
  lemma NormalEndWinningScore(snap: GameState, loser: string, cpt: seq<Card>, played: seq<Card>)
    requires Valid(snap) && loser in snap.turnOrder
    ensures var i := TeamOf(snap.turnOrder, loser);
      var r := NormalEndTeams(snap, loser, cpt, played);
      |r| == 2 && r[1 - i].score == snap.teams[1 - i].score + CountDeckScore(WinningPile(snap, loser, TeamWithout(snap.teams, loser).players, cpt, played))
  {
    TeamsOfSeat(snap.turnOrder, snap.teams, loser);
  }

  /** A normal end ends the turn and keeps the state valid. */
  lemma NormalEndValid(live: GameState, snap: GameState, newFinished: seq<string>, cpt: seq<Card>, played: seq<Card>)
    requires Valid(snap) && Valid(live) && live.turnOrder == snap.turnOrder && |newFinished| == MaxPlayers - 1
    ensures var r := NormalEndState(live, snap, newFinished, cpt, played);
      Valid(r) && r.gamePart == TurnEnd
  {
    var loser := Loser(snap.turnOrder, newFinished);
    NormalEndSeated(snap, loser, cpt, played);
    ValidEnded(live, TurnEnd, NormalEndTeams(snap, loser, cpt, played), MapAlways(snap.cards, []));
  }

  /** A normal end empties every hand of the snapshot and changes nothing
      else of the state the store held but the teams and the game part. */
  lemma NormalEndKeeps(live: GameState, snap: GameState, newFinished: seq<string>, cpt: seq<Card>, played: seq<Card>)
    requires Valid(snap) && |newFinished| == MaxPlayers - 1
    ensures var r := NormalEndState(live, snap, newFinished, cpt, played);
      Keys(r.cards) == snap.turnOrder && (forall j :: 0 <= j < |r.cards| ==> r.cards[j].val == [])
      && r.(gamePart := live.gamePart, teams := live.teams, cards := live.cards) == live
  {
  }

  /** A team end gives the team of the player who went out 200 points and
      leaves the other team's score as it was. */
  lemma TeamEndScores(live: GameState, snap: GameState, p: string)
    requires Valid(snap) && p in snap.turnOrder
    ensures var i := TeamOf(snap.turnOrder, p);
      var r := TeamEndState(live, snap, p);
      Seating(snap.turnOrder, r.teams)
      && r.teams[i].score == snap.teams[i].score + 200
      && r.teams[1 - i].score == snap.teams[1 - i].score
  {
    AddScoreSeat(snap.turnOrder, snap.teams, p, 200);
  }

  /** A team end ends the turn and keeps the state valid. */
  lemma TeamEndValid(live: GameState, snap: GameState, p: string)
    requires Valid(snap) && Valid(live) && live.turnOrder == snap.turnOrder && p in snap.turnOrder
    ensures var r := TeamEndState(live, snap, p);
      Valid(r) && r.gamePart == TurnEnd
  {
    AddScoreSeat(snap.turnOrder, snap.teams, p, 200);
    ValidEnded(live, TurnEnd, AddScore(snap.teams, p, 200), MapAlways(snap.cards, []));
  }

  /** A team end empties every hand of the snapshot and changes nothing else
      of the state the store held but the teams and the game part. */
  lemma TeamEndKeeps(live: GameState, snap: GameState, p: string)
    requires Valid(snap) && p in snap.turnOrder
    ensures var r := TeamEndState(live, snap, p);
      Keys(r.cards) == snap.turnOrder && (forall j :: 0 <= j < |r.cards| ==> r.cards[j].val == [])
      && r.(gamePart := live.gamePart, teams := live.teams, cards := live.cards) == live
  {
  }

  // ---------------------------------------------------------------------
  // The bonus calls

  /** Four answers from seated players, one per player, are an answer from
      every seated player. */
  lemma AllAnswered(t: seq<string>, sentTichus: Dict<Option<Call>>)
    requires |t| == MaxPlayers && Distinct(t) && |sentTichus| == MaxPlayers && UniqueKeys(sentTichus)
    requires forall k :: k in Keys(sentTichus) ==> k in t
    ensures forall p :: p in t ==> p in Keys(sentTichus)
  {
    var ks, all := set k | k in Keys(sentTichus), set p | p in t;
    DistinctCard(Keys(sentTichus));
    DistinctCard(t);
    forall p | p in t ensures p in Keys(sentTichus) {
      if p !in ks {
        SubsetCard(ks, all - {p});
        assert false;
      }
    }
  }

  /** The end of a bonus-call window moves the grand-call window to the
      small-call window and any other to the exchange, puts the answers in
      force and keeps the state valid when the answers come from seated
      players; nothing else changes. */
  lemma TichuPartEndFacts(gs: GameState, sentTichus: Dict<Option<Call>>, isBigTichuPart: bool)
    requires Valid(gs) && UniqueKeys(sentTichus) && forall k :: k in Keys(sentTichus) ==> k in gs.turnOrder
    ensures var r := TichuPartEndState(gs, sentTichus, isBigTichuPart);
      Valid(r) && r.tichu == sentTichus
      && (isBigTichuPart ==> r.gamePart == SmallTichu) && (!isBigTichuPart ==> r.gamePart == SendCards)
      && r.(gamePart := gs.gamePart, tichu := gs.tichu) == gs
  {
  }

  /** A successful call: the caller's team gains 200 for a grand call and
      100 for a small one and the other team keeps its score. */
  lemma TichuSuccessScores(live: GameState, teams: seq<Team>, p: string, tichus: Dict<Option<Call>>)
    requires Valid(live) && Seating(live.turnOrder, teams) && p in live.turnOrder
    requires UniqueKeys(tichus) && forall k :: k in Keys(tichus) ==> k in live.turnOrder
    requires Get(tichus, p).Some? && Get(tichus, p).value.Some?
    ensures var r := TichuSuccessState(live, teams, p, tichus);
      var i := TeamOf(live.turnOrder, p);
      r.teams[i].score == teams[i].score + CallValue(Get(tichus, p).value.value)
      && r.teams[1 - i].score == teams[1 - i].score
  {
    AddScoreSeat(live.turnOrder, teams, p, CallValue(Get(tichus, p).value.value));
  }

  /** A successful call nulls the caller's entry and keeps every other
      entry. */
  lemma TichuSuccessNulls(live: GameState, teams: seq<Team>, p: string, tichus: Dict<Option<Call>>)
    requires Valid(live) && Seating(live.turnOrder, teams) && p in live.turnOrder
    requires UniqueKeys(tichus) && forall k :: k in Keys(tichus) ==> k in live.turnOrder
    requires Get(tichus, p).Some? && Get(tichus, p).value.Some?
    ensures var r := TichuSuccessState(live, teams, p, tichus);
      Get(r.tichu, p) == Some(None) && forall k :: k != p ==> Get(r.tichu, k) == Get(tichus, k)
  {
    var n := NullFor(tichus, p);
    assert Keys(n) == Keys(tichus);
    forall k ensures Get(n, k) == if k == p then Some(None) else Get(tichus, k) {
      var j := IndexOf(Keys(tichus), k);
      if j >= 0 {
        GetAt(tichus, j);
        GetAt(n, j);
      }
    }
  }

  /** Without a call in force for the player who went out first, the
      success branch stores nothing. */
  lemma TichuSuccessNone(live: GameState, teams: seq<Team>, p: string, tichus: Dict<Option<Call>>)
    requires Valid(live) && Seating(live.turnOrder, teams) && p in live.turnOrder
    requires UniqueKeys(tichus) && forall k :: k in Keys(tichus) ==> k in live.turnOrder
    requires !(Get(tichus, p).Some? && Get(tichus, p).value.Some?)
    ensures TichuSuccessState(live, teams, p, tichus) == live
  {
  }

  /** `resolveFailOtherTichus` with a call in force: only the last caller's
      team, in key order, loses the value of that call; the other team keeps
      its score. */
  lemma FailOthersLastWins(gs: GameState)
    requires Valid(gs) && Called(gs.tichu) != []
    ensures var called := Called(gs.tichu);
      var last := called[|called| - 1];
      var i := TeamOf(gs.turnOrder, last.key);
      var r := FailOthersState(gs);
      r.teams[i].score == gs.teams[i].score - CallValue(last.val)
      && r.teams[1 - i].score == gs.teams[1 - i].score
  {
    var called := Called(gs.tichu);
    CalledAreSeated(gs);
    var last := called[|called| - 1];
    AddScoreSeat(gs.turnOrder, gs.teams, last.key, -CallValue(last.val));
  }

  /** `resolveFailOtherTichus` with a call in force nulls every entry and
      keeps the keys. */
  lemma FailOthersNulls(gs: GameState)
    requires Valid(gs) && Called(gs.tichu) != []
    ensures var r := FailOthersState(gs);
      Keys(r.tichu) == Keys(gs.tichu) && forall j :: 0 <= j < |r.tichu| ==> r.tichu[j].val == None
  {
    CalledAreSeated(gs);
  }

  /** Without a call in force `resolveFailOtherTichus` changes nothing. */
  lemma FailOthersNone(gs: GameState)
    requires Valid(gs) && Called(gs.tichu) == []
    ensures FailOthersState(gs) == gs
  {
  }
}
