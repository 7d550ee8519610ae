/** The resolvers: the state changes that end a phase, a trick, a turn or
    the bonus-call window. Each resolver computes the new state of one room
    as a function of the state it reads and writes it to the store. */
module Resolvers {
  import opened Wrappers
  import opened Seqs
  import opened Dicts
  import opened Constants
  import opened Utils
  import opened GameStates
  import opened Store

  // ---------------------------------------------------------------------
  // The exchange: `resolveSwitchCards`

  /** A list-valued property `d[k]`, an absent key read as no cards. */
  function ListAt(d: Dict<seq<Card>>, k: string): seq<Card> {
    Get(d, k).GetOr([])
  }

  /** How many seats after seat `s` the player `r` sits. */
  function Offset(order: seq<string>, s: nat, r: string): nat
    requires s < |order|
  {
    // the seat difference modulo n; it lies in -n .. n - 1
    var d := IndexOf(order, r) - s;
    if d < 0 then d + |order| else d
  }

  /** The lists of the exchange object in seat order, an absent list read
      as no cards. */
  function SentLists(order: seq<string>, sent: Dict<seq<Card>>): (lists: seq<seq<Card>>)
    ensures |lists| == |order|
    ensures forall s :: 0 <= s < |order| ==> lists[s] == ListAt(sent, order[s])
  {
    seq(|order|, s requires 0 <= s < |order| => ListAt(sent, order[s]))
  }

  /** The card the player at seat `s` hands to `r`: the player `i` seats
      on receives the card at position i - 1 of the sender's list. Nobody
      hands a card to themselves or to somebody not seated, and a list too
      short for the position hands nothing. */
  function Gift(order: seq<string>, lists: seq<seq<Card>>, s: nat, r: string): seq<Card>
    requires s < |order| == |lists|
  {
    var cs := lists[s];
    var off := Offset(order, s, r);
    if r !in order || off == 0 || off - 1 >= |cs| then [] else [cs[off - 1]]
  }

  /** The cards `r` has received from the players at seats 0 ... s - 1,
      in seat order: the order the exchange loop pushes them in. */
  function ReceivedUpTo(order: seq<string>, lists: seq<seq<Card>>, r: string, s: nat): seq<Card>
    requires s <= |order| == |lists|
  {
    if s == 0 then [] else ReceivedUpTo(order, lists, r, s - 1) + Gift(order, lists, s - 1, r)
  }

  /** `newCards[r]` once every player has handed out their cards. */
  function Received(order: seq<string>, sent: Dict<seq<Card>>, r: string): seq<Card> {
    ReceivedUpTo(order, SentLists(order, sent), r, |order|)
  }

  /** `finalCards`: every hand, in key order, with the cards received put in
      front and the cards its owner sent filtered out. */
  function SwitchedHands(order: seq<string>, hands: Dict<seq<Card>>, sent: Dict<seq<Card>>): (r: Dict<seq<Card>>)
    ensures Keys(r) == Keys(hands)
  {
    seq(|hands|, i requires 0 <= i < |hands| =>
      Entry(hands[i].key, Without(Received(order, sent, hands[i].key) + hands[i].val, ListAt(sent, hands[i].key))))
  }

  /** The state `resolveSwitchCards` stores: the exchanged hands, the
      holder of the Mahjong on play (nobody, written "", if no hand holds
      it) and the play phase. */
  function SwitchCardsState(gs: GameState, sent: Dict<seq<Card>>): GameState {
    var hands := SwitchedHands(gs.turnOrder, gs.cards, sent);
    gs.(cards := hands, gamePart := PlayCards, onPlay := GetPlayerOnPlay(hands).GetOr(""))
  }

  /** The offset of the player `i` seats after seat `s` is `i`. */
  lemma OffsetOfSeat(order: seq<string>, s: nat, i: nat)
    requires Distinct(order) && s < |order| && i < |order|
    ensures Offset(order, s, order[(s + i) % |order|]) == i
  {
    var n := |order|;
    var j := (s + i) % n;
    ModWrap(s + i, n);
    IndexOfDistinct(order, j);
  }

  /** Going `Offset` seats on from seat `s` reaches `r`. */
  lemma SeatOfOffset(order: seq<string>, s: nat, r: string)
    requires s < |order| && r in order
    ensures Offset(order, s, r) < |order|
    ensures order[(s + Offset(order, s, r)) % |order|] == r
  {
    var n := |order|;
    ModWrap(s + Offset(order, s, r), n);
  }

  /** One step of the inner exchange loop: `id` is the only player whose
      received cards grow, by the gift of seat `s`. */
  lemma SwitchStep(order: seq<string>, sent: Dict<seq<Card>>, s: nat, i: nat, id: string, r: string)
    requires Distinct(order) && s < |order| && 1 <= i < |order| && id == order[(s + i) % |order|]
    ensures r == id ==> Offset(order, s, r) == i && r in order
    ensures r != id && r in order ==> Offset(order, s, r) != i
  {
    OffsetOfSeat(order, s, i);
    if r in order {
      SeatOfOffset(order, s, r);
    }
  }

  /** The inner loop of `resolveSwitchCards` for the player at seat `s`:
      for i = n - 1 down to 1, the card at position i - 1 of their list is
      pushed onto the cards of the player i seats on. */
  method HandOut(order: seq<string>, sent: Dict<seq<Card>>, s: nat, received: Dict<seq<Card>>) returns (newCards: Dict<seq<Card>>)
    requires Distinct(order) && s < |order|
    ensures forall r :: ListAt(newCards, r) == ListAt(received, r) + Gift(order, SentLists(order, sent), s, r)
  {
    newCards := received;
    var clientId := order[s];
    var cs := ListAt(sent, clientId);
    var i := |order| - 1;
    while i > 0
      invariant 0 <= i < |order|
      invariant forall r ::
        ListAt(newCards, r) == ListAt(received, r) + (if Offset(order, s, r) > i then Gift(order, SentLists(order, sent), s, r) else [])
    {
      var id := FindPlayerNextTo(order, clientId, i);
      NextToSeat(order, s, i);
      ghost var before := newCards;
      if Get(newCards, id).None? {
        newCards := Put(newCards, id, []);
      }
      if i - 1 < |cs| {
        newCards := Put(newCards, id, ListAt(newCards, id) + [cs[i - 1]]);
      }
      GiftAtSeat(order, sent, s, i);
      HandOutStep(order, sent, s, i, received, before, id, newCards);
      i := i - 1;
    }
  }

  /** The card seat `s` hands to the player `i` seats on. */
  lemma GiftAtSeat(order: seq<string>, sent: Dict<seq<Card>>, s: nat, i: nat)
    requires Distinct(order) && s < |order| && 1 <= i < |order|
    ensures var cs := ListAt(sent, order[s]);
      Gift(order, SentLists(order, sent), s, order[(s + i) % |order|]) == if i - 1 < |cs| then [cs[i - 1]] else []
  {
    OffsetOfSeat(order, s, i);
  }

  /** One step of the inner loop keeps its invariant: only `id` receives,
      and `id` is the player at offset `i`. */
  lemma HandOutStep(order: seq<string>, sent: Dict<seq<Card>>, s: nat, i: nat,
                    received: Dict<seq<Card>>, before: Dict<seq<Card>>, id: string, after: Dict<seq<Card>>)
    requires Distinct(order) && s < |order| && 1 <= i < |order| && id == order[(s + i) % |order|]
    requires forall r ::
      ListAt(before, r) == ListAt(received, r) + (if Offset(order, s, r) > i then Gift(order, SentLists(order, sent), s, r) else [])
    requires forall r :: r != id ==> Get(after, r) == Get(before, r)
    requires ListAt(after, id) == ListAt(before, id) + Gift(order, SentLists(order, sent), s, id)
    ensures forall r ::
      ListAt(after, r) == ListAt(received, r) + (if Offset(order, s, r) > i - 1 then Gift(order, SentLists(order, sent), s, r) else [])
  {
    forall r
      ensures ListAt(after, r) == ListAt(received, r) + (if Offset(order, s, r) > i - 1 then Gift(order, SentLists(order, sent), s, r) else [])
    {
      SwitchStep(order, sent, s, i, id, r);
    }
  }

  /** The outer loop of `resolveSwitchCards`, building `newCards`: every
      player hands out their cards in seat order. */
  method CollectSwitchedCards(order: seq<string>, sent: Dict<seq<Card>>) returns (newCards: Dict<seq<Card>>)
    requires Distinct(order) && |order| > 0
    ensures forall r :: ListAt(newCards, r) == Received(order, sent, r)
  {
    newCards := [];
    var s := 0;
    while s < |order|
      invariant 0 <= s <= |order|
      invariant CollectedUpTo(order, sent, newCards, s)
    {
      ghost var before := newCards;
      newCards := HandOut(order, sent, s, newCards);
      CollectStep(order, sent, s, before, newCards);
      s := s + 1;
    }
  }

  /** The invariant of the outer loop: every player holds what seats
      0 ... s - 1 have handed them. */
  ghost predicate CollectedUpTo(order: seq<string>, sent: Dict<seq<Card>>, newCards: Dict<seq<Card>>, s: nat) {
    s <= |order| && forall r :: ListAt(newCards, r) == ReceivedUpTo(order, SentLists(order, sent), r, s)
  }

  /** One step of the outer loop: after seat `s` has handed out, every
      player holds what seats 0 ... s have handed them. */
  lemma CollectStep(order: seq<string>, sent: Dict<seq<Card>>, s: nat, before: Dict<seq<Card>>, after: Dict<seq<Card>>)
    requires s < |order|
    requires CollectedUpTo(order, sent, before, s)
    requires forall r :: ListAt(after, r) == ListAt(before, r) + Gift(order, SentLists(order, sent), s, r)
    ensures CollectedUpTo(order, sent, after, s + 1)
  {
  }

  /** `resolveSwitchCards`. The emptied exchange object `resetSentCards`
      computes is not written back, so the entries stay in the store. */
  method ResolveSwitchCards(store: RoomStore, roomId: string)
    requires roomId in store.gameStates && roomId in store.sentCards
    requires Distinct(store.gameStates[roomId].turnOrder) && |store.gameStates[roomId].turnOrder| > 0
    modifies store
    ensures store.gameStates == old(store.gameStates)[roomId := SwitchCardsState(old(store.gameStates[roomId]), old(store.sentCards[roomId]))]
    ensures store.sentCards == old(store.sentCards) && store.tichus == old(store.tichus) && store.continues == old(store.continues)
  {
    var gameState := store.gameStates[roomId];
    var sent := store.sentCards[roomId];
    var newCards := CollectSwitchedCards(gameState.turnOrder, sent);
    var hands := gameState.cards;
    var finalCards := seq(|hands|, i requires 0 <= i < |hands| =>
      Entry(hands[i].key, Without(ListAt(newCards, hands[i].key) + hands[i].val, ListAt(sent, hands[i].key))));
    assert finalCards == SwitchedHands(gameState.turnOrder, hands, sent);
    var playerOnPlay := GetPlayerOnPlay(finalCards);
    var newGameState := gameState.(cards := finalCards, gamePart := PlayCards, onPlay := playerOnPlay.GetOr(""));
    store.SetGameState(roomId, newGameState);
    var emptied := store.ResetSentCards(roomId);
  }

  // ---------------------------------------------------------------------
  // The end of a trick: `resolveTurnEnd` and `resolveDragonSend`

  /** The state `resolveTurnEnd` stores: the pile of `sendDeckTo`, or of the
      trick's winner when nobody is named, gains the cards played this
      trick; the trick, its cards, the passes and the dragon flag start
      over; the winner leads, or the next player who has not finished if
      the winner has. A receiver without a pile makes the source throw
      before anything is stored, written None. */
  function TurnEndState(gs: GameState, sendDeckTo: Option<string>): (r: Option<GameState>)
    requires Valid(gs)
  {
    var winner := gs.currentCombination.playedBy;
    var receiver := sendDeckTo.GetOr(winner);
    if receiver !in Keys(gs.collectedCards) then None
    else
      SomeoneUnfinished(gs);
      var playerOnPlay := if winner in gs.finished then NextNotFinished(gs.turnOrder, winner, gs.finished) else winner;
      Some(gs.(
        collectedCards := Put(gs.collectedCards, receiver, At(gs.collectedCards, receiver) + gs.cardsPlayedThisTurn),
        cardsPlayedThisTurn := [],
        currentCombination := DefaultTrick,
        onPlay := playerOnPlay,
        numberOfPasses := 0,
        sendDeck := false))
  }

  /** `resolveTurnEnd`. */
  method ResolveTurnEnd(store: RoomStore, roomId: string, sendDeckTo: Option<string>)
    requires roomId in store.gameStates && Valid(store.gameStates[roomId])
    modifies store
    ensures TurnEndState(old(store.gameStates[roomId]), sendDeckTo).None? ==> store.gameStates == old(store.gameStates)
    ensures TurnEndState(old(store.gameStates[roomId]), sendDeckTo).Some? ==>
      store.gameStates == old(store.gameStates)[roomId := TurnEndState(old(store.gameStates[roomId]), sendDeckTo).value]
    ensures store.sentCards == old(store.sentCards) && store.tichus == old(store.tichus) && store.continues == old(store.continues)
  {
    var gameState := store.gameStates[roomId];
    var turnWinner := gameState.currentCombination.playedBy;
    var deckReceiver := sendDeckTo.GetOr(turnWinner);
    if deckReceiver !in Keys(gameState.collectedCards) {
      return;
    }
    var newCollectedCards := At(gameState.collectedCards, deckReceiver) + gameState.cardsPlayedThisTurn;
    var playerOnPlay := turnWinner;
    if turnWinner in gameState.finished {
      SomeoneUnfinished(gameState);
      playerOnPlay := GetNextPlayerNotFinished(gameState.turnOrder, turnWinner, gameState.finished);
    }
    var newGameState := gameState.(
      collectedCards := Put(gameState.collectedCards, deckReceiver, newCollectedCards),
      cardsPlayedThisTurn := [],
      currentCombination := DefaultTrick,
      onPlay := playerOnPlay,
      numberOfPasses := 0,
      sendDeck := false);
    store.SetGameState(roomId, newGameState);
  }

  /** The state `resolveDragonSend` stores: the trick's winner is on play
      and has to choose who receives the trick. */
  function DragonSendState(gs: GameState): GameState {
    gs.(onPlay := gs.currentCombination.playedBy, sendDeck := true)
  }

  /** `resolveDragonSend`. */
  method ResolveDragonSend(store: RoomStore, roomId: string)
    requires roomId in store.gameStates
    modifies store
    ensures store.gameStates == old(store.gameStates)[roomId := DragonSendState(old(store.gameStates[roomId]))]
    ensures store.sentCards == old(store.sentCards) && store.tichus == old(store.tichus) && store.continues == old(store.continues)
  {
    var gameState := store.gameStates[roomId];
    store.SetGameState(roomId, DragonSendState(gameState));
  }

  // ---------------------------------------------------------------------
  // The end of a turn: `resolveNormalEnd` and `resolveTeamEnd`

  /** The player `resolveNormalEnd` finds has not gone out. */
  function Loser(t: seq<string>, newFinished: seq<string>): (r: string)
    requires Distinct(t) && |newFinished| < |t|
    ensures r in t && r !in newFinished
  {
    SomeoneLeft(t, newFinished);
    FirstNotIn(t, newFinished)
  }

  /** The pile the winning team scores in a normal end: the cards on the
      table and the ones just played, the loser's pile, both winners' piles
      and the loser's hand. */
  function WinningPile(snap: GameState, loser: string, winners: seq<string>, cpt: seq<Card>, played: seq<Card>): seq<Card>
    requires Valid(snap) && loser in snap.turnOrder && |winners| == 2
    requires winners[0] in snap.turnOrder && winners[1] in snap.turnOrder
  {
    var c := snap.collectedCards;
    (cpt + played + At(c, loser)) + ((At(c, winners[0]) + At(c, winners[1])) + At(snap.cards, loser))
  }

  /** The teams after a normal end in which `loser` is left holding cards:
      the team without the loser scores the winning pile, the loser's team
      scores the pile of the loser's partner, and the two are sorted by
      index. */
  function NormalEndTeams(snap: GameState, loser: string, cpt: seq<Card>, played: seq<Card>): seq<Team>
    requires Valid(snap) && loser in snap.turnOrder
  {
    var t := snap.turnOrder;
    TeamsOfSeat(t, snap.teams, loser);
    var winners := TeamWithout(snap.teams, loser).players;
    var partner := Teammate(t, snap.teams, loser);
    var winningPile := WinningPile(snap, loser, winners, cpt, played);
    var losingPile := At(snap.collectedCards, partner);
    ScoreTeams(snap.teams, loser, CountDeckScore(losingPile), CountDeckScore(winningPile))
  }

  /** The state `resolveNormalEnd` stores, on top of the state `live` it
      reads from the store, from the snapshot `snap` the handler took: the
      scored teams, every hand emptied and the turn ended. */
  function NormalEndState(live: GameState, snap: GameState, newFinished: seq<string>, cpt: seq<Card>, played: seq<Card>): GameState
    requires Valid(snap) && |newFinished| == MaxPlayers - 1
  {
    live.(
      gamePart := TurnEnd,
      teams := NormalEndTeams(snap, Loser(snap.turnOrder, newFinished), cpt, played),
      cards := MapAlways(snap.cards, []))
  }

  /** `resolveNormalEnd`. */
  method ResolveNormalEnd(store: RoomStore, roomId: string, snap: GameState, newFinished: seq<string>, cpt: seq<Card>, played: seq<Card>)
    requires roomId in store.gameStates && Valid(snap) && |newFinished| == MaxPlayers - 1
    modifies store
    ensures store.gameStates == old(store.gameStates)[roomId := NormalEndState(old(store.gameStates[roomId]), snap, newFinished, cpt, played)]
    ensures store.sentCards == old(store.sentCards) && store.tichus == old(store.tichus) && store.continues == old(store.continues)
  {
    var live := store.gameStates[roomId];
    store.SetGameState(roomId, NormalEndState(live, snap, newFinished, cpt, played));
  }

  /** The state `resolveTeamEnd` stores: the team of the player who went
      out second after their partner gains 200, the other team keeps its
      score, the teams are sorted by index, every hand is emptied and the
      turn has ended. */
  function TeamEndState(live: GameState, snap: GameState, p: string): GameState
    requires Valid(snap) && p in snap.turnOrder
  {
    TeamsOfSeat(snap.turnOrder, snap.teams, p);
    live.(gamePart := TurnEnd, teams := AddScore(snap.teams, p, 200), cards := MapAlways(snap.cards, []))
  }

  /** `resolveTeamEnd`. */
  method ResolveTeamEnd(store: RoomStore, roomId: string, snap: GameState, p: string)
    requires roomId in store.gameStates && Valid(snap) && p in snap.turnOrder
    modifies store
    ensures store.gameStates == old(store.gameStates)[roomId := TeamEndState(old(store.gameStates[roomId]), snap, p)]
    ensures store.sentCards == old(store.sentCards) && store.tichus == old(store.tichus) && store.continues == old(store.continues)
  {
    var live := store.gameStates[roomId];
    store.SetGameState(roomId, TeamEndState(live, snap, p));
  }

  // ---------------------------------------------------------------------
  // Bonus calls: `resolveTichuPartEnd`, `resolveTichus`, `resolveFailOtherTichus`

  /** The state `resolveTichuPartEnd` stores once every player has
      answered: the grand-call window is followed by the small-call window,
      anything else by the exchange, and the answers become the calls in
      force. */
  function TichuPartEndState(gs: GameState, sentTichus: Dict<Option<Call>>, isBigTichuPart: bool): GameState {
    gs.(gamePart := if isBigTichuPart then SmallTichu else SendCards, tichu := sentTichus)
  }

  /** `resolveTichuPartEnd`: nothing happens before four answers are
      recorded; then the state advances and the answers are reset. */
  method ResolveTichuPartEnd(store: RoomStore, roomId: string, sentTichus: Dict<Option<Call>>, gameState: GameState, isBigTichuPart: bool)
    modifies store
    ensures |sentTichus| != MaxPlayers ==>
      store.gameStates == old(store.gameStates) && store.tichus == old(store.tichus)
    ensures |sentTichus| == MaxPlayers ==>
      store.gameStates == old(store.gameStates)[roomId := TichuPartEndState(gameState, sentTichus, isBigTichuPart)]
      && store.tichus == old(store.tichus)[roomId := []]
    ensures store.sentCards == old(store.sentCards) && store.continues == old(store.continues)
  {
    if |sentTichus| == MaxPlayers {
      store.SetGameState(roomId, TichuPartEndState(gameState, sentTichus, isBigTichuPart));
      store.ResetTichus(roomId);
    }
  }

  /** The points a bonus call is worth: 200 for a grand call, 100 for a
      small one. */
  function CallValue(c: Call): int {
    if c == BigCall then 200 else 100
  }

  /** `filter(identity)` on the calls in force: the entries holding a call,
      in key order. */
  function Called(d: Dict<Option<Call>>): Dict<Call> {
    if d == [] then []
    else
      var rest := Called(d[1..]);
      if d[0].val.Some? then [Entry(d[0].key, d[0].val.value)] + rest else rest
  }

  /** The calls kept are exactly the entries of `d` holding a call. */
  lemma {:induction false} CalledExactly(d: Dict<Option<Call>>)
    ensures forall i :: 0 <= i < |Called(d)| ==> Entry(Called(d)[i].key, Some(Called(d)[i].val)) in d
    ensures forall i :: 0 <= i < |d| && d[i].val.Some? ==> Entry(d[i].key, d[i].val.value) in Called(d)
  {
    if d != [] {
      CalledExactly(d[1..]);
      assert forall e :: e in d[1..] ==> e in d;
      assert forall i :: 1 <= i < |d| ==> d[i] == d[1..][i - 1];
    }
  }

  /** The calls with `p`'s entry set to null, keys and order kept. */
  function NullFor(d: Dict<Option<Call>>, p: string): (r: Dict<Option<Call>>)
    ensures Keys(r) == Keys(d)
    ensures forall i :: 0 <= i < |d| ==> r[i].val == if d[i].key == p then None else d[i].val
  {
    seq(|d|, i requires 0 <= i < |d| => if d[i].key == p then Entry(p, None) else d[i])
  }

  /** The state the success branch of `resolveTichus` stores on top of the
      state `live` it reads from the store: if `p` had called, the team of
      `p` in `teams` gains the call's value and `p`'s entry in `tichus` is
      nulled; otherwise nothing is stored. */
  function TichuSuccessState(live: GameState, teams: seq<Team>, p: string, tichus: Dict<Option<Call>>): (r: GameState)
    requires Valid(live) && Seating(live.turnOrder, teams) && p in live.turnOrder
    requires UniqueKeys(tichus) && forall k :: k in Keys(tichus) ==> k in live.turnOrder
    ensures Valid(r) && r.turnOrder == live.turnOrder
  {
    var entry := Get(tichus, p);
    if entry.Some? && entry.value.Some? then
      var points := CallValue(entry.value.value);
      AddScoreSeat(live.turnOrder, teams, p, points);
      var scored := AddScore(teams, p, points);
      var nulled := NullFor(tichus, p);
      ValidRescored(live, scored, nulled);
      live.(teams := scored, tichu := nulled)
    else live
  }

  /** One iteration of the loop of `resolveFailOtherTichus` for the entry
      (`key`, `call`), on the state read before the loop: the team of `key`
      loses the call's value and every entry is nulled. */
  function FailOne(gs: GameState, key: string, call: Call): (r: GameState)
    requires Seating(gs.turnOrder, gs.teams) && key in gs.turnOrder
  {
    AddScoreSeat(gs.turnOrder, gs.teams, key, -CallValue(call));
    gs.(teams := AddScore(gs.teams, key, -CallValue(call)), tichu := MapAlways(gs.tichu, None))
  }

  /** A deduction keeps a valid state valid. */
  lemma FailOneValid(gs: GameState, key: string, call: Call)
    requires Valid(gs) && key in gs.turnOrder
    ensures Valid(FailOne(gs, key, call))
  {
    AddScoreSeat(gs.turnOrder, gs.teams, key, -CallValue(call));
    ValidRescored(gs, AddScore(gs.teams, key, -CallValue(call)), MapAlways(gs.tichu, None));
  }

  /** Every player with a call in force has one. */
  lemma CalledAreSeated(gs: GameState)
    requires Valid(gs)
    ensures forall i :: 0 <= i < |Called(gs.tichu)| ==> Called(gs.tichu)[i].key in gs.turnOrder
  {
    var c := Called(gs.tichu);
    CalledExactly(gs.tichu);
    forall i | 0 <= i < |c| ensures c[i].key in gs.turnOrder {
      var j :| 0 <= j < |gs.tichu| && gs.tichu[j] == Entry(c[i].key, Some(c[i].val));
      assert Keys(gs.tichu)[j] == c[i].key;
    }
  }

  /** The state `resolveFailOtherTichus` leaves: unchanged without calls;
      otherwise every iteration stores its result computed from the same
      state read once, so the last entry's deduction is the one that
      stays. */
  function FailOthersState(gs: GameState): (r: GameState)
    requires Valid(gs)
    ensures Valid(r) && r.turnOrder == gs.turnOrder
  {
    if Called(gs.tichu) == [] then gs
    else
      var last := LastCalled(gs);
      FailOneValid(gs, last.key, last.val);
      FailOne(gs, last.key, last.val)
  }

  /** The call whose deduction `resolveFailOtherTichus` keeps: the last
      one in force, in key order; its caller is seated. */
  function LastCalled(gs: GameState): (r: Entry<Call>)
    requires Valid(gs) && Called(gs.tichu) != []
    ensures r.key in gs.turnOrder
  {
    CalledAreSeated(gs);
    Called(gs.tichu)[|Called(gs.tichu)| - 1]
  }

  /** `resolveFailOtherTichus`. */
  method ResolveFailOtherTichus(store: RoomStore, roomId: string)
    requires roomId in store.gameStates && Valid(store.gameStates[roomId])
    modifies store
    ensures store.gameStates == old(store.gameStates)[roomId := FailOthersState(old(store.gameStates[roomId]))]
    ensures store.sentCards == old(store.sentCards) && store.tichus == old(store.tichus) && store.continues == old(store.continues)
  {
    var gameState := store.gameStates[roomId];
    var filteredTichus := Called(gameState.tichu);
    ghost var before := store.gameStates;
    UpdateSame(before, roomId);
    if filteredTichus == [] {
      return;
    }
    CalledAreSeated(gameState);
    ghost var stored := gameState;
    ghost var last := filteredTichus[0];
    var k := 0;
    while k < |filteredTichus|
      invariant 0 <= k <= |filteredTichus|
      invariant store.gameStates == before[roomId := stored]
      invariant k > 0 ==> last == filteredTichus[k - 1] && stored == FailOne(gameState, last.key, last.val)
      invariant store.sentCards == old(store.sentCards) && store.tichus == old(store.tichus) && store.continues == old(store.continues)
    {
      var entry := filteredTichus[k];
      var newGameState := FailOne(gameState, entry.key, entry.val);
      UpdateTwice(before, roomId, stored, newGameState);
      store.SetGameState(roomId, newGameState);
      stored, last := newGameState, entry;
      k := k + 1;
    }
  }

  /** The state `resolveTichus` leaves: the success branch, then the
      failing calls on the state that branch stored. */
  function TichusResolvedState(live: GameState, teams: seq<Team>, p: string, tichus: Dict<Option<Call>>): (r: GameState)
    requires Valid(live) && Seating(live.turnOrder, teams) && p in live.turnOrder
    requires UniqueKeys(tichus) && forall k :: k in Keys(tichus) ==> k in live.turnOrder
    ensures Valid(r) && r.turnOrder == live.turnOrder
  {
    FailOthersState(TichuSuccessState(live, teams, p, tichus))
  }

  /** `resolveTichus` for the player `socketId` who went out first, with
      the teams and calls the handler read. */
  method ResolveTichus(store: RoomStore, roomId: string, teams: seq<Team>, socketId: string, tichus: Dict<Option<Call>>)
    requires roomId in store.gameStates && Valid(store.gameStates[roomId])
    requires Seating(store.gameStates[roomId].turnOrder, teams) && socketId in store.gameStates[roomId].turnOrder
    requires UniqueKeys(tichus) && forall k :: k in Keys(tichus) ==> k in store.gameStates[roomId].turnOrder
    modifies store
    ensures store.gameStates == old(store.gameStates)[roomId := TichusResolvedState(old(store.gameStates[roomId]), teams, socketId, tichus)]
    ensures store.sentCards == old(store.sentCards) && store.tichus == old(store.tichus) && store.continues == old(store.continues)
  {
    var live := store.gameStates[roomId];
    var socketsTichu := Get(tichus, socketId);
    ghost var before := store.gameStates;
    if socketsTichu.Some? && socketsTichu.value.Some? {
      var points := CallValue(socketsTichu.value.value);
      AddScoreSeat(live.turnOrder, teams, socketId, points);
      var newGameState := live.(teams := AddScore(teams, socketId, points), tichu := NullFor(tichus, socketId));
      store.SetGameState(roomId, newGameState);
    }
    var middle := store.gameStates[roomId];
    assert middle == TichuSuccessState(live, teams, socketId, tichus);
    ResolveFailOtherTichus(store, roomId);
    if socketsTichu.Some? && socketsTichu.value.Some? {
      UpdateTwice(before, roomId, middle, FailOthersState(middle));
    }
  }
}
