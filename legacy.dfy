/** The older single-file copy of the engine, `index.js`, where it behaves
    differently from the modular one: `failOtherTichus` reads the live
    state on every iteration, so the deductions of several failed calls add
    up, and the `playCards` handler applies every play without a legality
    test and builds the state it stores from the live state, so the bonus
    points of the first player out survive. Everything else it shares with
    the modular copy (see the README). */
module Legacy {
  import opened Wrappers
  import opened Seqs
  import opened Dicts
  import opened Constants
  import opened Utils
  import opened GameStates
  import opened CombinationResolver
  import opened Store
  import opened Resolvers
  import opened ResolverFacts
  import opened GameActions

  // ---------------------------------------------------------------------
  // `failOtherTichus`

  /** Every entry of `calls` belongs to a seated player. */
  predicate CallsSeated(t: seq<string>, calls: Dict<Call>) {
    forall i :: 0 <= i < |calls| ==> calls[i].key in t
  }

  /** The loop of `failOtherTichus` over the failed calls `calls`, each
      iteration deducting from the state the previous one stored. */
  function FailAll(gs: GameState, calls: Dict<Call>): (r: GameState)
    requires Valid(gs) && CallsSeated(gs.turnOrder, calls)
    ensures Valid(r) && r.turnOrder == gs.turnOrder
    decreases |calls|
  {
    if calls == [] then gs
    else
      FailOneValid(gs, calls[0].key, calls[0].val);
      FailAll(FailOne(gs, calls[0].key, calls[0].val), calls[1..])
  }

  /** The state `failOtherTichus` leaves. */
  function LegacyFailOthersState(gs: GameState): (r: GameState)
    requires Valid(gs)
    ensures Valid(r) && r.turnOrder == gs.turnOrder
  {
    CalledAreSeated(gs);
    FailAll(gs, Called(gs.tichu))
  }

  /** `failOtherTichus`. */
  method LegacyFailOtherTichus(store: RoomStore, roomId: string)
    requires roomId in store.gameStates && Valid(store.gameStates[roomId])
    modifies store
    ensures store.gameStates == old(store.gameStates)[roomId := LegacyFailOthersState(old(store.gameStates[roomId]))]
    ensures store.sentCards == old(store.sentCards) && store.tichus == old(store.tichus) && store.continues == old(store.continues)
  {
    var gameState := store.gameStates[roomId];
    var filteredTichus := Called(gameState.tichu);
    ghost var before := store.gameStates;
    UpdateSame(before, roomId);
    if filteredTichus == [] {
      return;
    }
    CalledAreSeated(gameState);
    ghost var stored := gameState;
    var k := 0;
    while k < |filteredTichus|
      invariant 0 <= k <= |filteredTichus|
      invariant Valid(stored) && stored.turnOrder == gameState.turnOrder
      invariant store.gameStates == before[roomId := stored]
      invariant FailAll(stored, filteredTichus[k..]) == FailAll(gameState, filteredTichus)
      invariant store.sentCards == old(store.sentCards) && store.tichus == old(store.tichus) && store.continues == old(store.continues)
    {
      var entry := filteredTichus[k];
      var current := store.gameStates[roomId];
      var newGameState := FailOne(current, entry.key, entry.val);
      FailOneValid(current, entry.key, entry.val);
      assert filteredTichus[k..][1..] == filteredTichus[k + 1..];
      UpdateTwice(before, roomId, stored, newGameState);
      store.SetGameState(roomId, newGameState);
      stored := newGameState;
      k := k + 1;
    }
  }

  /** The points the calls in `calls` made by the team at position `i`
      cost that team. */
  function Deducted(t: seq<string>, calls: Dict<Call>, i: nat): int
    requires |t| == MaxPlayers
  {
    if calls == [] then 0
    else (if TeamOf(t, calls[0].key) == i then CallValue(calls[0].val) else 0) + Deducted(t, calls[1..], i)
  }

  /** The deductions add up: each team loses the value of every failed call
      of its players, and the seating stays. */
  lemma {:induction false} FailAllAccumulates(gs: GameState, calls: Dict<Call>, i: nat)
    requires Valid(gs) && CallsSeated(gs.turnOrder, calls) && i < 2
    ensures FailAll(gs, calls).teams[i].score == gs.teams[i].score - Deducted(gs.turnOrder, calls, i)
    decreases |calls|
  {
    if calls != [] {
      var c := calls[0];
      AddScoreSeat(gs.turnOrder, gs.teams, c.key, -CallValue(c.val));
      FailOneValid(gs, c.key, c.val);
      FailAllAccumulates(FailOne(gs, c.key, c.val), calls[1..], i);
    }
  }

  /** A team's deduction is no less than what any one of its failed calls
      costs. */
  lemma {:induction false} DeductedAtLeast(t: seq<string>, calls: Dict<Call>, i: nat, j: nat)
    requires |t| == MaxPlayers && j < |calls|
    ensures Deducted(t, calls, i) >= if TeamOf(t, calls[j].key) == i then CallValue(calls[j].val) else 0
    ensures Deducted(t, calls, i) >= 0
  {
    if j > 0 {
      DeductedAtLeast(t, calls[1..], i, j - 1);
    } else if |calls| > 1 {
      DeductedAtLeast(t, calls[1..], i, 0);
    }
  }

  /** Two failed calls of a team's players cost it at least both their
      values. */
  lemma DeductedTwo(t: seq<string>, calls: Dict<Call>, i: nat, j: nat)
    requires |t| == MaxPlayers && 0 < j < |calls|
    ensures Deducted(t, calls, i) >= (if TeamOf(t, calls[0].key) == i then CallValue(calls[0].val) else 0)
                                   + (if TeamOf(t, calls[j].key) == i then CallValue(calls[j].val) else 0)
  {
    DeductedAtLeast(t, calls[1..], i, j - 1);
    assert calls[1..][j - 1] == calls[j];
  }

  /** With two or more failed calls the older copy charges the team of the
      first caller, in key order, strictly more than `resolveFailOtherTichus`
      does, which keeps only the last deduction. */
  lemma LegacyChargesMore(gs: GameState)
    requires Valid(gs) && |Called(gs.tichu)| >= 2
    ensures var i := TeamOf(gs.turnOrder, Called(gs.tichu)[0].key);
      LegacyFailOthersState(gs).teams[i].score < FailOthersState(gs).teams[i].score
  {
    LegacyFailsAll(gs);
    FailOthersFailsLast(gs);
    FailAllChargesMore(gs, Called(gs.tichu), LastCalled(gs));
  }

  /** The older copy deducts every failed call in turn. */
  lemma LegacyFailsAll(gs: GameState)
    requires Valid(gs)
    ensures CallsSeated(gs.turnOrder, Called(gs.tichu)) && LegacyFailOthersState(gs) == FailAll(gs, Called(gs.tichu))
  {
    CalledAreSeated(gs);
  }

  /** The modular copy deducts the last failed call alone. */
  lemma FailOthersFailsLast(gs: GameState)
    requires Valid(gs) && Called(gs.tichu) != []
    ensures FailOthersState(gs) == FailOne(gs, LastCalled(gs).key, LastCalled(gs).val)
  {
  }

  /** The loop of the older copy over two or more failed calls charges the
      first caller's team more than deducting the last call `last` alone
      does. */
  lemma FailAllChargesMore(gs: GameState, calls: Dict<Call>, last: Entry<Call>)
    requires Valid(gs) && CallsSeated(gs.turnOrder, calls) && |calls| >= 2 && last == calls[|calls| - 1]
    ensures last.key in gs.turnOrder
    ensures var i := TeamOf(gs.turnOrder, calls[0].key);
      FailAll(gs, calls).teams[i].score < FailOne(gs, last.key, last.val).teams[i].score
  {
    FailAllFirstAndLast(gs, calls);
    AddScoreSeat(gs.turnOrder, gs.teams, last.key, -CallValue(last.val));
  }

  /** The older copy charges the team of the first of the failed calls
      `calls` for that call and for the last one when it is theirs too. */
  lemma FailAllFirstAndLast(gs: GameState, calls: Dict<Call>)
    requires Valid(gs) && CallsSeated(gs.turnOrder, calls) && |calls| >= 2
    ensures var i := TeamOf(gs.turnOrder, calls[0].key);
      var last := calls[|calls| - 1];
      FailAll(gs, calls).teams[i].score
        <= gs.teams[i].score - CallValue(calls[0].val) - (if TeamOf(gs.turnOrder, last.key) == i then CallValue(last.val) else 0)
  {
    var i := TeamOf(gs.turnOrder, calls[0].key);
    FailAllAccumulates(gs, calls, i);
    DeductedTwo(gs.turnOrder, calls, i, |calls| - 1);
  }

  // ---------------------------------------------------------------------
  // `resolveTichus`

  /** The state `resolveTichus` of the older copy leaves: the success
      branch, then `failOtherTichus`. */
  function LegacyTichusResolvedState(live: GameState, teams: seq<Team>, p: string, tichus: Dict<Option<Call>>): (r: GameState)
    requires Valid(live) && Seating(live.turnOrder, teams) && p in live.turnOrder
    requires UniqueKeys(tichus) && forall k :: k in Keys(tichus) ==> k in live.turnOrder
    ensures Valid(r) && r.turnOrder == live.turnOrder
  {
    LegacyFailOthersState(TichuSuccessState(live, teams, p, tichus))
  }

  /** `resolveTichus` of the older copy. */
  method LegacyResolveTichus(store: RoomStore, roomId: string, teams: seq<Team>, socketId: string, tichus: Dict<Option<Call>>)
    requires roomId in store.gameStates && Valid(store.gameStates[roomId])
    requires Seating(store.gameStates[roomId].turnOrder, teams) && socketId in store.gameStates[roomId].turnOrder
    requires UniqueKeys(tichus) && forall k :: k in Keys(tichus) ==> k in store.gameStates[roomId].turnOrder
    modifies store
    ensures store.gameStates == old(store.gameStates)[roomId := LegacyTichusResolvedState(old(store.gameStates[roomId]), teams, socketId, tichus)]
    ensures store.sentCards == old(store.sentCards) && store.tichus == old(store.tichus) && store.continues == old(store.continues)
  {
    var live := store.gameStates[roomId];
    var socketsTichu := Get(tichus, socketId);
    ghost var before := store.gameStates;
    if socketsTichu.Some? && socketsTichu.value.Some? {
      var points := CallValue(socketsTichu.value.value);
      AddScoreSeat(live.turnOrder, teams, socketId, points);
      var newState := live.(teams := AddScore(teams, socketId, points), tichu := NullFor(tichus, socketId));
      store.SetGameState(roomId, newState);
    }
    var middle := store.gameStates[roomId];
    assert middle == TichuSuccessState(live, teams, socketId, tichus);
    LegacyFailOtherTichus(store, roomId);
    if socketsTichu.Some? && socketsTichu.value.Some? {
      UpdateTwice(before, roomId, middle, LegacyFailOthersState(middle));
    }
  }

  /** Without any other call in force, the first player out who called
      gains the call's value for their team and the other team keeps its
      score. */
  lemma LegacyTichuSuccessAlone(live: GameState, p: string)
    requires Valid(live) && p in live.turnOrder
    requires Get(live.tichu, p).Some? && Get(live.tichu, p).value.Some?
    requires forall j :: 0 <= j < |live.tichu| && live.tichu[j].key != p ==> live.tichu[j].val.None?
    ensures var r := LegacyTichusResolvedState(live, live.teams, p, live.tichu);
      var i := TeamOf(live.turnOrder, p);
      r.teams[i].score == live.teams[i].score + CallValue(Get(live.tichu, p).value.value)
      && r.teams[1 - i].score == live.teams[1 - i].score
  {
    var success := TichuSuccessState(live, live.teams, p, live.tichu);
    TichuSuccessScores(live, live.teams, p, live.tichu);
    var nulled := NullFor(live.tichu, p);
    assert success.tichu == nulled;
    assert forall j :: 0 <= j < |nulled| ==> nulled[j].val.None?;
    NothingCalled(nulled);
  }

  /** Entries that all hold null contain no call. */
  lemma {:induction false} NothingCalled(d: Dict<Option<Call>>)
    requires forall j :: 0 <= j < |d| ==> d[j].val.None?
    ensures Called(d) == []
  {
    if d != [] {
      assert forall j :: 0 <= j < |d[1..]| ==> d[1..][j] == d[j + 1];
      NothingCalled(d[1..]);
    }
  }

  // ---------------------------------------------------------------------
  // The `playCards` handler

  /** The store's state once `resolveTichus` of the older copy has run for
      the first player out; any other play leaves the snapshot. */
  function LegacyLive(snap: GameState, p: string, hand: seq<Card>): (r: GameState)
    requires Valid(snap) && p in snap.turnOrder
    ensures Valid(r) && r.turnOrder == snap.turnOrder
  {
    if hand == [] && snap.finished == [] then LegacyTichusResolvedState(snap, snap.teams, p, snap.tichu) else snap
  }

  /** The state a play that ends nothing stores: the live state with the
      new hand, the trick, the trick's cards, the next player and the passes
      computed from the snapshot. */
  function LegacyPlayOnState(live: GameState, snap: GameState, p: string, cards: seq<Card>, claimed: Option<Combo>, hand: seq<Card>): GameState
    requires Valid(snap) && p in snap.turnOrder
  {
    SomeoneUnfinished(snap);
    live.(
      cards := Put(live.cards, p, hand),
      currentCombination := Trick(p, cards, claimed),
      cardsPlayedThisTurn := snap.cardsPlayedThisTurn + cards,
      onPlay := NextNotFinished(snap.turnOrder, p, snap.finished),
      numberOfPasses := if hand == [] then -1 else 0,
      finished := NewFinished(snap.finished, p, hand))
  }

  /** What the `playCards` handler leaves for the player `p` playing `cards`
      claimed to be of kind `claimed`: whatever they are, the play is
      applied. */
  function LegacyPlayOutcome(gs: GameState, p: string, cards: seq<Card>, claimed: Option<Combo>): GameState
    requires Valid(gs) && p in gs.turnOrder
  {
    var hand := PlayedHand(At(gs.cards, p), cards);
    var live := LegacyLive(gs, p, hand);
    MoveEnd(live, gs, p, hand, gs.cardsPlayedThisTurn, cards, LegacyPlayOnState(live, gs, p, cards, claimed, hand))
  }

  /** The `playCards` handler. */
  method LegacyPlayCards(store: RoomStore, roomId: string, socketId: string, cards: seq<Card>, combinationType: Option<Combo>)
    requires store.Ready(roomId) && socketId in store.gameStates[roomId].turnOrder
    modifies store
    ensures store.gameStates == old(store.gameStates)[roomId := LegacyPlayOutcome(old(store.gameStates[roomId]), socketId, cards, combinationType)]
    ensures store.sentCards == old(store.sentCards) && store.tichus == old(store.tichus) && store.continues == old(store.continues)
    ensures store.Ready(roomId)
  {
    var gameState := store.gameStates[roomId];
    var nextPlayer, newPlayersCards := NextAndHand(gameState, socketId, cards);
    ghost var before := store.gameStates;
    LegacyTichusIfFirstOut(store, roomId, gameState, socketId, newPlayersCards);
    var live := store.gameStates[roomId];
    var newFinished := if newPlayersCards == [] then gameState.finished + [socketId] else gameState.finished;
    var newGameState := LegacyPlayedState(live, gameState, socketId, cards, combinationType, newPlayersCards, nextPlayer);
    if |newFinished| != MaxPlayers - 1 {
      LegacyPlayOnValid(live, gameState, socketId, cards, combinationType, newPlayersCards);
    }
    EndMove(store, roomId, gameState, socketId, newPlayersCards, gameState.cardsPlayedThisTurn, cards, newGameState);
    UpdateTwice(before, roomId, live, LegacyPlayOutcome(gameState, socketId, cards, combinationType));
  }

  /** The state the `playCards` handler builds on the live state `live`. */
  method LegacyPlayedState(live: GameState, gameState: GameState, socketId: string, cards: seq<Card>, combinationType: Option<Combo>,
                           newPlayersCards: seq<Card>, nextPlayer: string) returns (newGameState: GameState)
    requires Valid(gameState) && socketId in gameState.turnOrder
    requires (exists q :: q in gameState.turnOrder && q !in gameState.finished)
      && nextPlayer == NextNotFinished(gameState.turnOrder, socketId, gameState.finished)
    ensures newGameState == LegacyPlayOnState(live, gameState, socketId, cards, combinationType, newPlayersCards)
  {
    var newFinished := if newPlayersCards == [] then gameState.finished + [socketId] else gameState.finished;
    newGameState := live.(
      cards := Put(live.cards, socketId, newPlayersCards),
      currentCombination := Trick(socketId, cards, combinationType),
      cardsPlayedThisTurn := gameState.cardsPlayedThisTurn + cards,
      onPlay := nextPlayer,
      numberOfPasses := if newPlayersCards == [] then -1 else 0,
      finished := newFinished);
  }

  /** `resolveTichus` of the older copy when the player's new hand is empty
      and nobody has finished yet. */
  method LegacyTichusIfFirstOut(store: RoomStore, roomId: string, snap: GameState, p: string, hand: seq<Card>)
    requires store.Ready(roomId) && store.gameStates[roomId] == snap && p in snap.turnOrder
    modifies store
    ensures store.gameStates == old(store.gameStates)[roomId := LegacyLive(snap, p, hand)]
    ensures store.sentCards == old(store.sentCards) && store.tichus == old(store.tichus) && store.continues == old(store.continues)
    ensures store.Ready(roomId)
  {
    ghost var before := store.gameStates;
    var didSocketFinish := hand == [];
    if didSocketFinish && snap.finished == [] {
      LegacyResolveTichus(store, roomId, snap.teams, p, snap.tichu);
    } else {
      UpdateSame(before, roomId);
    }
    RoomReadyAfter(snap, LegacyLive(snap, p, hand), store.sentCards[roomId], store.tichus[roomId], store.continues[roomId]);
  }

  /** The state a play that ends nothing stores is valid. */
  lemma LegacyPlayOnValid(live: GameState, snap: GameState, p: string, cards: seq<Card>, claimed: Option<Combo>, hand: seq<Card>)
    requires Valid(snap) && p in snap.turnOrder && |NewFinished(snap.finished, p, hand)| != MaxPlayers - 1
    requires live == LegacyLive(snap, p, hand)
    ensures Valid(LegacyPlayOnState(live, snap, p, cards, claimed, hand))
    ensures LegacyPlayOnState(live, snap, p, cards, claimed, hand).turnOrder == snap.turnOrder
  {
  }

  // ---------------------------------------------------------------------
  // The two copies of the play handler compared

  /** Unless the legality test of the modular copy throws, or the player
      goes out first, both copies store the same state; in particular a
      play the modular copy rejects is applied by both. */
  lemma LegacyAgreesUnlessFirstOut(gs: GameState, p: string, cards: seq<Card>, claimed: Option<Combo>, kind: Option<Combo>)
    requires Valid(gs) && p in gs.turnOrder && !PlayThrows(gs, claimed, kind)
    requires !(PlayedHand(At(gs.cards, p), cards) == [] && gs.finished == [])
    ensures PlayOutcome(gs, p, cards, claimed, kind) == Some(LegacyPlayOutcome(gs, p, cards, claimed))
  {
    var hand := PlayedHand(At(gs.cards, p), cards);
    PlayOutcomeMove(gs, p, cards, claimed, kind);
    assert LegacyPlayOnState(gs, gs, p, cards, claimed, hand) == PlayOnState(gs, p, cards, claimed, hand);
  }

  /** The first player out keeps in the older copy what `resolveTichus`
      stored: the scores and calls of the stored state are those of the
      resolution, where the modular copy restores the snapshot's. */
  lemma LegacyFirstOutKeepsBonus(gs: GameState, p: string, cards: seq<Card>, claimed: Option<Combo>)
    requires Valid(gs) && p in gs.turnOrder
    requires PlayedHand(At(gs.cards, p), cards) == [] && gs.finished == []
    ensures var r := LegacyPlayOutcome(gs, p, cards, claimed);
      var resolved := LegacyTichusResolvedState(gs, gs.teams, p, gs.tichu);
      r.teams == resolved.teams && r.tichu == resolved.tichu && r.finished == [p]
  {
    OneIsNoTeam(p, gs.teams[0].players, gs.teams[1].players);
  }
}
