/** The play-phase handlers of a room: playing cards, playing the dog and
    passing. Each handler reads the room's state once, may call resolvers
    that write the store, and ends by storing a state built from what it
    read at the start. */
module GameActions {
  import opened Wrappers
  import opened Seqs
  import opened Dicts
  import opened Constants
  import opened Utils
  import opened GameStates
  import opened CombinationResolver
  import opened Store
  import opened Resolvers
  import opened ResolverFacts

  // ---------------------------------------------------------------------
  // What every move that can empty a hand shares

  /** The finished list after a move: the mover joins it when their new
      hand is empty. */
  function NewFinished(finished: seq<string>, p: string, hand: seq<Card>): seq<string> {
    if hand == [] then finished + [p] else finished
  }

  /** The store's state once `resolveTichus` has run for the player `p`
      who went out first with the new hand; any other move leaves the
      snapshot in the store. */
  function LiveAfterTichus(snap: GameState, p: string, hand: seq<Card>): (r: GameState)
    requires Valid(snap) && p in snap.turnOrder
    ensures Valid(r) && r.turnOrder == snap.turnOrder
  {
    if hand == [] && snap.finished == [] then TichusResolvedState(snap, snap.teams, p, snap.tichu) else snap
  }

  /** How a move that leaves the mover with `hand` ends, on top of the
      state `live` the store holds by then: a normal end when three players
      are out, a team end when the players out are one team, and otherwise
      the state `goOn` the handler builds. `cpt` and `played` are the cards
      the handler hands to the normal end as the cards on the table. */
  function MoveEnd(live: GameState, snap: GameState, p: string, hand: seq<Card>, cpt: seq<Card>, played: seq<Card>, goOn: GameState): GameState
    requires Valid(snap) && p in snap.turnOrder
  {
    var newFinished := NewFinished(snap.finished, p, hand);
    if |newFinished| == MaxPlayers - 1 then NormalEndState(live, snap, newFinished, cpt, played)
    else if DidAnyTeamFinish(newFinished, snap.teams[0].players, snap.teams[1].players) then TeamEndState(live, snap, p)
    else goOn
  }

  /** What a play or a dog stores once the mover's new hand is known: the
      end of the move on top of the state `resolveTichus` left. */
  function AfterMove(snap: GameState, p: string, hand: seq<Card>, cpt: seq<Card>, played: seq<Card>, goOn: GameState): GameState
    requires Valid(snap) && p in snap.turnOrder
  {
    MoveEnd(LiveAfterTichus(snap, p, hand), snap, p, hand, cpt, played, goOn)
  }

  /** The three ways a move can end, one lemma for each handler to cite. */
  lemma AfterMoveCases(snap: GameState, p: string, hand: seq<Card>, cpt: seq<Card>, played: seq<Card>, goOn: GameState)
    requires Valid(snap) && p in snap.turnOrder
    ensures var newFinished := NewFinished(snap.finished, p, hand);
      var live := LiveAfterTichus(snap, p, hand);
      var r := AfterMove(snap, p, hand, cpt, played, goOn);
      (|newFinished| == MaxPlayers - 1 ==> r == NormalEndState(live, snap, newFinished, cpt, played))
      && (|newFinished| != MaxPlayers - 1 && DidAnyTeamFinish(newFinished, snap.teams[0].players, snap.teams[1].players)
          ==> r == TeamEndState(live, snap, p))
      && (|newFinished| != MaxPlayers - 1 && !DidAnyTeamFinish(newFinished, snap.teams[0].players, snap.teams[1].players)
          ==> r == goOn)
  {
  }

  /** A move keeps the room's state valid when the state the store holds
      and the state the handler would store without an end of the turn are
      valid. */
  lemma MoveEndValid(live: GameState, snap: GameState, p: string, hand: seq<Card>, cpt: seq<Card>, played: seq<Card>, goOn: GameState)
    requires Valid(snap) && p in snap.turnOrder && Valid(live) && live.turnOrder == snap.turnOrder
    requires |NewFinished(snap.finished, p, hand)| != MaxPlayers - 1 ==> Valid(goOn) && goOn.turnOrder == snap.turnOrder
    ensures Valid(MoveEnd(live, snap, p, hand, cpt, played, goOn))
    ensures MoveEnd(live, snap, p, hand, cpt, played, goOn).turnOrder == snap.turnOrder
  {
    var newFinished := NewFinished(snap.finished, p, hand);
    if |newFinished| == MaxPlayers - 1 {
      NormalEndValid(live, snap, newFinished, cpt, played);
    } else if DidAnyTeamFinish(newFinished, snap.teams[0].players, snap.teams[1].players) {
      TeamEndValid(live, snap, p);
    }
  }

  /** A move keeps the room's state valid when the state the handler would
      store without an end of the turn is valid. */
  lemma AfterMoveValid(snap: GameState, p: string, hand: seq<Card>, cpt: seq<Card>, played: seq<Card>, goOn: GameState)
    requires Valid(snap) && p in snap.turnOrder
    requires |NewFinished(snap.finished, p, hand)| != MaxPlayers - 1 ==> Valid(goOn) && goOn.turnOrder == snap.turnOrder
    ensures Valid(AfterMove(snap, p, hand, cpt, played, goOn))
    ensures AfterMove(snap, p, hand, cpt, played, goOn).turnOrder == snap.turnOrder
  {
    MoveEndValid(LiveAfterTichus(snap, p, hand), snap, p, hand, cpt, played, goOn);
  }

  /** The step `playCardsListener` and `dogListener` share before the end
      of the turn is decided: `resolveTichus` when the mover's new hand is
      empty and nobody has finished yet. */
  method TichusIfFirstOut(store: RoomStore, roomId: string, snap: GameState, p: string, hand: seq<Card>)
    requires store.Ready(roomId) && store.gameStates[roomId] == snap && p in snap.turnOrder
    modifies store
    ensures store.gameStates == old(store.gameStates)[roomId := LiveAfterTichus(snap, p, hand)]
    ensures store.sentCards == old(store.sentCards) && store.tichus == old(store.tichus) && store.continues == old(store.continues)
    ensures store.Ready(roomId)
  {
    ghost var before := store.gameStates;
    var didSocketFinish := hand == [];
    if didSocketFinish && snap.finished == [] {
      ResolveTichus(store, roomId, snap.teams, p, snap.tichu);
    } else {
      UpdateSame(before, roomId);
    }
    RoomReadyAfter(snap, LiveAfterTichus(snap, p, hand), store.sentCards[roomId], store.tichus[roomId], store.continues[roomId]);
  }

  /** What `playCardsListener` and `dogListener` share once the new hand is
      known: the bonus calls of the first player out, then the end of the
      move. */
  method FinishMove(store: RoomStore, roomId: string, snap: GameState, p: string, hand: seq<Card>, cpt: seq<Card>, played: seq<Card>, goOn: GameState)
    requires store.Ready(roomId) && store.gameStates[roomId] == snap && p in snap.turnOrder
    requires |NewFinished(snap.finished, p, hand)| != MaxPlayers - 1 ==> Valid(goOn) && goOn.turnOrder == snap.turnOrder
    modifies store
    ensures store.gameStates == old(store.gameStates)[roomId := AfterMove(snap, p, hand, cpt, played, goOn)]
    ensures store.sentCards == old(store.sentCards) && store.tichus == old(store.tichus) && store.continues == old(store.continues)
    ensures store.Ready(roomId)
  {
    ghost var before := store.gameStates;
    ghost var live := LiveAfterTichus(snap, p, hand);
    TichusIfFirstOut(store, roomId, snap, p, hand);
    EndMove(store, roomId, snap, p, hand, cpt, played, goOn);
    UpdateTwice(before, roomId, live, AfterMove(snap, p, hand, cpt, played, goOn));
  }

  /** The end of a play or a dog once the bonus calls are settled:
      `resolveNormalEnd`, `resolveTeamEnd` or storing `goOn`. */
  method EndMove(store: RoomStore, roomId: string, snap: GameState, p: string, hand: seq<Card>, cpt: seq<Card>, played: seq<Card>, goOn: GameState)
    requires store.Ready(roomId) && Valid(snap) && p in snap.turnOrder && store.gameStates[roomId].turnOrder == snap.turnOrder
    requires |NewFinished(snap.finished, p, hand)| != MaxPlayers - 1 ==> Valid(goOn) && goOn.turnOrder == snap.turnOrder
    modifies store
    ensures store.gameStates == old(store.gameStates)[roomId := MoveEnd(old(store.gameStates[roomId]), snap, p, hand, cpt, played, goOn)]
    ensures store.sentCards == old(store.sentCards) && store.tichus == old(store.tichus) && store.continues == old(store.continues)
    ensures store.Ready(roomId)
  {
    ghost var live := store.gameStates[roomId];
    ghost var outcome := MoveEnd(live, snap, p, hand, cpt, played, goOn);
    var newFinished := if hand == [] then snap.finished + [p] else snap.finished;
    if |newFinished| == |snap.turnOrder| - 1 {
      ResolveNormalEnd(store, roomId, snap, newFinished, cpt, played);
    } else if DidAnyTeamFinish(newFinished, snap.teams[0].players, snap.teams[1].players) {
      ResolveTeamEnd(store, roomId, snap, p);
    } else {
      store.SetGameState(roomId, goOn);
    }
    MoveEndValid(live, snap, p, hand, cpt, played, goOn);
    RoomReadyAfter(live, outcome, store.sentCards[roomId], store.tichus[roomId], store.continues[roomId]);
  }

  // ---------------------------------------------------------------------
  // `playCardsListener`

  /** The claimed kind is `kind`, the one `getCombinationType` finds, both
      null, on a table that holds a combination: `isValidCombination`
      throws and nothing is stored. */
  predicate PlayThrows(gs: GameState, claimed: Option<Combo>, kind: Option<Combo>) {
    claimed == kind && kind.None? && gs.currentCombination.kind.Some?
  }

  /** The test that makes the handler tell the player "Invalid
      combination": the claimed kind is not the computed one, or the play
      does not go on the table. */
  predicate Rejected(gs: GameState, cards: seq<Card>, claimed: Option<Combo>, kind: Option<Combo>)
    requires !PlayThrows(gs, claimed, kind)
  {
    claimed != kind || !IsValidCombination(cards, kind, gs.currentCombination)
  }

  /** The hand after a play: every card equal to a played one is filtered
      out, and every Phoenix too when a Phoenix was played. */
  function PlayedHand(hand: seq<Card>, cards: seq<Card>): seq<Card> {
    var kept := Without(hand, cards);
    if Phoenix in cards then Without(kept, [Phoenix]) else kept
  }

  /** The state a play that ends nothing stores, built from the snapshot:
      the new hand, the played trick with the claimed kind, the cards added
      to the trick's cards, the next player who has not finished on play,
      and the passes at -1 when the player went out and 0 otherwise. */
  function PlayOnState(gs: GameState, p: string, cards: seq<Card>, claimed: Option<Combo>, hand: seq<Card>): GameState
    requires Valid(gs) && p in gs.turnOrder
  {
    SomeoneUnfinished(gs);
    gs.(
      cards := Put(gs.cards, p, hand),
      currentCombination := Trick(p, cards, claimed),
      cardsPlayedThisTurn := gs.cardsPlayedThisTurn + cards,
      onPlay := NextNotFinished(gs.turnOrder, p, gs.finished),
      numberOfPasses := if hand == [] then -1 else 0,
      finished := NewFinished(gs.finished, p, hand))
  }

  /** What `playCardsListener` leaves in the store for the player `p`
      playing `cards` claimed to be of kind `claimed`, when `kind` is the
      kind they form: nothing when the legality test throws, and otherwise
      the move, whether or not the play was rejected. */
  function PlayOutcome(gs: GameState, p: string, cards: seq<Card>, claimed: Option<Combo>, kind: Option<Combo>): Option<GameState>
    requires Valid(gs) && p in gs.turnOrder
  {
    if PlayThrows(gs, claimed, kind) then None
    else
      var hand := PlayedHand(At(gs.cards, p), cards);
      Some(AfterMove(gs, p, hand, gs.cardsPlayedThisTurn, cards, PlayOnState(gs, p, cards, claimed, hand)))
  }

  /** A play that does not throw is the move with the filtered hand. */
  lemma PlayOutcomeMove(gs: GameState, p: string, cards: seq<Card>, claimed: Option<Combo>, kind: Option<Combo>)
    requires Valid(gs) && p in gs.turnOrder && !PlayThrows(gs, claimed, kind)
    ensures var hand := PlayedHand(At(gs.cards, p), cards);
      PlayOutcome(gs, p, cards, claimed, kind) == Some(AfterMove(gs, p, hand, gs.cardsPlayedThisTurn, cards, PlayOnState(gs, p, cards, claimed, hand)))
  {
  }

  /** The state a play goes on with is valid unless it is the third
      player out, which ends the turn before anything is stored. */
  lemma PlayOnStateValid(gs: GameState, p: string, cards: seq<Card>, claimed: Option<Combo>, hand: seq<Card>)
    requires Valid(gs) && p in gs.turnOrder && |NewFinished(gs.finished, p, hand)| != MaxPlayers - 1
    ensures Valid(PlayOnState(gs, p, cards, claimed, hand)) && PlayOnState(gs, p, cards, claimed, hand).turnOrder == gs.turnOrder
  {
  }

  /** A stored play keeps the state valid. */
  lemma PlayOutcomeValid(gs: GameState, p: string, cards: seq<Card>, claimed: Option<Combo>, kind: Option<Combo>)
    requires Valid(gs) && p in gs.turnOrder && PlayOutcome(gs, p, cards, claimed, kind).Some?
    ensures Valid(PlayOutcome(gs, p, cards, claimed, kind).value)
    ensures PlayOutcome(gs, p, cards, claimed, kind).value.turnOrder == gs.turnOrder
  {
    var hand := PlayedHand(At(gs.cards, p), cards);
    if |NewFinished(gs.finished, p, hand)| != MaxPlayers - 1 {
      PlayOnStateValid(gs, p, cards, claimed, hand);
    }
    AfterMoveValid(gs, p, hand, gs.cardsPlayedThisTurn, cards, PlayOnState(gs, p, cards, claimed, hand));
  }

  /** `playCardsListener` for the player `socketId` of the room `roomId`:
      the kind the cards form is found first, the rest is `ApplyPlay`. */
  method PlayCardsListener(store: RoomStore, roomId: string, socketId: string, cards: seq<Card>, combinationType: Option<Combo>)
    requires store.Ready(roomId) && socketId in store.gameStates[roomId].turnOrder
    modifies store
    ensures var r := PlayOutcome(old(store.gameStates[roomId]), socketId, cards, combinationType, GetCombinationType(cards));
      (r.None? ==> store.gameStates == old(store.gameStates))
      && (r.Some? ==> store.gameStates == old(store.gameStates)[roomId := r.value])
    ensures store.sentCards == old(store.sentCards) && store.tichus == old(store.tichus) && store.continues == old(store.continues)
    ensures store.Ready(roomId)
  {
    var playedCombinationType := GetCombinationType(cards);
    ApplyPlay(store, roomId, socketId, cards, combinationType, playedCombinationType);
  }

  /** `playCardsListener` once the kind `playedCombinationType` of the
      cards is known. */
  method ApplyPlay(store: RoomStore, roomId: string, socketId: string, cards: seq<Card>, combinationType: Option<Combo>, playedCombinationType: Option<Combo>)
    requires store.Ready(roomId) && socketId in store.gameStates[roomId].turnOrder
    modifies store
    ensures var r := PlayOutcome(old(store.gameStates[roomId]), socketId, cards, combinationType, playedCombinationType);
      (r.None? ==> store.gameStates == old(store.gameStates))
      && (r.Some? ==> store.gameStates == old(store.gameStates)[roomId := r.value])
    ensures store.sentCards == old(store.sentCards) && store.tichus == old(store.tichus) && store.continues == old(store.continues)
    ensures store.Ready(roomId)
  {
    var gameState := store.gameStates[roomId];
    if combinationType == playedCombinationType && playedCombinationType.None? && gameState.currentCombination.kind.Some? {
      return;
    }
    // A rejected play is only reported to the player; it goes on below.
    var rejected := Rejected(gameState, cards, combinationType, playedCombinationType);
    var newPlayersCards, newGameState := PlayedState(gameState, socketId, cards, combinationType);
    PlayOutcomeMove(gameState, socketId, cards, combinationType, playedCombinationType);
    FinishMove(store, roomId, gameState, socketId, newPlayersCards, gameState.cardsPlayedThisTurn, cards, newGameState);
  }

  /** The hand and the state `playCardsListener` computes from its
      snapshot for the player `socketId` playing `cards` as `combinationType`. */
  method PlayedState(gameState: GameState, socketId: string, cards: seq<Card>, combinationType: Option<Combo>) returns (newPlayersCards: seq<Card>, newGameState: GameState)
    requires Valid(gameState) && socketId in gameState.turnOrder
    ensures newPlayersCards == PlayedHand(At(gameState.cards, socketId), cards)
    ensures newGameState == PlayOnState(gameState, socketId, cards, combinationType, newPlayersCards)
    ensures |NewFinished(gameState.finished, socketId, newPlayersCards)| != MaxPlayers - 1 ==>
      Valid(newGameState) && newGameState.turnOrder == gameState.turnOrder
  {
    var nextPlayer;
    nextPlayer, newPlayersCards := NextAndHand(gameState, socketId, cards);
    var newFinished := if newPlayersCards == [] then gameState.finished + [socketId] else gameState.finished;
    newGameState := gameState.(
      cards := Put(gameState.cards, socketId, newPlayersCards),
      currentCombination := Trick(socketId, cards, combinationType),
      cardsPlayedThisTurn := gameState.cardsPlayedThisTurn + cards,
      onPlay := nextPlayer,
      numberOfPasses := if newPlayersCards == [] then -1 else 0,
      finished := newFinished);
    if |newFinished| != MaxPlayers - 1 {
      PlayOnStateValid(gameState, socketId, cards, combinationType, newPlayersCards);
    }
  }

  /** The next player and the new hand a play handler computes from its
      snapshot before anything is written. */
  method NextAndHand(gameState: GameState, socketId: string, cards: seq<Card>) returns (nextPlayer: string, newPlayersCards: seq<Card>)
    requires Valid(gameState) && socketId in gameState.turnOrder
    ensures (exists q :: q in gameState.turnOrder && q !in gameState.finished)
      && nextPlayer == NextNotFinished(gameState.turnOrder, socketId, gameState.finished)
    ensures newPlayersCards == PlayedHand(At(gameState.cards, socketId), cards)
  {
    SomeoneUnfinished(gameState);
    nextPlayer := GetNextPlayerNotFinished(gameState.turnOrder, socketId, gameState.finished);
    newPlayersCards := Without(At(gameState.cards, socketId), cards);
    if Phoenix in cards {
      newPlayersCards := Without(newPlayersCards, [Phoenix]);
    }
  }

  // ---------------------------------------------------------------------
  // `dogListener`

  /** The player who leads after a dog: the mover's teammate, or the next
      player after the teammate who has not finished when the teammate has
      gone out. */
  function DogLead(gs: GameState, p: string): (r: string)
    requires Valid(gs) && p in gs.turnOrder
  {
    var teammate := Teammate(gs.turnOrder, gs.teams, p);
    if teammate in gs.finished then
      SomeoneUnfinished(gs);
      NextNotFinished(gs.turnOrder, teammate, gs.finished)
    else teammate
  }

  /** The state a dog that ends nothing stores, built from the snapshot:
      the hand without its dogs, the new lead and the finished list; the
      trick on the table stays. */
  function DogOnState(gs: GameState, p: string, hand: seq<Card>): GameState
    requires Valid(gs) && p in gs.turnOrder
  {
    gs.(cards := Put(gs.cards, p, hand), onPlay := DogLead(gs, p), finished := NewFinished(gs.finished, p, hand))
  }

  /** What `dogListener` leaves in the store for the player `p`; a normal
      end it causes counts no cards on the table. */
  function DogOutcome(gs: GameState, p: string): GameState
    requires Valid(gs) && p in gs.turnOrder
  {
    var hand := Without(At(gs.cards, p), [Dog]);
    AfterMove(gs, p, hand, [], [], DogOnState(gs, p, hand))
  }

  /** The state a dog goes on with is valid unless the dog was the last
      card of the third player out. */
  lemma DogOnStateValid(gs: GameState, p: string, hand: seq<Card>)
    requires Valid(gs) && p in gs.turnOrder && |NewFinished(gs.finished, p, hand)| != MaxPlayers - 1
    ensures Valid(DogOnState(gs, p, hand)) && DogOnState(gs, p, hand).turnOrder == gs.turnOrder
  {
  }

  /** A dog keeps the state valid. */
  lemma DogOutcomeValid(gs: GameState, p: string)
    requires Valid(gs) && p in gs.turnOrder
    ensures Valid(DogOutcome(gs, p)) && DogOutcome(gs, p).turnOrder == gs.turnOrder
  {
    var hand := Without(At(gs.cards, p), [Dog]);
    if |NewFinished(gs.finished, p, hand)| != MaxPlayers - 1 {
      DogOnStateValid(gs, p, hand);
    }
    AfterMoveValid(gs, p, hand, [], [], DogOnState(gs, p, hand));
  }

  /** `dogListener` for the player `socketId` of the room `roomId`. */
  method DogListener(store: RoomStore, roomId: string, socketId: string)
    requires store.Ready(roomId) && socketId in store.gameStates[roomId].turnOrder
    modifies store
    ensures store.gameStates == old(store.gameStates)[roomId := DogOutcome(old(store.gameStates[roomId]), socketId)]
    ensures store.sentCards == old(store.sentCards) && store.tichus == old(store.tichus) && store.continues == old(store.continues)
    ensures store.Ready(roomId)
  {
    var gameState := store.gameStates[roomId];
    ghost var before := store.gameStates;
    var teammate := Teammate(gameState.turnOrder, gameState.teams, socketId);
    var onPlay := teammate;
    if teammate in gameState.finished {
      SomeoneUnfinished(gameState);
      onPlay := GetNextPlayerNotFinished(gameState.turnOrder, teammate, gameState.finished);
    }
    var playersCardsWithoutDog := Without(At(gameState.cards, socketId), [Dog]);
    var newFinished := if playersCardsWithoutDog == [] then gameState.finished + [socketId] else gameState.finished;
    var newGameState := gameState.(
      cards := Put(gameState.cards, socketId, playersCardsWithoutDog),
      onPlay := onPlay,
      finished := newFinished);
    assert newGameState == DogOnState(gameState, socketId, playersCardsWithoutDog);
    if |newFinished| != MaxPlayers - 1 {
      DogOnStateValid(gameState, socketId, playersCardsWithoutDog);
    }
    FinishMove(store, roomId, gameState, socketId, playersCardsWithoutDog, [], [], newGameState);
  }

  // ---------------------------------------------------------------------
  // `passListener`

  /** What `passListener` leaves in the store for the player `p`: once the
      passes reach the number of players still in but one, the trick ends
      (stopping first for the receiver to be chosen when it holds the
      Dragon); otherwise the pass is counted and the next player who has
      not finished is on play. None when the trick's end throws. */
  function PassOutcome(gs: GameState, p: string): Option<GameState>
    requires Valid(gs) && p in gs.turnOrder
  {
    var passesNeeded := |gs.turnOrder| - |gs.finished| - 1;
    var newNumberOfPasses := gs.numberOfPasses + 1;
    if newNumberOfPasses >= passesNeeded then
      if Dragon in gs.cardsPlayedThisTurn then Some(DragonSendState(gs)) else TurnEndState(gs, None)
    else
      SomeoneUnfinished(gs);
      Some(gs.(numberOfPasses := newNumberOfPasses, onPlay := NextNotFinished(gs.turnOrder, p, gs.finished)))
  }

  /** A stored pass keeps the state valid. */
  lemma PassOutcomeValid(gs: GameState, p: string)
    requires Valid(gs) && p in gs.turnOrder && PassOutcome(gs, p).Some?
    ensures Valid(PassOutcome(gs, p).value) && PassOutcome(gs, p).value.turnOrder == gs.turnOrder
  {
    if gs.numberOfPasses + 1 >= |gs.turnOrder| - |gs.finished| - 1 {
      if Dragon in gs.cardsPlayedThisTurn {
        DragonSendFacts(gs, None);
      } else {
        TurnEndResets(gs, None);
      }
    }
  }

  /** Below the threshold a pass is counted and play moves on. */
  lemma PassGoesOn(gs: GameState, p: string)
    requires Valid(gs) && p in gs.turnOrder && gs.numberOfPasses + 1 < |gs.turnOrder| - |gs.finished| - 1
    requires exists q :: q in gs.turnOrder && q !in gs.finished
    ensures PassOutcome(gs, p) == Some(gs.(numberOfPasses := gs.numberOfPasses + 1, onPlay := NextNotFinished(gs.turnOrder, p, gs.finished)))
  {
  }

  /** `passListener` for the player `socketId` of the room `roomId`. */
  method PassListener(store: RoomStore, roomId: string, socketId: string)
    requires store.Ready(roomId) && socketId in store.gameStates[roomId].turnOrder
    modifies store
    ensures var r := PassOutcome(old(store.gameStates[roomId]), socketId);
      (r.None? ==> store.gameStates == old(store.gameStates))
      && (r.Some? ==> store.gameStates == old(store.gameStates)[roomId := r.value])
    ensures store.sentCards == old(store.sentCards) && store.tichus == old(store.tichus) && store.continues == old(store.continues)
    ensures store.Ready(roomId)
  {
    var gameState := store.gameStates[roomId];
    var passesNeeded := |gameState.turnOrder| - |gameState.finished| - 1;
    var newNumberOfPasses := gameState.numberOfPasses + 1;
    if newNumberOfPasses >= passesNeeded {
      if Dragon in gameState.cardsPlayedThisTurn {
        ResolveDragonSend(store, roomId);
        DragonSendFacts(gameState, None);
        RoomReadyAfter(gameState, DragonSendState(gameState), store.sentCards[roomId], store.tichus[roomId], store.continues[roomId]);
      } else {
        ResolveTurnEnd(store, roomId, None);
        if TurnEndState(gameState, None).Some? {
          TurnEndResets(gameState, None);
          RoomReadyAfter(gameState, TurnEndState(gameState, None).value, store.sentCards[roomId], store.tichus[roomId], store.continues[roomId]);
        }
      }
      return;
    }
    SomeoneUnfinished(gameState);
    var nextPlayer := GetNextPlayerNotFinished(gameState.turnOrder, socketId, gameState.finished);
    var newGameState := gameState.(numberOfPasses := newNumberOfPasses, onPlay := nextPlayer);
    PassGoesOn(gameState, socketId);
    store.SetGameState(roomId, newGameState);
    RoomReadyAfter(gameState, newGameState, store.sentCards[roomId], store.tichus[roomId], store.continues[roomId]);
  }
}
