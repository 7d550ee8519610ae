/** The room store of the game server: four maps from room id to the room's
    game state, the exchange cards sent so far, the bonus-call entries
    recorded so far and the counter of "continue" acknowledgements, with the
    operations that read and write them, the set-up of a new room and the
    deal of a new turn. */
module Store {
  import opened Wrappers
  import opened Seqs
  import opened Dicts
  import opened Constants
  import opened Utils
  import opened GameStates

  // ---------------------------------------------------------------------
  // The deal

  /** The four hands cut from the deck shuffled with the choices `js`:
      four hands of fourteen cards. */
  function Deal(js: seq<nat>): (hands: seq<seq<Card>>)
    requires SwapChoices(js, |Deck|)
    ensures |hands| == MaxPlayers
    ensures forall c :: c in hands ==> |c| == ChunkSize
  {
    DeckSize();
    ShuffledPermutation(Deck, js, |Deck| - 1);
    SplitExact(ChunkSize, MaxPlayers, Shuffled(Deck, js, |Deck| - 1));
    SplitEvery(ChunkSize, Shuffled(Deck, js, |Deck| - 1))
  }

  /** Whatever the choices, the four hands together hold every card of the
      deck exactly once. */
  lemma DealFacts(js: seq<nat>)
    requires SwapChoices(js, |Deck|)
    ensures multiset(Flatten(Deal(js))) == multiset(Deck)
  {
    DeckFacts();
    ShuffledPermutation(Deck, js, |Deck| - 1);
    FlattenSplit(ChunkSize, Shuffled(Deck, js, |Deck| - 1));
  }

  /** The players at the seats k with k % 2 == parity, in seat order: what
      the seating loop pushes into one team list. */
  function SeatsOfParity(ids: seq<string>, parity: nat): seq<string> {
    if ids == [] then []
    else SeatsOfParity(ids[..|ids| - 1], parity) + (if (|ids| - 1) % 2 == parity then [ids[|ids| - 1]] else [])
  }

  lemma SeatsSnoc(ids: seq<string>, i: nat, parity: nat)
    requires i < |ids|
    ensures SeatsOfParity(ids[..i + 1], parity) == SeatsOfParity(ids[..i], parity) + (if i % 2 == parity then [ids[i]] else [])
  {
    assert ids[..i + 1][..i] == ids[..i];
  }

  lemma SeatsOfFour(ids: seq<string>)
    requires |ids| == MaxPlayers
    ensures SeatsOfParity(ids, 1) == [ids[1], ids[3]]
    ensures SeatsOfParity(ids, 0) == [ids[0], ids[2]]
  {
    assert ids[..0] == [] && ids[..4] == ids;
    SeatsSnoc(ids, 0, 0);
    SeatsSnoc(ids, 1, 0);
    SeatsSnoc(ids, 2, 0);
    SeatsSnoc(ids, 3, 0);
    SeatsSnoc(ids, 0, 1);
    SeatsSnoc(ids, 1, 1);
    SeatsSnoc(ids, 2, 1);
    SeatsSnoc(ids, 3, 1);
  }

  /** One more seat in the seating loop: the hands gain the new seat's
      chunk at the end. */
  lemma ZipStep(ids: seq<string>, chunks: seq<seq<Card>>, i: nat)
    requires i < |ids| <= |chunks| && Distinct(ids)
    ensures Put(Zip(ids[..i], chunks), ids[i], chunks[i]) == Zip(ids[..i + 1], chunks)
  {
    assert ids[..i + 1] == ids[..i] + [ids[i]];
    assert ids[i] !in ids[..i];
    ZipSnoc(ids[..i], chunks, ids[i]);
  }

  /** One more seat in the seating loop: a blank object gains the new
      seat's entry at the end. */
  lemma BlankStep<W>(ids: seq<string>, i: nat, w: W)
    requires i < |ids| && Distinct(ids)
    ensures Put(Blank(ids[..i], w), ids[i], w) == Blank(ids[..i + 1], w)
  {
    assert ids[..i + 1] == ids[..i] + [ids[i]];
    assert ids[i] !in ids[..i];
    BlankSnoc(ids[..i], ids[i], w);
  }

  /** Everything one pass of the seating loop adds, for the player at
      seat `i`. */
  lemma SeatingStep(ids: seq<string>, chunks: seq<seq<Card>>, i: nat)
    requires i < |ids| <= |chunks| && Distinct(ids)
    ensures ids[..i + 1] == ids[..i] + [ids[i]]
    ensures Put(Zip(ids[..i], chunks), ids[i], chunks[i]) == Zip(ids[..i + 1], chunks)
    ensures Put(Blank<seq<Card>>(ids[..i], []), ids[i], []) == Blank(ids[..i + 1], [])
    ensures Put(Blank<Option<Call>>(ids[..i], None), ids[i], None) == Blank(ids[..i + 1], None)
    ensures SeatsOfParity(ids[..i + 1], 1) == SeatsOfParity(ids[..i], 1) + (if (i + 1) % 2 == 0 then [ids[i]] else [])
    ensures SeatsOfParity(ids[..i + 1], 0) == SeatsOfParity(ids[..i], 0) + (if (i + 1) % 2 == 0 then [] else [ids[i]])
  {
    assert (i + 1) % 2 == 0 <==> i % 2 == 1;
    ZipStep(ids, chunks, i);
    BlankStep<seq<Card>>(ids, i, []);
    BlankStep<Option<Call>>(ids, i, None);
    SeatsSnoc(ids, i, 0);
    SeatsSnoc(ids, i, 1);
  }

  /** The state `initGameState` builds for the players `ids` in the order
      they joined, seat k holding chunk k. */
  function InitialState(ids: seq<string>, chunks: seq<seq<Card>>): GameState
    requires |ids| == MaxPlayers && |chunks| >= MaxPlayers
  {
    GameState(
      turnOrder := ids,
      collectedCards := Blank(ids, []),
      cards := Zip(ids, chunks),
      tichu := Blank(ids, None),
      currentCombination := DefaultTrick,
      teams := [Team([ids[1], ids[3]], 0, 0), Team([ids[0], ids[2]], 0, 1)],
      onPlay := "",
      numberOfPasses := 0,
      cardsPlayedThisTurn := [],
      finished := [],
      gamePart := BigTichu,
      sendDeck := false)
  }

  /** A new room is valid and both teams start at 0. */
  lemma InitialStateValid(ids: seq<string>, chunks: seq<seq<Card>>)
    requires |ids| == MaxPlayers && Distinct(ids) && |chunks| >= MaxPlayers
    ensures Valid(InitialState(ids, chunks))
    ensures InitialState(ids, chunks).teams[0].score == 0 && InitialState(ids, chunks).teams[1].score == 0
  {
    var gs := InitialState(ids, chunks);
    assert Keys(gs.tichu) == ids;
  }

  /** In a new room seat k finds chunk k in its hand, and every seat has an
      empty pile and no bonus call. */
  lemma InitialStateHands(ids: seq<string>, chunks: seq<seq<Card>>, k: nat)
    requires |ids| == MaxPlayers && Distinct(ids) && |chunks| >= MaxPlayers && k < MaxPlayers
    ensures Get(InitialState(ids, chunks).cards, ids[k]) == Some(chunks[k])
    ensures Get(InitialState(ids, chunks).collectedCards, ids[k]) == Some([])
    ensures Get(InitialState(ids, chunks).tichu, ids[k]) == Some(None)
  {
    var gs := InitialState(ids, chunks);
    GetAt(gs.cards, k);
    GetAt(gs.collectedCards, k);
    GetAt(gs.tichu, k);
  }

  /** A new room is already at the start of a turn: dealing the same chunks
      with `startNewTurn` changes nothing, so `initGameState` and
      `startNewTurn` agree on the phase, the empty trick, the passes, the
      finished list, the piles and the hands. */
  lemma InitialIsNewTurn(ids: seq<string>, chunks: seq<seq<Card>>)
    requires |ids| == MaxPlayers && |chunks| >= MaxPlayers
    ensures |chunks| >= |InitialState(ids, chunks).cards|
    ensures NewTurn(InitialState(ids, chunks), chunks) == InitialState(ids, chunks)
  {
    var gs := InitialState(ids, chunks);
    assert Keys(gs.cards) == ids;
    assert MapAlways(gs.collectedCards, []) == gs.collectedCards;
  }

  /** The state `startNewTurn` builds: the i-th hand, in key order, gets
      chunk i, the piles are emptied and the trick, passes, finished list,
      player on play, phase and dragon flag start over; the teams, their
      scores, the seating and the bonus calls are kept. */
  function NewTurn(gs: GameState, chunks: seq<seq<Card>>): GameState
    requires |chunks| >= |gs.cards|
  {
    gs.(collectedCards := MapAlways(gs.collectedCards, []),
        cards := Zip(Keys(gs.cards), chunks),
        currentCombination := DefaultTrick,
        onPlay := "",
        numberOfPasses := 0,
        cardsPlayedThisTurn := [],
        finished := [],
        gamePart := BigTichu,
        sendDeck := false)
  }

  /** A new turn keeps the state valid and changes none of the seating,
      the scores and the bonus calls. */
  lemma NewTurnValid(gs: GameState, chunks: seq<seq<Card>>)
    requires Valid(gs) && |chunks| >= |gs.cards|
    ensures Valid(NewTurn(gs, chunks))
    ensures NewTurn(gs, chunks).teams == gs.teams && NewTurn(gs, chunks).tichu == gs.tichu
    ensures NewTurn(gs, chunks).turnOrder == gs.turnOrder
  {
  }

  /** In a new turn seat k finds chunk k in its hand and an empty pile. */
  lemma NewTurnHands(gs: GameState, chunks: seq<seq<Card>>, k: nat)
    requires Valid(gs) && |chunks| >= |gs.cards| && k < MaxPlayers
    ensures Get(NewTurn(gs, chunks).cards, gs.turnOrder[k]) == Some(chunks[k])
    ensures Get(NewTurn(gs, chunks).collectedCards, gs.turnOrder[k]) == Some([])
  {
    var r := NewTurn(gs, chunks);
    GetAt(r.cards, k);
    GetAt(r.collectedCards, k);
  }

  /** Dealt from a shuffled deck, a new turn hands out every card of the
      deck exactly once. */
  lemma NewTurnDealsDeck(gs: GameState, js: seq<nat>)
    requires Valid(gs) && SwapChoices(js, |Deck|)
    ensures multiset(Flatten(Vals(NewTurn(gs, Deal(js)).cards))) == multiset(Deck)
  {
    DealFacts(js);
    assert Vals(NewTurn(gs, Deal(js)).cards) == Deal(js);
  }

  // ---------------------------------------------------------------------
  // The store

  /** The entries of one room that fit together: a valid state, an
      exchange entry for every seated player, bonus entries only for seated
      players and fewer than four "continue" acknowledgements. */
  predicate RoomReady(gs: GameState, sent: Dict<seq<Card>>, calls: Dict<Option<Call>>, acks: int) {
    Valid(gs)
    && Keys(sent) == gs.turnOrder
    && UniqueKeys(calls)
    && (forall k :: k in Keys(calls) ==> k in gs.turnOrder)
    && 0 <= acks < MaxPlayers
  }

  /** A new room is ready. */
  lemma InitialRoomReady(ids: seq<string>, chunks: seq<seq<Card>>)
    requires |ids| == MaxPlayers && Distinct(ids) && |chunks| >= MaxPlayers
    ensures RoomReady(InitialState(ids, chunks), Blank(ids, []), [], 0)
  {
    InitialStateValid(ids, chunks);
  }

  /** A valid state at the same seats in place of the old one keeps a
      room ready. */
  lemma RoomReadyAfter(gs: GameState, next: GameState, sent: Dict<seq<Card>>, calls: Dict<Option<Call>>, acks: int)
    requires RoomReady(gs, sent, calls, acks) && Valid(next) && next.turnOrder == gs.turnOrder
    ensures RoomReady(next, sent, calls, acks)
  {
  }

  class RoomStore {
    var gameStates: map<string, GameState>
    var sentCards: map<string, Dict<seq<Card>>>
    var tichus: map<string, Dict<Option<Call>>>
    var continues: map<string, int>

    /** The four empty maps of a server that has no room yet. */
    constructor()
      ensures gameStates == map[] && sentCards == map[] && tichus == map[] && continues == map[]
    {
      gameStates := map[];
      sentCards := map[];
      tichus := map[];
      continues := map[];
    }

    /** A room that has been set up: it is in all four maps, its state is
        valid, every seated player has an exchange entry, the bonus entries
        belong to seated players and fewer than four players have
        acknowledged the end of the turn. */
    predicate Ready(roomId: string)
      reads this
    {
      roomId in gameStates && roomId in sentCards && roomId in tichus && roomId in continues
      && RoomReady(gameStates[roomId], sentCards[roomId], tichus[roomId], continues[roomId])
    }

    /** `setGameState`. */
    method SetGameState(roomId: string, gs: GameState)
      modifies this
      ensures gameStates == old(gameStates)[roomId := gs]
      ensures sentCards == old(sentCards) && tichus == old(tichus) && continues == old(continues)
    {
      gameStates := gameStates[roomId := gs];
    }

    /** `setSentCards`. */
    method SetSentCards(roomId: string, sent: Dict<seq<Card>>)
      modifies this
      ensures sentCards == old(sentCards)[roomId := sent]
      ensures gameStates == old(gameStates) && tichus == old(tichus) && continues == old(continues)
    {
      sentCards := sentCards[roomId := sent];
    }

    /** `setSentCardsForPlayer`: the player's entry in the room's object. */
    method SetSentCardsForPlayer(roomId: string, socketId: string, cards: seq<Card>)
      requires roomId in sentCards
      modifies this
      ensures sentCards == old(sentCards)[roomId := Put(old(sentCards[roomId]), socketId, cards)]
      ensures gameStates == old(gameStates) && tichus == old(tichus) && continues == old(continues)
    {
      sentCards := sentCards[roomId := Put(sentCards[roomId], socketId, cards)];
    }

    /** `setTichusForPlayer`: the player's entry in the room's object. */
    method SetTichusForPlayer(roomId: string, socketId: string, call: Option<Call>)
      requires roomId in tichus
      modifies this
      ensures tichus == old(tichus)[roomId := Put(old(tichus[roomId]), socketId, call)]
      ensures gameStates == old(gameStates) && sentCards == old(sentCards) && continues == old(continues)
    {
      tichus := tichus[roomId := Put(tichus[roomId], socketId, call)];
    }

    /** `resetSentCards`: computes the room's exchange object with every
        entry emptied and returns it; the store itself is not written. */
    method ResetSentCards(roomId: string) returns (emptied: Dict<seq<Card>>)
      requires roomId in sentCards
      ensures Keys(emptied) == Keys(sentCards[roomId])
      ensures forall i :: 0 <= i < |emptied| ==> emptied[i].val == []
      ensures !AllCardsAreSent(emptied) <==> |emptied| > 0
    {
      emptied := MapAlways(sentCards[roomId], []);
      if |emptied| > 0 {
        assert emptied[0].val == [];
      }
    }

    /** `resetTichus`. */
    method ResetTichus(roomId: string)
      modifies this
      ensures tichus == old(tichus)[roomId := []]
      ensures gameStates == old(gameStates) && sentCards == old(sentCards) && continues == old(continues)
    {
      tichus := tichus[roomId := []];
    }

    /** `resetContinues`. */
    method ResetContinues(roomId: string)
      modifies this
      ensures continues == old(continues)[roomId := 0]
      ensures gameStates == old(gameStates) && sentCards == old(sentCards) && tichus == old(tichus)
    {
      continues := continues[roomId := 0];
    }

    /** `addOneToContinues`. */
    method AddOneToContinues(roomId: string)
      requires roomId in continues
      modifies this
      ensures continues == old(continues)[roomId := old(continues[roomId]) + 1]
      ensures gameStates == old(gameStates) && sentCards == old(sentCards) && tichus == old(tichus)
    {
      continues := continues[roomId := continues[roomId] + 1];
    }

    /** `deleteRoomStates`: the room leaves all four maps. */
    method DeleteRoomStates(roomId: string)
      modifies this
      ensures gameStates == old(gameStates) - {roomId}
      ensures sentCards == old(sentCards) - {roomId}
      ensures tichus == old(tichus) - {roomId}
      ensures continues == old(continues) - {roomId}
    {
      gameStates := gameStates - {roomId};
      sentCards := sentCards - {roomId};
      tichus := tichus - {roomId};
      continues := continues - {roomId};
    }

    /** The seating loop of `initGameState`: every player in join order gets
        an empty exchange entry in the store and, in the objects being
        built, the next chunk, an empty pile, a seat and no bonus call; the
        players alternate between the two team lists. */
    method SeatPlayers(roomId: string, clientIds: seq<string>, chunks: seq<seq<Card>>)
      returns (turnOrder: seq<string>, collectedCards: Dict<seq<Card>>, cards: Dict<seq<Card>>,
               tichu: Dict<Option<Call>>, team1: seq<string>, team2: seq<string>)
      requires Distinct(clientIds) && |clientIds| <= |chunks| && roomId in sentCards && sentCards[roomId] == []
      modifies this
      ensures turnOrder == clientIds && cards == Zip(clientIds, chunks)
      ensures collectedCards == Blank(clientIds, []) && tichu == Blank(clientIds, None)
      ensures team1 == SeatsOfParity(clientIds, 1) && team2 == SeatsOfParity(clientIds, 0)
      ensures sentCards == old(sentCards)[roomId := Blank(clientIds, [])]
      ensures gameStates == old(gameStates) && tichus == old(tichus) && continues == old(continues)
    {
      var i := 0;
      team1, team2, turnOrder := [], [], [];
      collectedCards, cards, tichu := [], [], [];
      ghost var roomSent: Dict<seq<Card>> := [];
      ghost var before := sentCards;
      UpdateSame(before, roomId);
      assert clientIds[..0] == [];
      while i < |clientIds|
        invariant 0 <= i <= |clientIds|
        invariant turnOrder == clientIds[..i]
        invariant cards == Zip(clientIds[..i], chunks)
        invariant collectedCards == Blank(clientIds[..i], [])
        invariant tichu == Blank(clientIds[..i], None)
        invariant team1 == SeatsOfParity(clientIds[..i], 1)
        invariant team2 == SeatsOfParity(clientIds[..i], 0)
        invariant roomSent == Blank(clientIds[..i], [])
        invariant sentCards == before[roomId := roomSent]
        invariant gameStates == old(gameStates) && tichus == old(tichus) && continues == old(continues)
      {
        var clientId := clientIds[i];
        SeatingStep(clientIds, chunks, i);
        // the direct write into the room's exchange object
        UpdateTwice(before, roomId, roomSent, Put(roomSent, clientId, []));
        SetSentCardsForPlayer(roomId, clientId, []);
        roomSent := Put(roomSent, clientId, []);
        cards := Put(cards, clientId, chunks[i]);
        collectedCards := Put(collectedCards, clientId, []);
        turnOrder := turnOrder + [clientId];
        tichu := Put(tichu, clientId, None);
        i := i + 1;
        if i % 2 == 0 {
          team1 := team1 + [clientId];
        } else {
          team2 := team2 + [clientId];
        }
      }
      assert clientIds[..i] == clientIds;
    }

    /** `initGameState` for the players `clientIds` of a full room, in the
        order they joined, with the deck shuffled by the choices `js`. */
    method InitGameState(roomId: string, clientIds: seq<string>, js: seq<nat>)
      requires |clientIds| == MaxPlayers && Distinct(clientIds) && SwapChoices(js, |Deck|)
      modifies this
      ensures gameStates == old(gameStates)[roomId := InitialState(clientIds, Deal(js))]
      ensures sentCards == old(sentCards)[roomId := Blank(clientIds, [])]
      ensures tichus == old(tichus)[roomId := []]
      ensures continues == old(continues)[roomId := 0]
      ensures Ready(roomId)
    {
      var shuffled := RandomizeDeck(js);
      var chunks := ChunkDeck(shuffled);
      assert chunks == Deal(js);
      assert |chunks| == MaxPlayers;
      SetSentCards(roomId, []);
      ResetTichus(roomId);
      ResetContinues(roomId);
      var turnOrder, collectedCards, cards, tichu, team1, team2 := SeatPlayers(roomId, clientIds, chunks);
      UpdateTwice(old(sentCards), roomId, [], Blank(clientIds, []));
      SeatsOfFour(clientIds);
      var finalState := GameState(
        turnOrder := turnOrder,
        collectedCards := collectedCards,
        cards := cards,
        tichu := tichu,
        currentCombination := DefaultTrick,
        teams := [Team(team1, 0, 0), Team(team2, 0, 1)],
        onPlay := "",
        numberOfPasses := 0,
        cardsPlayedThisTurn := [],
        finished := [],
        gamePart := BigTichu,
        sendDeck := false);
      assert finalState == InitialState(clientIds, chunks);
      SetGameState(roomId, finalState);
      InitialRoomReady(clientIds, chunks);
      assert gameStates[roomId] == InitialState(clientIds, chunks) && sentCards[roomId] == Blank(clientIds, []);
    }

    /** `startNewTurn`, with the deck shuffled by the choices `js`. */
    method StartNewTurn(roomId: string, js: seq<nat>)
      requires roomId in gameStates && Valid(gameStates[roomId]) && SwapChoices(js, |Deck|)
      modifies this
      ensures |Deal(js)| >= |old(gameStates[roomId]).cards|
      ensures gameStates == old(gameStates)[roomId := NewTurn(old(gameStates[roomId]), Deal(js))]
      ensures sentCards == old(sentCards) && tichus == old(tichus) && continues == old(continues)
    {
      var roomGameState := gameStates[roomId];
      var shuffledDeck := RandomizeDeck(js);
      var chunks := ChunkDeck(shuffledDeck);
      assert chunks == Deal(js);
      var newGameState := roomGameState.(
        collectedCards := MapAlways(roomGameState.collectedCards, []),
        cards := Zip(Keys(roomGameState.cards), chunks),
        currentCombination := DefaultTrick,
        onPlay := "",
        numberOfPasses := 0,
        cardsPlayedThisTurn := [],
        finished := [],
        gamePart := BigTichu,
        sendDeck := false);
      SetGameState(roomId, newGameState);
    }
  }
}
