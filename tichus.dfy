/** The bonus-call window: `callTichuListener` and `tichuPassListener`
    record a player's answer in the room's answers (`tichus[roomId]`) and
    hand them to `resolveTichuPartEnd`, which closes the window once four
    answers are in. */
module Tichus {
  import opened Wrappers
  import opened Seqs
  import opened Dicts
  import opened Constants
  import opened GameStates
  import opened Store
  import opened Resolvers
  import opened ResolverFacts

  /** The call `callTichuListener` records: a grand call during the
      grand-call window, or when the caller says they have already called
      one, and a small call otherwise. */
  function CallFor(gamePart: GamePart, alreadyPlayedBigTichu: bool): (r: Call)
    ensures r == BigCall <==> gamePart == BigTichu || alreadyPlayedBigTichu
  {
    if gamePart == BigTichu || alreadyPlayedBigTichu then BigCall else SmallCall
  }

  /** The state of the room after `p` answers `answer` to the room's
      answers `entries`: the window closes once four answers are recorded. */
  function AnswerState(gs: GameState, entries: Dict<Option<Call>>, p: string, answer: Option<Call>): GameState {
    var recorded := Put(entries, p, answer);
    if |recorded| == MaxPlayers then TichuPartEndState(gs, recorded, gs.gamePart == BigTichu) else gs
  }

  /** The room's answers after `p` answers: reset when the window closes. */
  function AnswerEntries(entries: Dict<Option<Call>>, p: string, answer: Option<Call>): Dict<Option<Call>> {
    var recorded := Put(entries, p, answer);
    if |recorded| == MaxPlayers then [] else recorded
  }

  /** Records `answer` for `socketId` and lets `resolveTichuPartEnd` look at
      the answers, with the state read at the start of the handler; both
      listeners end this way. */
  method RecordAnswer(store: RoomStore, roomId: string, socketId: string, answer: Option<Call>, gameState: GameState)
    requires store.Ready(roomId) && store.gameStates[roomId] == gameState && socketId in gameState.turnOrder
    modifies store
    ensures store.gameStates == old(store.gameStates)[roomId := AnswerState(gameState, old(store.tichus[roomId]), socketId, answer)]
    ensures store.tichus == old(store.tichus)[roomId := AnswerEntries(old(store.tichus[roomId]), socketId, answer)]
    ensures store.sentCards == old(store.sentCards) && store.continues == old(store.continues)
    ensures store.Ready(roomId)
  {
    var isBigTichuPart := gameState.gamePart == BigTichu;
    ghost var sent, acks := store.sentCards[roomId], store.continues[roomId];
    ghost var recorded := Put(store.tichus[roomId], socketId, answer);
    RoomReadyAnswered(gameState, sent, store.tichus[roomId], acks, socketId, answer);
    store.SetTichusForPlayer(roomId, socketId, answer);
    assert store.tichus[roomId] == recorded;
    ResolveTichuPartEnd(store, roomId, store.tichus[roomId], gameState, isBigTichuPart);
    if |recorded| == MaxPlayers {
      UpdateTwice(old(store.tichus), roomId, recorded, []);
      TichuPartEndFacts(gameState, recorded, isBigTichuPart);
      RoomReadyAfter(gameState, TichuPartEndState(gameState, recorded, isBigTichuPart), sent, [], acks);
    } else {
      UpdateSame(old(store.gameStates), roomId);
    }
  }

  /** An answer by a seated player keeps a room ready, before the window
      closes as after. */
  lemma RoomReadyAnswered(gs: GameState, sent: Dict<seq<Card>>, calls: Dict<Option<Call>>, acks: int, p: string, answer: Option<Call>)
    requires RoomReady(gs, sent, calls, acks) && p in gs.turnOrder
    ensures RoomReady(gs, sent, Put(calls, p, answer), acks) && RoomReady(gs, sent, [], acks)
    ensures UniqueKeys(Put(calls, p, answer)) && forall k :: k in Keys(Put(calls, p, answer)) ==> k in gs.turnOrder
  {
    PutUnique(calls, p, answer);
  }

  /** `callTichuListener`. */
  method CallTichuListener(store: RoomStore, roomId: string, socketId: string, alreadyPlayedBigTichu: bool)
    requires store.Ready(roomId) && socketId in store.gameStates[roomId].turnOrder
    modifies store
    ensures var answer := Some(CallFor(old(store.gameStates[roomId]).gamePart, alreadyPlayedBigTichu));
      store.gameStates == old(store.gameStates)[roomId := AnswerState(old(store.gameStates[roomId]), old(store.tichus[roomId]), socketId, answer)]
      && store.tichus == old(store.tichus)[roomId := AnswerEntries(old(store.tichus[roomId]), socketId, answer)]
    ensures store.sentCards == old(store.sentCards) && store.continues == old(store.continues)
    ensures store.Ready(roomId)
  {
    var gameState := store.gameStates[roomId];
    var gamePart := gameState.gamePart;
    var isBigTichuPart := gamePart == BigTichu;
    if isBigTichuPart || alreadyPlayedBigTichu {
      RecordAnswer(store, roomId, socketId, Some(BigCall), gameState);
    } else {
      RecordAnswer(store, roomId, socketId, Some(SmallCall), gameState);
    }
  }

  /** `tichuPassListener`: the player declines, recorded as null. */
  method TichuPassListener(store: RoomStore, roomId: string, socketId: string)
    requires store.Ready(roomId) && socketId in store.gameStates[roomId].turnOrder
    modifies store
    ensures store.gameStates == old(store.gameStates)[roomId := AnswerState(old(store.gameStates[roomId]), old(store.tichus[roomId]), socketId, None)]
    ensures store.tichus == old(store.tichus)[roomId := AnswerEntries(old(store.tichus[roomId]), socketId, None)]
    ensures store.sentCards == old(store.sentCards) && store.continues == old(store.continues)
    ensures store.Ready(roomId)
  {
    var gameState := store.gameStates[roomId];
    RecordAnswer(store, roomId, socketId, None, gameState);
  }

  // ---------------------------------------------------------------------
  // What an answer does

  /** Four answers from seated players are exactly an answer from every
      seated player. */
  lemma FourIsEveryone(t: seq<string>, recorded: Dict<Option<Call>>)
    requires |t| == MaxPlayers && Distinct(t) && UniqueKeys(recorded)
    requires forall k :: k in Keys(recorded) ==> k in t
    ensures |recorded| == MaxPlayers <==> forall q :: q in t ==> q in Keys(recorded)
  {
    if |recorded| == MaxPlayers {
      AllAnswered(t, recorded);
    } else if forall q :: q in t ==> q in Keys(recorded) {
      var ks, all := set k | k in Keys(recorded), set q | q in t;
      DistinctCard(Keys(recorded));
      DistinctCard(t);
      SubsetCard(ks, all);
      SubsetCard(all, ks);
    }
  }

  /** The window stays open, with the state untouched and the answer
      recorded, until every seated player has answered; the answer that
      completes the round moves the grand-call window on to the small-call
      window and any other to the exchange, puts the answers in force and
      resets them. */
  lemma AnswerAdvancesOnlyWhenAllAnswered(gs: GameState, entries: Dict<Option<Call>>, p: string, answer: Option<Call>)
    requires Valid(gs) && p in gs.turnOrder && UniqueKeys(entries) && forall k :: k in Keys(entries) ==> k in gs.turnOrder
    ensures var recorded := Put(entries, p, answer);
      var everyone := forall q :: q in gs.turnOrder ==> q in Keys(recorded);
      var r := AnswerState(gs, entries, p, answer);
      Get(recorded, p) == Some(answer)
      && (!everyone ==> r == gs && AnswerEntries(entries, p, answer) == recorded)
      && (everyone ==> AnswerEntries(entries, p, answer) == [] && r.tichu == recorded
                       && r.gamePart == (if gs.gamePart == BigTichu then SmallTichu else SendCards))
  {
    var recorded := Put(entries, p, answer);
    PutUnique(entries, p, answer);
    FourIsEveryone(gs.turnOrder, recorded);
  }

  /** A later answer by the same player overwrites their earlier one in
      place, so it never adds a second entry: a player answering again
      leaves the window exactly as if they had answered that way the first
      time. */
  lemma LaterAnswerOverwrites(gs: GameState, entries: Dict<Option<Call>>, p: string, first: Option<Call>, second: Option<Call>)
    requires |Put(entries, p, first)| != MaxPlayers
    ensures AnswerEntries(AnswerEntries(entries, p, first), p, second) == AnswerEntries(entries, p, second)
    ensures AnswerState(AnswerState(gs, entries, p, first), AnswerEntries(entries, p, first), p, second)
         == AnswerState(gs, entries, p, second)
  {
    PutTwice(entries, p, first, second);
  }
}
