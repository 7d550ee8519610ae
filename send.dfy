/** The exchange and the dragon trick: `sendCardsListener` records what a
    player passes on and runs the exchange once everybody has, and
    `sendDeckListener` gives the trick to the player the Dragon's winner
    names. */
module Send {
  import opened Wrappers
  import opened Seqs
  import opened Dicts
  import opened Constants
  import opened Utils
  import opened GameStates
  import opened Store
  import opened Resolvers
  import opened ResolverFacts

  /** `sendCardsListener`: the sender's entry becomes `cards`, and once no
      entry is empty the exchange runs on the recorded entries. */
  method SendCardsListener(store: RoomStore, roomId: string, socketId: string, cards: seq<Card>)
    requires store.Ready(roomId) && socketId in store.gameStates[roomId].turnOrder
    modifies store
    ensures var recorded := Put(old(store.sentCards[roomId]), socketId, cards);
      store.sentCards == old(store.sentCards)[roomId := recorded]
      && (AllCardsAreSent(recorded) ==>
            store.gameStates == old(store.gameStates)[roomId := SwitchCardsState(old(store.gameStates[roomId]), recorded)])
      && (!AllCardsAreSent(recorded) ==> store.gameStates == old(store.gameStates))
    ensures store.tichus == old(store.tichus) && store.continues == old(store.continues)
    ensures store.Ready(roomId)
  {
    ghost var gameState := store.gameStates[roomId];
    store.SetSentCardsForPlayer(roomId, socketId, cards);
    if AllCardsAreSent(store.sentCards[roomId]) {
      ResolveSwitchCards(store, roomId);
      SwitchCardsValid(gameState, store.sentCards[roomId]);
    }
  }

  /** The exchange runs exactly when the sender passes on some cards and
      every other seated player's entry is non-empty. */
  lemma ExchangeWaitsForEveryone(sent: Dict<seq<Card>>, t: seq<string>, p: string, cards: seq<Card>)
    requires Keys(sent) == t && Distinct(t) && p in t
    ensures AllCardsAreSent(Put(sent, p, cards)) <==> cards != [] && forall q :: q in t && q != p ==> Get(sent, q) != Some([])
  {
    AllCardsAreSentPerPlayer(Put(sent, p, cards), t);
  }

  /** `sendDeckListener`: the turn end with the receiver the client names,
      or, when it names none, the trick's winner; whoever sends it and
      whether or not the room waits for a receiver. */
  method SendDeckListener(store: RoomStore, roomId: string, deckReceiver: Option<string>)
    requires store.Ready(roomId)
    modifies store
    ensures TurnEndState(old(store.gameStates[roomId]), deckReceiver).None? ==> store.gameStates == old(store.gameStates)
    ensures TurnEndState(old(store.gameStates[roomId]), deckReceiver).Some? ==>
      store.gameStates == old(store.gameStates)[roomId := TurnEndState(old(store.gameStates[roomId]), deckReceiver).value]
    ensures store.sentCards == old(store.sentCards) && store.tichus == old(store.tichus) && store.continues == old(store.continues)
    ensures store.Ready(roomId)
  {
    ghost var gameState := store.gameStates[roomId];
    ResolveTurnEnd(store, roomId, deckReceiver);
    if TurnEndState(gameState, deckReceiver).Some? {
      TurnEndResets(gameState, deckReceiver);
    }
  }

  /** The trick goes to the named receiver, or to its winner when nobody is
      named, whatever the dragon flag says: the flag plays no part in the
      outcome, and a seated receiver's pile gains the trick's cards. */
  lemma SendDeckIgnoresFlag(gs: GameState, deckReceiver: Option<string>, flag: bool)
    requires Valid(gs)
    ensures TurnEndState(gs.(sendDeck := flag), deckReceiver) == TurnEndState(gs, deckReceiver)
    ensures var receiver := deckReceiver.GetOr(gs.currentCombination.playedBy);
      receiver in gs.turnOrder ==>
        TurnEndState(gs, deckReceiver).Some?
        && Get(TurnEndState(gs, deckReceiver).value.collectedCards, receiver)
           == Some(At(gs.collectedCards, receiver) + gs.cardsPlayedThisTurn)
  {
    TurnEndPiles(gs, deckReceiver);
  }
}
