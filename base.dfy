/** `continueListener`: every player acknowledges the end of a turn, and
    the fourth acknowledgement starts the next one. */
module Base {
  import opened Wrappers
  import opened Seqs
  import opened Dicts
  import opened Constants
  import opened Utils
  import opened GameStates
  import opened Store

  /** The counter after one more acknowledgement: back to 0 when it
      reaches the number of players. */
  function ContinueStep(acks: int): (r: int)
    ensures 0 <= acks < MaxPlayers ==> 0 <= r < MaxPlayers
    ensures r == 0 <==> acks + 1 == MaxPlayers || acks == -1
  {
    if acks + 1 == MaxPlayers then 0 else acks + 1
  }

  /** `continueListener`, with the next deal shuffled by the choices
      `js`. */
  method ContinueListener(store: RoomStore, roomId: string, js: seq<nat>)
    requires store.Ready(roomId) && SwapChoices(js, |Deck|)
    modifies store
    ensures store.continues == old(store.continues)[roomId := ContinueStep(old(store.continues[roomId]))]
    ensures old(store.continues[roomId]) + 1 == MaxPlayers ==>
      store.gameStates == old(store.gameStates)[roomId := NewTurn(old(store.gameStates[roomId]), Deal(js))]
    ensures old(store.continues[roomId]) + 1 != MaxPlayers ==> store.gameStates == old(store.gameStates)
    ensures store.sentCards == old(store.sentCards) && store.tichus == old(store.tichus)
    ensures store.Ready(roomId)
  {
    ghost var gameState := store.gameStates[roomId];
    store.AddOneToContinues(roomId);
    if store.continues[roomId] == MaxPlayers {
      UpdateTwice(old(store.continues), roomId, MaxPlayers, 0);
      store.ResetContinues(roomId);
      store.StartNewTurn(roomId, js);
      NewTurnValid(gameState, Deal(js));
    }
  }

  /** The counter after `k` acknowledgements in a room whose counter
      started at 0. */
  function AcksAfter(k: nat): int {
    if k == 0 then 0 else ContinueStep(AcksAfter(k - 1))
  }

  /** The counter runs round the number of players: after `k`
      acknowledgements it holds `k` mod 4, and the `k`-th acknowledgement
      starts a new turn exactly when `k` is a multiple of 4. */
  lemma {:induction false} AcksCycle(k: nat)
    ensures AcksAfter(k) == k % MaxPlayers
    ensures k > 0 ==> (AcksAfter(k - 1) + 1 == MaxPlayers <==> k % MaxPlayers == 0)
  {
    if k > 0 {
      AcksCycle(k - 1);
    }
  }
}
