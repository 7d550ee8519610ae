# Tichu game server: a verified model of the rule engine

This project models the rule engine of a four-player Tichu card game server in Dafny and proves what
it does. The server keeps one record per room and changes it in response to player actions:
- playing cards, passing and playing the dog;
- choosing who receives a trick won with the Dragon;
- grand and small bonus calls ("tichus");
- the card exchange at the start of a turn;
- the acknowledgements that start the next turn.

The model has five parts.

- **Cards and combinations** (`constants.dfy`, `combination.dfy`, `combination_facts.dfy`).
  - The 56-card deck is four colours of thirteen ranks plus the Dog, the Phoenix, the Mahjong and the Dragon.
  - The combination resolver sorts the cards' values, the way JavaScript sorts them: numbers ascending, undefined last.
  - It classifies a play as single, pair or run of pairs, triple, full house, four-card bomb, straight or straight bomb, or as nothing.
  - It decides whether a play may go on the combination on the table, including the bomb rules.
  - The lemmas describe each shape by the cards' values, for example "five cards, one value three times and another twice".
  - Others show that the shapes exclude one another and that the classification ignores card order.
  - Others show that "may be played on" is irreflexive, asymmetric and transitive.
- **Helpers** (`utils.dfy`).
  - The Fisher–Yates shuffle runs in place on an array, with the random index of every step given as a parameter.
  - Dealing cuts the deck into four hands of fourteen.
  - Seat arithmetic finds the next seat, and the next player who has not finished.
  - Card points: the Phoenix -25, the Dragon 25, fives 5, tens and kings 10. The points add up over piles, do not depend on card order, and the deck is worth 100.
- **The room store** (`game_state.dfy`, `store.dfy`).
  - The game state record and the seating: teams of opposite seats.
  - A class `RoomStore` has the four per-room maps of the server: game states, exchange cards, bonus answers and acknowledgements.
  - Its methods are the store's setters, the set-up of a room, and the deal of a new turn.
- **Resolvers and handlers** (`resolvers.dfy`, `resolver_facts.dfy`, `game_actions.dfy`, `game_action_facts.dfy`, `tichus.dfy`, `send.dfy`, `base.dfy`).
  - Every handler and resolver is a method on the store.
  - Each method's postcondition gives the new contents of the store as a function of the old contents.
  - Lemmas about those functions state what the game promises: exchange routing, trick piles and the next lead, the scores of both kinds of turn end, bonus payouts, and the pass threshold.
  - Each handler builds what it stores from a snapshot taken when it starts. That snapshot overwrites what nested resolvers stored in the same call. The model keeps this.
- **The older single-file copy** (`legacy.dfy`).
  - `index.js` repeats the engine. The model shares every definition with the modular copy where the code is the same.
  - It models separately the two places where `index.js` behaves differently:
    - its `failOtherTichus` re-reads the stored state on each iteration, so failed calls add up;
    - its `playCards` has no legality test and builds from the live state, so the first player out keeps their bonus.
  - Several of `index.js`'s functions are the same as the modular copy and use the shared definitions. These are `countDeckScore`, `switchCards`, `resolveTurnEnd`, `resolveDragonSend`, `resolveNormalEnd`, `resolveTeamEnd`, `resolveTichuPartEnd`, `startNewTurn`, `initGameState`, the helpers, and the dog, pass, bonus-call, exchange and continue handlers, except that the older exchange handler also writes back the emptied exchange object (`index.js:517`, see "## Left out").

Modelling choices:
- **JavaScript objects.** A JavaScript object keyed by player id is an association list in insertion order (`Dicts.Dict`). The order of its keys matters in three places:
  - which failed bonus call counts;
  - who leads when the Mahjong is looked up;
  - which hand gets which chunk in a new turn.
- **Values JavaScript lacks.** `undefined`, `NaN` and `null` are `None`.
- **Crashes.** A call that crashes the handler becomes `None`, or leaves the store unchanged.
- **Library semantics.** `propNotEq("name", X)` (`src/utils.js:31`, used at `src/listeners/gameActions.js:42` and `:149`) is read as "the card's `name` is not X", the argument order of ramda before version 0.29. The ramda version is not part of this model; under the later order, `propEq("name", X)` would compare the property `X` with the value `"name"`, and neither filter would remove anything.
- **Constants not in the source.** The rank table, the list of bombs and the combination names are imported by the resolver but not defined in the source. They are supplied as follows:
  - ranks `"2"`…`"A"` are 2…14;
  - the Mahjong is 1 and the Dragon 25;
  - the bombs are the four-card bomb and the straight bomb.

Three behaviours of the code are easy to misread as slips. The model keeps each of them as written:
- **Rejected plays are applied.** `playCardsListener` (`src/listeners/gameActions.js:122-133`) tells the player that a wrong claim or an illegal play is invalid, and then applies the play anyway; nothing in the handler returns after the message. `GameActionFacts.PlayStoredUnlessThrows` states this.
- **`resetSentCards` writes nothing.** It only returns the emptied object (`src/gameState.js:28-29`), so the exchange entries stay in the store.
- **The bonus points of the first player out are lost.** The play and dog handlers end by storing a state built from their snapshot. The scores and calls stored by `resolveTichus` for the first player out are therefore lost (`GameActionFacts.FirstOutBonusLost`).

## Model

| member | source | states |
|---|---|---|
| Constants.DeckFacts | src/constants.js:29-36 | the deck is 56 cards, each card exactly once, every card is in it, and a chunk is 14 |
| Constants.SpecialNumbers | src/constants.js:23-28 | the Mahjong has number 1 and the Dragon 25; the Dog and the Phoenix have none, and no special card has a colour |
| Constants.SuitCards | src/constants.js:2-17 | one colour's cards are the thirteen ranks 2 … 14 of that colour, in order |
| Constants.DeckSize | src/constants.js:36 | `CHUNK_SIZE` is 56 / 4 = 14 |
| CombinationResolver.CardValues | src/combinationResolver/combinationResolver.js:31-34 | the values are sorted ascending with undefined last, and are a rearrangement of the cards' values, one per card |
| CombinationResolver.SortValues | src/combinationResolver/combinationResolver.js:32 | the sort's result is sorted and a permutation of its input |
| CombinationResolver.InsertValue | src/combinationResolver/combinationResolver.js:32 | inserting into a sorted list keeps it sorted and adds exactly the one value |
| CombinationResolver.GetCombinationType | src/combinationResolver/combinationResolver.js:97-103 | no cards give null and one card gives a single |
| CombinationResolver.PairValue | src/combinationResolver/combinationResolver.js:47-54 | the value picked from a full house occurs exactly twice and is the smallest that does; none when no value occurs twice |
| CombinationResolver.FirstTwiceFacts | src/combinationResolver/combinationResolver.js:47-54 | the first key of `countBy` counted twice is the smallest value counted twice |
| CombinationResolver.IsBigger | src/combinationResolver/combinationResolver.js:176-195 | a full house beats another by the value of its pair and every other kind by its highest value; `BiggerIrreflexive`, `BiggerAsymmetric` and `BiggerTransitive` make it a strict order, `HighestValue` and `FullHousePairValue` say which value is compared |
| CombinationResolver.IsValidCombination | src/combinationResolver/combinationResolver.js:56-95 | an empty table takes any play; a bomb goes on any non-bomb, a straight bomb on any non-straight-bomb and on a shorter straight bomb; otherwise the play must be of the table's kind and bigger; the claimed kind null on a non-empty table is excluded, where the source throws; the `CombinationFacts` lemmas from `EmptyTableAcceptsAll` to `BeatsTransitive` state these cases and that the relation is a strict order |
| CombinationFacts.SortedValuesUnique | src/combinationResolver/combinationResolver.js:31-34 | two sorted lists with the same elements are equal, so the sort has one result |
| CombinationFacts.CardValuesOfPermutation | src/combinationResolver/combinationResolver.js:31-34 | the sorted values do not depend on the order the cards are played in |
| CombinationFacts.ConsecutiveValues | src/combinationResolver/combinationResolver.js:38-41 | distinct sorted values whose span is their count minus one are consecutive |
| CombinationFacts.UniqOne | src/combinationResolver/combinationResolver.js:36 | `areValuesEqual` holds exactly when every element equals the first |
| CombinationFacts.EqualTwos | src/combinationResolver/combinationResolver.js:132-137 | every slice of two is equal exactly when each even position equals the next |
| CombinationFacts.UniqOfTwos | src/combinationResolver/combinationResolver.js:133-136 | a list of equal pairs has as distinct values those at its even positions |
| CombinationFacts.PairValuesRun | src/combinationResolver/combinationResolver.js:129-140 | the pair test on sorted values implies the values are m, m, m+1, m+1, … |
| CombinationFacts.RunPairValues | src/combinationResolver/combinationResolver.js:129-140 | the values m, m, m+1, m+1, … pass the pair test |
| CombinationFacts.PairShape | src/combinationResolver/combinationResolver.js:129-140 | `isCombinationPair` holds exactly when the sorted values are m, m, m+1, m+1, …, so 2,2,2,2,3,3 and 2,2,4,4 are rejected |
| CombinationFacts.StraightShape | src/combinationResolver/combinationResolver.js:164-172 | a straight is exactly at least five sorted values m, m+1, …, m+n-1 |
| CombinationFacts.UnvaluedLast | src/combinationResolver/combinationResolver.js:31-34 | a Dog or a Phoenix among the cards puts undefined at the end of the values |
| CombinationFacts.UnvaluedBreaksRuns | src/combinationResolver/combinationResolver.js:129-172 | a Dog or a Phoenix makes every pair run and every straight fail |
| CombinationFacts.TripleShape | src/combinationResolver/combinationResolver.js:142-145 | a triple is exactly three cards of one value |
| CombinationFacts.Bomb4Shape | src/combinationResolver/combinationResolver.js:158-162 | a four-card bomb is exactly four cards of one value without a Phoenix |
| CombinationFacts.SameValues | src/combinationResolver/combinationResolver.js:36 | the sorted values have one distinct value exactly when all cards have the first card's value |
| CombinationFacts.FullHouseCounts | src/combinationResolver/combinationResolver.js:147-156 | values passing the full-house test hold one value three times and another twice |
| CombinationFacts.CountsFullHouse | src/combinationResolver/combinationResolver.js:147-156 | five values, one three times and another twice, pass the full-house test |
| CombinationFacts.FullHouseShape | src/combinationResolver/combinationResolver.js:147-156 | a full house is exactly five cards with one value three times and another twice, so four plus one is rejected |
| CombinationFacts.ShapesExclusive | src/combinationResolver/combinationResolver.js:104-126 | the shapes exclude one another, so the order of the tests hides none |
| CombinationFacts.Classification | src/combinationResolver/combinationResolver.js:104-126 | every kind is returned exactly for its shape, a straight bomb exactly for a one-coloured straight, and null exactly for no shape |
| CombinationFacts.KindSizes | src/combinationResolver/combinationResolver.js:97-127 | a single is one card, `PAIRn` is 2n cards, triples 3, full houses 5, bombs 4, straights and straight bombs their length of at least 5 |
| CombinationFacts.KindOfPermutation | src/combinationResolver/combinationResolver.js:97-127 | the kind does not depend on the order of the cards |
| CombinationFacts.HighestValue | src/combinationResolver/combinationResolver.js:187-191 | the compared value is the maximum of the cards' values, and is missing exactly when a Dog or a Phoenix is played |
| CombinationFacts.FullHousePairValue | src/combinationResolver/combinationResolver.js:193-195 | a full house of three x and two y compares by y |
| CombinationFacts.BiggerIrreflexive | src/combinationResolver/combinationResolver.js:176-195 | no combination is bigger than itself |
| CombinationFacts.BiggerAsymmetric | src/combinationResolver/combinationResolver.js:176-195 | bigger is asymmetric |
| CombinationFacts.BiggerTransitive | src/combinationResolver/combinationResolver.js:176-195 | bigger is transitive |
| CombinationFacts.EmptyTableAcceptsAll | src/combinationResolver/combinationResolver.js:61-63 | anything may be played on an empty table |
| CombinationFacts.BombOverrides | src/combinationResolver/combinationResolver.js:79-89 | a bomb goes on any non-bomb, and a straight bomb on a four-card bomb |
| CombinationFacts.OnlyBombsBeatBombs | src/combinationResolver/combinationResolver.js:79-94 | nothing but a bomb goes on a bomb |
| CombinationFacts.BombStraightOnBombStraight | src/combinationResolver/combinationResolver.js:82-94 | a straight bomb goes on a straight bomb exactly when it is longer, or of the same kind and bigger |
| CombinationFacts.SameKindAndHigher | src/combinationResolver/combinationResolver.js:91-94 | without bombs a play must be of the table's exact kind and bigger |
| CombinationFacts.BeatsIrreflexive | src/combinationResolver/combinationResolver.js:56-95 | no combination may be played on a copy of itself |
| CombinationFacts.BeatsAsymmetric | src/combinationResolver/combinationResolver.js:56-95 | if a may be played on b, b may not be played on a |
| CombinationFacts.BeatsTransitive | src/combinationResolver/combinationResolver.js:56-95 | if a may be played on b and b on c, a may be played on c |
| Utils.ShuffleInPlace | src/utils.js:34-41 | the in-place swap loop leaves the array as the sequence of swaps chosen by the given indices |
| Utils.ShuffledPermutation | src/utils.js:34-41 | any choice of swap indices only rearranges the cards |
| Utils.RandomizeDeck | src/utils.js:34-41 | the result is the shuffled copy of the deck and a permutation of it |
| Utils.ChunkDeck | src/utils.js:43-49 | the chunks are consecutive slices of 14 whose concatenation is the input, four of them for a full deck |
| Utils.FindPlayerNextTo | src/utils.js:51-55 | the player found is seated at the table |
| Utils.NextToSeat | src/utils.js:51-55 | `plus` steps from seat k reach seat (k + plus) mod n |
| Utils.Neighbours | src/utils.js:51-55 | at a table of four the seats 1, 2 and 3 on are the other three players, each once |
| Utils.NextNotFinished | src/utils.js:60-66 | the player found is seated and has not finished |
| Utils.NextNotFinishedIsFirst | src/utils.js:60-66 | it is the first such player after the given one; every seat passed on the way has finished |
| Utils.NextNotFinishedOther | src/utils.js:60-66 | a player still in hands on to somebody else while another player is still in |
| Utils.GetNextPlayerNotFinished | src/utils.js:60-66 | the `while` loop terminates when somebody has not finished and returns the player `NextNotFinished` names |
| Utils.ScoreAppend | src/utils.js:68-83 | the points of two piles together are the sum of their points |
| Utils.ScorePermutation | src/utils.js:68-83 | the points of a pile do not depend on card order |
| Utils.SuitScore | src/utils.js:68-83 | each colour is worth 25 points |
| Utils.DeckScore | src/utils.js:68-83 | the deck is worth 100 points |
| Utils.ShuffledDeckScore | src/utils.js:68-83 | any shuffle of the deck is worth 100 points |
| Utils.CountDeckScore | src/utils.js:68-83 | the left fold of the card points from 0: the Phoenix -25, the Dragon 25, fives 5, tens and kings 10; `ScoreAppend`, `ScorePermutation`, `SuitScore` and `DeckScore` show it adds up over piles, ignores order, gives 25 a colour and 100 the deck |
| Utils.AllCardsAreSent | src/utils.js:85 | no entry of the exchange object is empty; `AllCardsAreSentPerPlayer` restates it seat by seat |
| Utils.AllCardsAreSentPerPlayer | src/utils.js:85 | with one entry per player, all cards are sent exactly when every player's entry is non-empty |
| Utils.DidAnyTeamFinish | src/utils.js:87-89 | the finished players, in any order, are exactly the players of one team; `OneIsNoTeam` and `PartnersAreTeam` state the cases the handlers meet |
| Utils.OneIsNoTeam | src/utils.js:87-89 | one finished player is never a whole team |
| Utils.PartnersAreTeam | src/utils.js:87-89 | two partners finished, in either order, are their team |
| Utils.GetPlayerOnPlay | src/utils.js:91-95 | the player found is the first whose hand holds the Mahjong, and none is found exactly when no hand holds it |
| GameStates.TeamWith | src/resolvers.js:145 | `find` of the team holding p returns one of the two teams, and p is in it |
| GameStates.TeamWithout | src/resolvers.js:144 | `find` of the team not holding p returns one of the two teams, and p is not in it |
| GameStates.TeamsOfSeat | src/gameState.js:59-77 | at a seated table each player is on exactly one team, the one their seat gives |
| GameStates.SortByIndex | src/resolvers.js:168 | sorting two teams by index puts the lower index first and keeps both |
| GameStates.AddScoreSeat | src/resolvers.js:270-277 | the team of p gains exactly delta, the other keeps its score, and both stay in place |
| GameStates.ScoreTeamsSeat | src/resolvers.js:157-168 | both teams gain their turn's points and stay in place |
| GameStates.FirstOther | src/listeners/gameActions.js:36-40 | the other player of a team of two is returned |
| GameStates.Teammate | src/listeners/gameActions.js:36-40 | the teammate is seated and is not the player |
| GameStates.TeammateOpposite | src/listeners/gameActions.js:36-40 | the teammate sits two seats on |
| GameStates.FirstNotIn | src/resolvers.js:143 | `difference(...)[0]` is the first element not excluded |
| GameStates.SomeoneUnfinished | src/utils.js:60-66 | in a valid state somebody is still playing, so the next-player loop ends |
| GameStates.ValidRescored | src/resolvers.js:254-290 | new scores and calls of seated players keep a state valid |
| GameStates.ValidEnded | src/resolvers.js:165-170 | new teams and emptied hands keep a state valid in any phase |
| Store.Deal | src/gameState.js:44-58 | a deal is four hands of fourteen |
| Store.DealFacts | src/gameState.js:44-58 | whatever the swap choices, the four hands hold every card of the deck exactly once |
| Store.InitialState | src/gameState.js:44-85 | the state `initGameState` builds: seat k holds chunk k, empty piles, no calls, the parity teams at score 0 and the grand-call phase; `InitialStateValid`, `InitialStateHands` and `InitialIsNewTurn` state it is valid, its hands, and that it is a new turn on the same chunks |
| Store.SeatsOfFour | src/gameState.js:59-72 | the seating loop sends seats 1 and 3 to one team list and seats 2 and 4 to the other |
| Store.InitialStateValid | src/gameState.js:74-85 | a new room is validly seated, with teams at index 0 (second and fourth seats) and 1 (first and third), both at 0 points |
| Store.InitialStateHands | src/gameState.js:59-72 | in a new room seat k holds chunk k, an empty pile and no call |
| Store.InitialIsNewTurn | src/gameState.js:44-110 | a new room is already at the start of a turn: `startNewTurn` on the same chunks changes nothing |
| Store.NewTurn | src/gameState.js:87-110 | the state `startNewTurn` builds: the i-th hand gets chunk i, piles, trick, passes and finished list start over, seating, teams and calls stay; `NewTurnValid`, `NewTurnHands` and `NewTurnDealsDeck` state it is valid, its hands, and that the hands hold the whole deck |
| Store.NewTurnValid | src/gameState.js:87-110 | a new turn keeps the state valid, and the teams, scores, seating and calls |
| Store.NewTurnHands | src/gameState.js:87-110 | in a new turn seat k gets chunk k and an empty pile |
| Store.NewTurnDealsDeck | src/gameState.js:87-110 | a new turn deals every card of the deck exactly once |
| Store.InitialRoomReady | src/gameState.js:44-85 | a new room's entries fit together |
| Store.RoomReadyAfter | src/gameState.js:16-17 | a valid state at the same seats keeps a room's entries fitting together |
| Store.RoomStore.constructor | src/gameState.js:6-9 | the four maps start empty |
| Store.RoomStore.SetGameState | src/gameState.js:16-17 | only the room's game state is replaced |
| Store.RoomStore.SetSentCards | src/gameState.js:19-20 | only the room's exchange object is replaced |
| Store.RoomStore.SetSentCardsForPlayer | src/gameState.js:22-23 | only the player's exchange entry changes |
| Store.RoomStore.SetTichusForPlayer | src/gameState.js:25-26 | only the player's bonus answer changes, overwriting an earlier one in place |
| Store.RoomStore.ResetSentCards | src/gameState.js:28-29 | an object with the same keys and every entry empty is returned, and the store is not written |
| Store.RoomStore.ResetTichus | src/gameState.js:31 | the room's answers become empty, nothing else changes |
| Store.RoomStore.ResetContinues | src/gameState.js:33 | the room's counter becomes 0, nothing else changes |
| Store.RoomStore.AddOneToContinues | src/gameState.js:35 | the room's counter grows by exactly 1, nothing else changes |
| Store.RoomStore.DeleteRoomStates | src/gameState.js:37-42 | the room leaves all four maps |
| Store.RoomStore.SeatPlayers | src/gameState.js:59-72 | the seating loop builds the hands, piles, calls and team lists and gives each player an empty exchange entry |
| Store.RoomStore.InitGameState | src/gameState.js:44-85 | the room holds the initial state dealt from the shuffled deck, empty exchange entries, no answers and a zero counter, and is ready |
| Store.RoomStore.StartNewTurn | src/gameState.js:87-110 | the room's state becomes the new turn dealt from the shuffled deck |
| Resolvers.SentLists | src/resolvers.js:42-50 | the exchange lists in seat order, a missing list read as empty |
| Resolvers.SwitchedHands | src/resolvers.js:52-57 | the exchanged hands keep the keys of the old ones |
| Resolvers.HandOut | src/resolvers.js:44-49 | the inner loop adds to each player's received cards exactly the sender's gift to them |
| Resolvers.CollectSwitchedCards | src/resolvers.js:42-50 | the nested loops give each player exactly the cards the others handed them, in seat order |
| Resolvers.SwitchCardsState | src/resolvers.js:52-64 | the exchanged hands, the play phase and the Mahjong holder on play; `SwitchedHandOf`, `SwitchCardsValid` and `SwitchCardsLead` state each new hand, validity and who leads |
| Resolvers.ResolveSwitchCards | src/resolvers.js:37-69 | the store holds the exchanged state and keeps the exchange entries |
| Resolvers.TurnEndState | src/resolvers.js:71-100 | the receiver, named or the trick's winner, gains the trick's cards and the trick starts over with its winner, or the next player still in, on play; None when the receiver has no pile; `TurnEndPiles` and `TurnEndResets` state the piles and the reset |
| Resolvers.ResolveTurnEnd | src/resolvers.js:71-108 | the store holds the trick's end, or is unchanged when the receiver has no pile |
| Resolvers.DragonSendState | src/resolvers.js:110-121 | the Dragon trick's winner is on play and must choose a receiver; `DragonSendFacts` states that and that nothing else changes |
| Resolvers.ResolveDragonSend | src/resolvers.js:110-128 | the store holds the state waiting for the Dragon's receiver |
| Resolvers.Loser | src/resolvers.js:143 | the loser is seated and has not gone out |
| Resolvers.NormalEndState | src/resolvers.js:130-174 | the live state with the turn ended, every hand emptied and the teams scored from the snapshot; `NormalEndLosingScore`, `NormalEndWinningScore`, `NormalEndValid` and `NormalEndKeeps` state the two scores, validity and the fields kept |
| Resolvers.ResolveNormalEnd | src/resolvers.js:130-174 | the store holds the normal end computed from the snapshot |
| Resolvers.TeamEndState | src/resolvers.js:176-202 | the live state with the turn ended, every hand emptied and the finishing team 200 up; `TeamEndScores`, `TeamEndValid` and `TeamEndKeeps` state the scores, validity and the fields kept |
| Resolvers.ResolveTeamEnd | src/resolvers.js:176-202 | the store holds the team end computed from the snapshot |
| Resolvers.TichuPartEndState | src/resolvers.js:208-213 | the grand-call window is followed by the small-call one and that by the exchange, and the answers become the calls in force; `TichuPartEndFacts` states the phase and that the rest stays |
| Resolvers.ResolveTichuPartEnd | src/resolvers.js:204-218 | nothing changes before four answers; then the state advances and the answers are reset |
| Resolvers.Called | src/resolvers.js:222 | `filter(identity)` on the calls: the entries holding a call, in key order; `CalledExactly` states that they are exactly those entries |
| Resolvers.CalledExactly | src/resolvers.js:222 | the calls kept are exactly the entries holding a call |
| Resolvers.NullFor | src/resolvers.js:263-268 | the caller's entry becomes null, and the keys and other entries stay |
| Resolvers.TichuSuccessState | src/resolvers.js:254-290 | the success branch keeps the state valid |
| Resolvers.FailOne | src/resolvers.js:224-242 | one iteration: the caller's team loses the call's value and every entry is nulled; `FailOneValid` states it keeps the state valid, `FailOthersLastWins` and `FailAllAccumulates` what it does to the scores |
| Resolvers.FailOneValid | src/resolvers.js:224-242 | one deduction keeps the state valid |
| Resolvers.CalledAreSeated | src/resolvers.js:222 | every caller is seated |
| Resolvers.FailOthersState | src/resolvers.js:220-252 | the failed calls keep the state valid and the seating |
| Resolvers.ResolveFailOtherTichus | src/resolvers.js:220-252 | the loop, each iteration spreading the state read once, leaves the store holding `FailOthersState` |
| Resolvers.TichusResolvedState | src/resolvers.js:254-290 | success then failure keeps the state valid |
| Resolvers.ResolveTichus | src/resolvers.js:254-290 | the store holds the success branch followed by the failed calls |
| ResolverFacts.OffsetZero | src/resolvers.js:42-50 | a sender's own seat is the only one at offset 0 |
| ResolverFacts.GiftLength | src/resolvers.js:42-50 | when every sender sends three cards, a player gets one card from every other seat and none from their own |
| ResolverFacts.ReceivedLength | src/resolvers.js:42-50 | when every player sends three cards, every player receives exactly three |
| ResolverFacts.SentCardArrives | src/resolvers.js:42-50 | the player i seats after a sender receives the sender's card at position i - 1 |
| ResolverFacts.SwitchedHandOf | src/resolvers.js:52-57 | after the exchange a hand is the cards received followed by the old hand without the cards sent |
| ResolverFacts.SwitchCardsValid | src/resolvers.js:52-67 | the exchange keeps the state valid, starts the play phase and changes only the hands and the lead |
| ResolverFacts.SwitchCardsLead | src/resolvers.js:59-65 | the lead goes to a holder of the Mahjong, or to nobody when no hand holds it |
| ResolverFacts.TurnEndPiles | src/resolvers.js:80-100 | the trick's end fails exactly when the receiver is not seated; the receiver's pile gains the trick and every other pile and hand stays |
| ResolverFacts.TurnEndResets | src/resolvers.js:80-100 | the trick, its cards, the passes and the dragon flag start over; the winner leads, or the next player still in |
| ResolverFacts.DragonSendFacts | src/resolvers.js:116-121 | only the lead and the dragon flag change, and the trick's end that follows is the one without the stop |
| ResolverFacts.LoserIsLast | src/resolvers.js:143 | with three distinct players out the loser is the only one still in |
| ResolverFacts.WinningPileScore | src/resolvers.js:147-156 | the winning pile's points are the points of the trick, the played cards, the loser's pile, both winners' piles and the loser's hand |
| ResolverFacts.NormalEndSeated | src/resolvers.js:157-170 | after a normal end both teams keep their players and places |
| ResolverFacts.NormalEndLosingScore | src/resolvers.js:157-170 | the loser's team gains only the points of the loser's partner's pile |
| ResolverFacts.NormalEndWinningScore | src/resolvers.js:147-170 | the other team gains the points of the winning pile |
| ResolverFacts.NormalEndValid | src/resolvers.js:157-174 | a normal end ends the turn and keeps the state valid |
| ResolverFacts.NormalEndKeeps | src/resolvers.js:157-174 | a normal end empties every hand and changes nothing else but the teams and the phase |
| ResolverFacts.TeamEndScores | src/resolvers.js:180-194 | the team of the player who went out gains exactly 200 and the other team keeps its score |
| ResolverFacts.TeamEndValid | src/resolvers.js:180-202 | a team end ends the turn and keeps the state valid |
| ResolverFacts.TeamEndKeeps | src/resolvers.js:180-202 | a team end empties every hand and changes nothing else but the teams and the phase |
| ResolverFacts.AllAnswered | src/resolvers.js:208 | four distinct answers from seated players are an answer from every player |
| ResolverFacts.TichuPartEndFacts | src/resolvers.js:208-217 | the grand-call window moves to the small-call window and any other to the exchange, the answers come into force, and the state stays valid |
| ResolverFacts.TichuSuccessScores | src/resolvers.js:255-278 | a successful caller's team gains 200 for a grand call and 100 for a small one; the other team keeps its score |
| ResolverFacts.TichuSuccessNulls | src/resolvers.js:263-277 | a successful call nulls the caller's entry and keeps the others |
| ResolverFacts.TichuSuccessNone | src/resolvers.js:255-256 | without a call of the first player out, the success branch stores nothing |
| ResolverFacts.FailOthersLastWins | src/resolvers.js:220-252 | with calls in force only the last caller's team, in key order, loses that call's value; the other team keeps its score |
| ResolverFacts.FailOthersNulls | src/resolvers.js:220-252 | with calls in force every entry is nulled and the keys stay |
| ResolverFacts.FailOthersNone | src/resolvers.js:220-252 | without calls in force nothing changes |
| GameActions.LiveAfterTichus | src/listeners/gameActions.js:152-162 | the store's state after the bonus-call step is valid at the same seats |
| GameActions.AfterMoveCases | src/listeners/gameActions.js:163-200 | three players out give a normal end, a whole team out a team end, anything else the handler's state |
| GameActions.MoveEndValid | src/listeners/gameActions.js:163-200 | every way a move ends keeps the state valid |
| GameActions.AfterMoveValid | src/listeners/gameActions.js:152-200 | a move keeps the state valid |
| GameActions.TichusIfFirstOut | src/listeners/gameActions.js:152-162 | `resolveTichus` runs exactly for the first player out |
| GameActions.FinishMove | src/listeners/gameActions.js:152-200 | the store holds the end of the move on top of the bonus-call step |
| GameActions.EndMove | src/listeners/gameActions.js:167-200 | the store holds the end of the move chosen by the finished list |
| GameActions.PlayCardsListener | src/listeners/gameActions.js:116-210 | the store holds the play's outcome, or is unchanged when the legality test throws |
| GameActions.ApplyPlay | src/listeners/gameActions.js:122-210 | the same, once the kind of the cards is known |
| GameActions.NextAndHand | src/listeners/gameActions.js:144-150 | the next player who has not finished, and the hand without every played card and without every Phoenix when one is played |
| GameActions.PlayThrows | src/listeners/gameActions.js:122-133 | the claimed and the computed kind are both null while the table holds a combination, where `isValidCombination` throws; `PlayThrowsOnlyForNull` and `PlayStoredUnlessThrows` state that only this case stores nothing |
| GameActions.PlayedHand | src/listeners/gameActions.js:146-150 | the hand without every card equal to a played one, and without every Phoenix when a Phoenix is played; `PlayedHandFacts` states what it keeps and drops |
| GameActions.PlayOnState | src/listeners/gameActions.js:184-199 | the state a play that ends nothing stores; `PlayGoesOnTrick`, `PlayGoesOnHands`, `PlayGoesOnLead` and `PlayOnStateValid` state the trick, the hands, the lead and validity |
| GameActions.PlayOutcome | src/listeners/gameActions.js:116-210 | nothing when the legality test throws, and otherwise the move, rejected or not; `PlayOutcomeMove`, `PlayOutcomeValid`, `PlayTurnEnds` and `FirstOutBonusLost` state its cases |
| GameActions.PlayedState | src/listeners/gameActions.js:184-199 | the state the handler builds from its snapshot; it is valid and keeps the seating unless the mover is the third player out |
| GameActions.PlayOutcomeMove | src/listeners/gameActions.js:122-210 | a play that does not throw is the move with the filtered hand |
| GameActions.PlayOnStateValid | src/listeners/gameActions.js:184-200 | the state a play carries on with is valid |
| GameActions.PlayOutcomeValid | src/listeners/gameActions.js:116-210 | a stored play keeps the state valid |
| GameActions.DogOnStateValid | src/listeners/gameActions.js:75-84 | the state a dog carries on with is valid |
| GameActions.DogLead | src/listeners/gameActions.js:36-40 | the teammate, or the next player still in after the teammate when the teammate has finished; `DogLeadFacts` states both cases |
| GameActions.DogOnState | src/listeners/gameActions.js:75-83 | the state a dog that ends nothing stores: the hand without its dogs, the new lead and the finished list; `DogGoesOn` and `DogOnStateValid` state it |
| GameActions.DogOutcome | src/listeners/gameActions.js:23-87 | the move a dog makes, counting no cards on the table at a normal end; `DogOutcomeValid` and `DogFirstOutBonusLost` state validity and the lost bonus |
| GameActions.DogOutcomeValid | src/listeners/gameActions.js:23-87 | a dog keeps the state valid |
| GameActions.DogListener | src/listeners/gameActions.js:23-87 | the store holds the dog's outcome |
| GameActions.PassOutcomeValid | src/listeners/gameActions.js:89-114 | a stored pass keeps the state valid |
| GameActions.PassOutcome | src/listeners/gameActions.js:89-114 | enough passes end the trick or stop for the Dragon's receiver, otherwise the pass is counted and the next player still in is on play; `PassCounted`, `PassDragonStops`, `PassEndsTrick` and `PassOutcomeValid` state each case |
| GameActions.PassGoesOn | src/listeners/gameActions.js:104-111 | below the threshold the pass is counted and the next player still in is on play |
| GameActions.PassListener | src/listeners/gameActions.js:89-114 | the store holds the pass's outcome, or is unchanged when the trick's end throws |
| GameActionFacts.PlayGoesOnIs | src/listeners/gameActions.js:184-200 | a play that ends nothing stores the state it goes on with |
| GameActionFacts.DogGoesOnIs | src/listeners/gameActions.js:75-84 | a dog that ends nothing stores the state it goes on with |
| GameActionFacts.PlayedHandFacts | src/listeners/gameActions.js:146-150 | the new hand keeps every card not played, removes every copy of a played one, and removes every Phoenix when one was played |
| GameActionFacts.PlayStoredUnlessThrows | src/listeners/gameActions.js:122-133 | a play is stored exactly when the legality test does not throw, so a rejected play is still applied |
| GameActionFacts.PlayThrowsOnlyForNull | src/listeners/gameActions.js:122-133 | the test throws only for a null claim of cards forming nothing on a non-empty table |
| GameActionFacts.PlayGoesOnTrick | src/listeners/gameActions.js:184-200 | the trick becomes the play, its cards are appended, the passes are -1 when the player went out and 0 otherwise, and only the player may join the finished list |
| GameActionFacts.PlayGoesOnHands | src/listeners/gameActions.js:146-150 | the player gets the filtered hand; other hands, piles, scores and calls stay |
| GameActionFacts.AnotherUnfinished | src/listeners/gameActions.js:163-165 | with fewer than three out somebody else is still in |
| GameActionFacts.PlayGoesOnLead | src/listeners/gameActions.js:184-200 | after a play that ends nothing somebody else who is still in is on play |
| GameActionFacts.PlayTurnEnds | src/listeners/gameActions.js:167-182 | three players out, or a whole team, end the turn with every hand emptied |
| GameActionFacts.FirstOutBonusLost | src/listeners/gameActions.js:152-200 | for the first player out the stored scores and calls are the snapshot's, so the bonus resolution is overwritten |
| GameActionFacts.DogLeadFacts | src/listeners/gameActions.js:36-43 | the dog gives the lead to the teammate, or to the next player still in after the teammate |
| GameActionFacts.DogGoesOn | src/listeners/gameActions.js:41-84 | a dog that ends nothing drops every dog from the hand and keeps the trick, its cards, the passes, scores and calls |
| GameActionFacts.DogFirstOutBonusLost | src/listeners/gameActions.js:45-84 | a dog as the last card of the first player out keeps the snapshot's scores and calls |
| GameActionFacts.PassCounted | src/listeners/gameActions.js:104-111 | below the threshold 4 - finished - 1 the passes grow by one, somebody else still in is on play, and nothing else changes |
| GameActionFacts.PassDragonStops | src/listeners/gameActions.js:95-103 | at the threshold a trick holding the Dragon waits for its winner to choose the receiver, the cards staying on the table |
| GameActionFacts.PassEndsTrick | src/listeners/gameActions.js:95-103 | at the threshold a trick without the Dragon goes to its winner's pile and a new trick starts; it throws exactly when the winner is not seated |
| Tichus.CallFor | src/listeners/tichus.js:13-22 | a grand call is recorded exactly in the grand-call window or when the client's `alreadyPlayedBigTichu` flag is set |
| Tichus.RecordAnswer | src/listeners/tichus.js:24-29 | the answer is recorded and the window closes once four are in |
| Tichus.AnswerState | src/listeners/tichus.js:24-29 | the room's state after one answer: the window closes once four answers are recorded; `AnswerAdvancesOnlyWhenAllAnswered` and `LaterAnswerOverwrites` state when it changes |
| Tichus.AnswerEntries | src/gameState.js:25-26 | the answers after one more: reset when the window closes; `AnswerAdvancesOnlyWhenAllAnswered` states they are kept otherwise |
| Tichus.RoomReadyAnswered | src/gameState.js:25-26 | an answer by a seated player keeps the room's entries fitting together |
| Tichus.CallTichuListener | src/listeners/tichus.js:6-30 | the store records the call and advances when four answers are in |
| Tichus.TichuPassListener | src/listeners/tichus.js:32-46 | the store records null and advances when four answers are in |
| Tichus.FourIsEveryone | src/resolvers.js:208 | four answers from seated players are exactly an answer from everyone |
| Tichus.AnswerAdvancesOnlyWhenAllAnswered | src/listeners/tichus.js:24-29 | the state stays until every player has answered; the last answer advances the phase, puts the answers in force and resets them |
| Tichus.LaterAnswerOverwrites | src/gameState.js:25-26 | answering again leaves the window as if the player had answered that way the first time |
| Send.SendCardsListener | src/listeners/send.js:5-12 | the sender's entry is recorded, and the exchange runs exactly when no entry is empty |
| Send.ExchangeWaitsForEveryone | src/listeners/send.js:9-11 | the exchange runs exactly when the sender sends something and every other player's entry is non-empty |
| Send.SendDeckListener | src/listeners/send.js:14-15 | the store holds the trick's end with the receiver the client names, or with the trick's winner when it names none |
| Send.SendDeckIgnoresFlag | src/listeners/send.js:14-15 | the dragon flag plays no part, and the pile of the receiver, named or else the winner, gains the trick when that receiver is seated |
| Base.ContinueStep | src/listeners/base.js:69-76 | the counter stays below 4 and is reset exactly when it reaches 4 |
| Base.ContinueListener | src/listeners/base.js:69-76 | each acknowledgement adds one; the fourth resets the counter and starts a new turn; below four the state is unchanged |
| Base.AcksAfter | src/listeners/base.js:71-74 | the counter after k acknowledgements from 0; `AcksCycle` states it is k mod 4 |
| Base.AcksCycle | src/listeners/base.js:71-74 | after k acknowledgements the counter is k mod 4, and the k-th starts a new turn exactly when 4 divides k |
| Legacy.FailAll | index.js:387-416 | the loop that re-reads the stored state keeps it valid |
| Legacy.LegacyFailOthersState | index.js:387-416 | the older failed-call loop keeps the state valid |
| Legacy.LegacyFailOtherTichus | index.js:387-416 | the store holds the accumulated deductions |
| Legacy.FailAllAccumulates | index.js:391-405 | each team loses the value of every failed call of its players |
| Legacy.DeductedAtLeast | index.js:391-405 | a team's deduction covers each of its failed calls and is never negative |
| Legacy.DeductedTwo | index.js:391-405 | two failed calls of a team cost it both their values |
| Legacy.Deducted | index.js:391-405 | the sum of the values of a team's failed calls; `DeductedAtLeast`, `DeductedTwo` and `FailAllAccumulates` state its bounds and that the older loop deducts it |
| Legacy.LegacyChargesMore | index.js:387-416 | with two or more failed calls the older copy charges the first caller's team strictly more than the modular copy |
| Legacy.FailAllChargesMore | index.js:391-405 | the accumulating loop charges the first caller's team more than the last deduction alone |
| Legacy.FailAllFirstAndLast | index.js:391-405 | the first caller's team pays for the first call and, when it is theirs too, the last |
| Legacy.LegacyTichusResolvedState | index.js:352-385 | the older bonus resolution keeps the state valid |
| Legacy.LegacyResolveTichus | index.js:352-385 | the store holds the success branch followed by the accumulated failures |
| Legacy.LegacyTichuSuccessAlone | index.js:352-385 | a sole caller going out first gains the call's value for their team, and the other team keeps its score |
| Legacy.NothingCalled | index.js:389-390 | entries that all hold null contain no call |
| Legacy.LegacyLive | index.js:645-655 | the store's state after the older bonus step is valid at the same seats |
| Legacy.LegacyPlayCards | index.js:623-706 | the store holds the older play's outcome: every play is applied |
| Legacy.LegacyPlayOutcome | index.js:623-706 | the older play: every play is applied, with the live state spread; `LegacyAgreesUnlessFirstOut` and `LegacyFirstOutKeepsBonus` compare it with the modular handler |
| Legacy.LegacyTichusIfFirstOut | index.js:645-655 | the older bonus step runs exactly for the first player out |
| Legacy.LegacyPlayOnValid | index.js:681-696 | the older carry-on state is valid |
| Legacy.LegacyPlayedState | index.js:681-696 | the state the older handler builds spreads the live state and takes the trick, the passes and the next player from its snapshot |
| Legacy.LegacyAgreesUnlessFirstOut | index.js:623-706 | unless the modular test throws or the player goes out first, both copies store the same state |
| Legacy.LegacyFirstOutKeepsBonus | index.js:681-696 | in the older copy the first player out keeps the scores and calls the bonus resolution stored |

## Left out

- Transport: socket.io and http wiring, the broadcasts to players and the texts of their messages. A rejected play's "Invalid combination" message is not modelled; the play's effect on the state is.
- Joining, leaving and disconnecting (`src/listeners/base.js:12-67`) and usernames. These depend on the socket adapter's state.
- Randomness: `Math.random` in `randomizeDeck` is the parameter `js`, the swap index of every step, any of 0 … i.
- Resolvers.SwitchCardsState: when no hand holds the Mahjong, `getPlayerOnPlay` returns `undefined` (`src/utils.js:91-95`) and the source stores it as the player on play. The player on play is a string in the model, so this case stores `""`, the value `initGameState` uses for nobody. `ResolverFacts.SwitchCardsLead` states that in this case `""` is stored and no seated hand holds the Mahjong.
- Resolvers.SentLists: a sent list shorter than three cards makes the source push `undefined` into a hand. The model skips the missing card instead.
- GameStates.TeamWith: `find` over the teams assumes the two teams every room has.
- GameActions.PlayCardsListener: the claimed kind is `Option<Combo>`. A string that names no combination cannot be expressed.
  - When the table holds a combination and the claim is null, the source throws in `startsWith` before anything is stored. The model gives `None` and an unchanged store.
- Store.RoomStore.Ready: the handlers require a set-up room of four distinct players. A handler that reads a room missing from the store crashes in the source and is not modelled.
- The older `sendCards` handler also writes back the emptied exchange object (`index.js:517`). The model uses the modular `sendCardsListener`, which does not.
- The older copy's `playCards` differs from the modular handler in its rejection messages. Only the state it stores is modelled.
- The random shuffle of the older copy is the same swap loop. It is not modelled separately.
