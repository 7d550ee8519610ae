/** What the play-phase handlers promise: which plays are stored, what a
    play, a dog and a pass leave in the room, who is on play next, and the
    bonus points the final write of the handler loses. */
module GameActionFacts {
  import opened Wrappers
  import opened Seqs
  import opened Dicts
  import opened Constants
  import opened Utils
  import opened GameStates
  import opened Resolvers
  import opened ResolverFacts
  import opened GameActions

  // ---------------------------------------------------------------------
  // Playing cards

  /** The finished list after a move gains the mover exactly when their
      hand is empty and nobody else. */
  lemma NewFinishedMembers(finished: seq<string>, p: string, hand: seq<Card>)
    ensures p in NewFinished(finished, p, hand) <==> hand == [] || p in finished
    ensures forall q :: q != p ==> (q in NewFinished(finished, p, hand) <==> q in finished)
  {
  }

  /** A move by `p` leaving them with `hand` ends the turn neither by a
      third player out nor by a whole team out. */
  predicate EndsNothing(gs: GameState, p: string, hand: seq<Card>)
    requires Valid(gs)
  {
    var nf := NewFinished(gs.finished, p, hand);
    |nf| != MaxPlayers - 1 && !DidAnyTeamFinish(nf, gs.teams[0].players, gs.teams[1].players)
  }

  /** A play that ends nothing stores the state it goes on with. */
  lemma PlayGoesOnIs(gs: GameState, p: string, cards: seq<Card>, claimed: Option<Combo>, kind: Option<Combo>)
    requires Valid(gs) && p in gs.turnOrder && !PlayThrows(gs, claimed, kind)
    requires EndsNothing(gs, p, PlayedHand(At(gs.cards, p), cards))
    ensures PlayOutcome(gs, p, cards, claimed, kind) == Some(PlayOnState(gs, p, cards, claimed, PlayedHand(At(gs.cards, p), cards)))
  {
    var hand := PlayedHand(At(gs.cards, p), cards);
    PlayOutcomeMove(gs, p, cards, claimed, kind);
    AfterMoveCases(gs, p, hand, gs.cardsPlayedThisTurn, cards, PlayOnState(gs, p, cards, claimed, hand));
  }

  /** A dog that ends nothing stores the state it goes on with. */
  lemma DogGoesOnIs(gs: GameState, p: string)
    requires Valid(gs) && p in gs.turnOrder
    requires EndsNothing(gs, p, Without(At(gs.cards, p), [Dog]))
    ensures DogOutcome(gs, p) == DogOnState(gs, p, Without(At(gs.cards, p), [Dog]))
  {
    var hand := Without(At(gs.cards, p), [Dog]);
    AfterMoveCases(gs, p, hand, [], [], DogOnState(gs, p, hand));
  }

  /** The hand after a play holds every card of the old hand that was not
      played, as often as before, and no played card; the extra Phoenix
      filter never removes anything more. */
  lemma PlayedHandFacts(hand: seq<Card>, cards: seq<Card>)
    ensures PlayedHand(hand, cards) == Without(hand, cards)
    ensures forall c :: Count(PlayedHand(hand, cards), c) == if c in cards then 0 else Count(hand, c)
  {
    if Phoenix in cards {
      WithoutAbsent(Without(hand, cards), [Phoenix]);
    }
  }

  /** A play is stored unless the legality test throws; in particular a
      play the handler reports as invalid is stored all the same. */
  lemma PlayStoredUnlessThrows(gs: GameState, p: string, cards: seq<Card>, claimed: Option<Combo>, kind: Option<Combo>)
    requires Valid(gs) && p in gs.turnOrder
    ensures PlayOutcome(gs, p, cards, claimed, kind).None? <==> PlayThrows(gs, claimed, kind)
    ensures !PlayThrows(gs, claimed, kind) && Rejected(gs, cards, claimed, kind) ==> PlayOutcome(gs, p, cards, claimed, kind).Some?
  {
  }

  /** Only a null claim for cards that form no combination, on a table
      that holds one, throws. */
  lemma PlayThrowsOnlyForNull(gs: GameState, claimed: Option<Combo>, kind: Option<Combo>)
    ensures PlayThrows(gs, claimed, kind) ==> claimed.None? && kind.None?
    ensures gs.currentCombination.kind.None? || claimed.Some? || kind.Some? || claimed != kind ==> !PlayThrows(gs, claimed, kind)
  {
  }

  /** A play that ends nothing puts the played cards on the table as the
      claimed kind, adds them to the trick's cards, and counts a pass of
      -1 for a player who went out and 0 otherwise; the player joins the
      finished list exactly when their hand is empty. */
  lemma PlayGoesOnTrick(gs: GameState, p: string, cards: seq<Card>, claimed: Option<Combo>, kind: Option<Combo>)
    requires Valid(gs) && p in gs.turnOrder && !PlayThrows(gs, claimed, kind)
    requires EndsNothing(gs, p, PlayedHand(At(gs.cards, p), cards))
    ensures var hand := PlayedHand(At(gs.cards, p), cards);
      var r := PlayOutcome(gs, p, cards, claimed, kind).value;
      r.currentCombination == Trick(p, cards, claimed)
      && r.cardsPlayedThisTurn == gs.cardsPlayedThisTurn + cards
      && (r.numberOfPasses == -1 <==> hand == []) && (hand != [] ==> r.numberOfPasses == 0)
      && (p in r.finished <==> hand == [] || p in gs.finished)
      && (forall q :: q != p ==> (q in r.finished <==> q in gs.finished))
  {
    PlayGoesOnIs(gs, p, cards, claimed, kind);
    PlayOnTrick(gs, p, cards, claimed, PlayedHand(At(gs.cards, p), cards));
  }

  /** The trick fields of the state a play goes on with. */
  lemma PlayOnTrick(gs: GameState, p: string, cards: seq<Card>, claimed: Option<Combo>, hand: seq<Card>)
    requires Valid(gs) && p in gs.turnOrder
    ensures var r := PlayOnState(gs, p, cards, claimed, hand);
      r.currentCombination == Trick(p, cards, claimed)
      && r.cardsPlayedThisTurn == gs.cardsPlayedThisTurn + cards
      && (r.numberOfPasses == -1 <==> hand == []) && (hand != [] ==> r.numberOfPasses == 0)
      && (p in r.finished <==> hand == [] || p in gs.finished)
      && (forall q :: q != p ==> (q in r.finished <==> q in gs.finished))
  {
    NewFinishedMembers(gs.finished, p, hand);
  }

  /** A play that ends nothing gives the player the filtered hand, leaves
      every other hand, the piles, the scores and the calls alone. */
  lemma PlayGoesOnHands(gs: GameState, p: string, cards: seq<Card>, claimed: Option<Combo>, kind: Option<Combo>)
    requires Valid(gs) && p in gs.turnOrder && !PlayThrows(gs, claimed, kind)
    requires EndsNothing(gs, p, PlayedHand(At(gs.cards, p), cards))
    ensures var r := PlayOutcome(gs, p, cards, claimed, kind).value;
      Get(r.cards, p) == Some(PlayedHand(At(gs.cards, p), cards))
      && (forall q :: q != p ==> Get(r.cards, q) == Get(gs.cards, q))
      && r.collectedCards == gs.collectedCards && r.teams == gs.teams && r.tichu == gs.tichu && r.gamePart == gs.gamePart
  {
    PlayGoesOnIs(gs, p, cards, claimed, kind);
  }

  /** With fewer than three players out there is always somebody besides
      `p` who has not finished. */
  lemma AnotherUnfinished(gs: GameState, p: string)
    requires Valid(gs) && p in gs.turnOrder
    ensures exists q :: q in gs.turnOrder && q != p && q !in gs.finished
  {
    SomeoneLeft(gs.turnOrder, gs.finished + [p]);
  }

  /** After a play that ends nothing the player on play is somebody else
      who has not finished, counting the mover if they just went out. */
  lemma PlayGoesOnLead(gs: GameState, p: string, cards: seq<Card>, claimed: Option<Combo>, kind: Option<Combo>)
    requires Valid(gs) && p in gs.turnOrder && !PlayThrows(gs, claimed, kind)
    requires EndsNothing(gs, p, PlayedHand(At(gs.cards, p), cards))
    ensures var r := PlayOutcome(gs, p, cards, claimed, kind).value;
      r.onPlay in gs.turnOrder && r.onPlay != p && r.onPlay !in r.finished
  {
    PlayGoesOnIs(gs, p, cards, claimed, kind);
    SomeoneUnfinished(gs);
    if p !in gs.finished {
      AnotherUnfinished(gs, p);
      NextNotFinishedOther(gs.turnOrder, p, gs.finished);
    }
  }

  /** A play that leaves three players out, or both players of a team,
      ends the turn: every hand is emptied. */
  lemma PlayTurnEnds(gs: GameState, p: string, cards: seq<Card>, claimed: Option<Combo>, kind: Option<Combo>)
    requires Valid(gs) && p in gs.turnOrder && !PlayThrows(gs, claimed, kind)
    requires var nf := NewFinished(gs.finished, p, PlayedHand(At(gs.cards, p), cards));
      |nf| == MaxPlayers - 1 || DidAnyTeamFinish(nf, gs.teams[0].players, gs.teams[1].players)
    ensures var r := PlayOutcome(gs, p, cards, claimed, kind).value;
      Valid(r) && r.gamePart == TurnEnd
      && Keys(r.cards) == gs.turnOrder && forall j :: 0 <= j < |r.cards| ==> r.cards[j].val == []
  {
    var hand := PlayedHand(At(gs.cards, p), cards);
    var goOn := PlayOnState(gs, p, cards, claimed, hand);
    var nf := NewFinished(gs.finished, p, hand);
    var live := LiveAfterTichus(gs, p, hand);
    AfterMoveCases(gs, p, hand, gs.cardsPlayedThisTurn, cards, goOn);
    if |nf| == MaxPlayers - 1 {
      NormalEndValid(live, gs, nf, gs.cardsPlayedThisTurn, cards);
      NormalEndKeeps(live, gs, nf, gs.cardsPlayedThisTurn, cards);
    } else {
      TeamEndValid(live, gs, p);
      TeamEndKeeps(live, gs, p);
    }
  }

  /** The first player out ends nothing, and the state the handler writes
      last is built from its snapshot: the scores and calls stay those of
      the snapshot, so whatever `resolveTichus` stored for the bonus calls
      is overwritten. */
  lemma FirstOutBonusLost(gs: GameState, p: string, cards: seq<Card>, claimed: Option<Combo>, kind: Option<Combo>)
    requires Valid(gs) && p in gs.turnOrder && !PlayThrows(gs, claimed, kind)
    requires PlayedHand(At(gs.cards, p), cards) == [] && gs.finished == []
    ensures var r := PlayOutcome(gs, p, cards, claimed, kind).value;
      r.teams == gs.teams && r.tichu == gs.tichu && r.finished == [p] && r.numberOfPasses == -1
  {
    OneIsNoTeam(p, gs.teams[0].players, gs.teams[1].players);
    PlayGoesOnIs(gs, p, cards, claimed, kind);
  }

  // ---------------------------------------------------------------------
  // The dog

  /** The dog hands the lead to the teammate, or, once the teammate is
      out, to the next player after the teammate who is not. */
  lemma DogLeadFacts(gs: GameState, p: string)
    requires Valid(gs) && p in gs.turnOrder
    ensures var teammate := Teammate(gs.turnOrder, gs.teams, p);
      DogLead(gs, p) in gs.turnOrder && DogLead(gs, p) !in gs.finished
      && (teammate !in gs.finished ==> DogLead(gs, p) == teammate)
      && (teammate in gs.finished ==> DogLead(gs, p) == NextNotFinished(gs.turnOrder, teammate, gs.finished))
  {
    SomeoneUnfinished(gs);
  }

  /** A dog that ends nothing drops every dog from the hand, moves the lead
      and leaves the trick on the table, its cards and the passes as they
      were. */
  lemma DogGoesOn(gs: GameState, p: string)
    requires Valid(gs) && p in gs.turnOrder
    requires EndsNothing(gs, p, Without(At(gs.cards, p), [Dog]))
    ensures var r := DogOutcome(gs, p);
      Get(r.cards, p) == Some(Without(At(gs.cards, p), [Dog])) && Dog !in Without(At(gs.cards, p), [Dog])
      && (forall q :: q != p ==> Get(r.cards, q) == Get(gs.cards, q))
      && r.onPlay == DogLead(gs, p)
      && r.currentCombination == gs.currentCombination && r.cardsPlayedThisTurn == gs.cardsPlayedThisTurn
      && r.numberOfPasses == gs.numberOfPasses && r.teams == gs.teams && r.tichu == gs.tichu
  {
    DogGoesOnIs(gs, p);
  }

  /** A dog that was the last card of the first player out keeps the
      snapshot's scores and calls, like a play. */
  lemma DogFirstOutBonusLost(gs: GameState, p: string)
    requires Valid(gs) && p in gs.turnOrder
    requires Without(At(gs.cards, p), [Dog]) == [] && gs.finished == []
    ensures var r := DogOutcome(gs, p);
      r.teams == gs.teams && r.tichu == gs.tichu && r.finished == [p]
  {
    OneIsNoTeam(p, gs.teams[0].players, gs.teams[1].players);
    DogGoesOnIs(gs, p);
  }

  // ---------------------------------------------------------------------
  // Passing

  /** Below the threshold a pass is counted, the next player who has not
      finished is on play, and nothing else changes. */
  lemma PassCounted(gs: GameState, p: string)
    requires Valid(gs) && p in gs.turnOrder && gs.numberOfPasses + 1 < |gs.turnOrder| - |gs.finished| - 1
    ensures var r := PassOutcome(gs, p);
      r.Some? && r.value.numberOfPasses == gs.numberOfPasses + 1
      && r.value.onPlay in gs.turnOrder && r.value.onPlay !in gs.finished && r.value.onPlay != p
      && r.value.(numberOfPasses := gs.numberOfPasses, onPlay := gs.onPlay) == gs
  {
    SomeoneUnfinished(gs);
    PassGoesOn(gs, p);
    if p !in gs.finished {
      AnotherUnfinished(gs, p);
      NextNotFinishedOther(gs.turnOrder, p, gs.finished);
    }
  }

  /** At the threshold a trick holding the Dragon stops for its winner
      to choose who receives it; the cards stay on the table. */
  lemma PassDragonStops(gs: GameState, p: string)
    requires Valid(gs) && p in gs.turnOrder && gs.numberOfPasses + 1 >= |gs.turnOrder| - |gs.finished| - 1
    requires Dragon in gs.cardsPlayedThisTurn
    ensures var r := PassOutcome(gs, p);
      r.Some? && r.value.sendDeck && r.value.onPlay == gs.currentCombination.playedBy
      && r.value.cardsPlayedThisTurn == gs.cardsPlayedThisTurn && r.value.collectedCards == gs.collectedCards
  {
    DragonSendFacts(gs, None);
  }

  /** At the threshold a trick without the Dragon goes to its winner's
      pile, and a new trick starts; nobody seated as the winner makes the
      handler throw. */
  lemma PassEndsTrick(gs: GameState, p: string)
    requires Valid(gs) && p in gs.turnOrder && gs.numberOfPasses + 1 >= |gs.turnOrder| - |gs.finished| - 1
    requires Dragon !in gs.cardsPlayedThisTurn
    ensures var r := PassOutcome(gs, p);
      var winner := gs.currentCombination.playedBy;
      (r.None? <==> winner !in gs.turnOrder)
      && (r.Some? ==>
        Get(r.value.collectedCards, winner) == Some(At(gs.collectedCards, winner) + gs.cardsPlayedThisTurn)
        && r.value.cardsPlayedThisTurn == [] && r.value.currentCombination == DefaultTrick
        && r.value.numberOfPasses == 0 && r.value.cards == gs.cards)
  {
    TurnEndPiles(gs, None);
    if PassOutcome(gs, p).Some? {
      TurnEndResets(gs, None);
    }
  }
}
