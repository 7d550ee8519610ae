/** The game state record of one room, the seating every room keeps, and the
    team lookups the resolvers share (`find` over `teams`, `sortBy(prop("index"))`). */
module GameStates {
  import opened Wrappers
  import opened Seqs
  import opened Dicts
  import opened Constants

  datatype Team = Team(players: seq<string>, score: int, index: int)

  /** One room's state: `cards` are the hands, `collectedCards` the piles of
      won tricks, `tichu` the bonus calls in force for the turn. */
  datatype GameState = GameState(
    turnOrder: seq<string>,
    collectedCards: Dict<seq<Card>>,
    cards: Dict<seq<Card>>,
    tichu: Dict<Option<Call>>,
    currentCombination: Trick,
    teams: seq<Team>,
    onPlay: string,
    numberOfPasses: int,
    cardsPlayedThisTurn: seq<Card>,
    finished: seq<string>,
    gamePart: GamePart,
    sendDeck: bool)

  /** The seating `initGameState` creates: four distinct players; the team
      at index 0 holds the second and fourth seat, the team at index 1 the
      first and third. */
  predicate Seating(t: seq<string>, teams: seq<Team>) {
    |t| == MaxPlayers && Distinct(t) && |teams| == 2
    && teams[0].players == [t[1], t[3]] && teams[0].index == 0
    && teams[1].players == [t[0], t[2]] && teams[1].index == 1
  }

  /** What every handler may rely on and keeps: the seating, one hand and
      one pile per seat, bonus entries only for seated players, and fewer
      than three finished players (the third finisher ends the turn before
      anything is stored). */
  predicate Valid(gs: GameState) {
    Seating(gs.turnOrder, gs.teams)
    && Keys(gs.cards) == gs.turnOrder
    && Keys(gs.collectedCards) == gs.turnOrder
    && UniqueKeys(gs.tichu)
    && (forall k :: k in Keys(gs.tichu) ==> k in gs.turnOrder)
    && |gs.finished| < MaxPlayers - 1
    && (forall p :: p in gs.finished ==> p in gs.turnOrder)
  }

  /** Seated teams and calls of seated players in place of the old ones
      keep a state valid. */
  lemma ValidRescored(gs: GameState, teams: seq<Team>, tichu: Dict<Option<Call>>)
    requires Valid(gs) && Seating(gs.turnOrder, teams)
    requires UniqueKeys(tichu) && forall k :: k in Keys(tichu) ==> k in gs.turnOrder
    ensures Valid(gs.(teams := teams, tichu := tichu))
  {
  }

  /** Seated teams and one empty hand per seat in place of the old ones
      keep a state valid whatever part of the game it moves to. */
  lemma ValidEnded(gs: GameState, part: GamePart, teams: seq<Team>, hands: Dict<seq<Card>>)
    requires Valid(gs) && Seating(gs.turnOrder, teams) && Keys(hands) == gs.turnOrder
    ensures Valid(gs.(gamePart := part, teams := teams, cards := hands))
  {
  }

  /** While the state is valid somebody is still playing. */
  lemma SomeoneUnfinished(gs: GameState)
    requires Valid(gs)
    ensures exists q :: q in gs.turnOrder && q !in gs.finished
  {
    SomeoneLeft(gs.turnOrder, gs.finished);
  }

  // ---------------------------------------------------------------------
  // Teams

  /** The position in `teams` of the team seat `p` belongs to. */
  function TeamOf(t: seq<string>, p: string): nat
    requires |t| == MaxPlayers
  {
    if p == t[1] || p == t[3] then 0 else 1
  }

  /** `find(team => includes(p, team.players))` over the two teams every
      room has. */
  function TeamWith(teams: seq<Team>, p: string): (r: Team)
    requires |teams| == 2 && (p in teams[0].players || p in teams[1].players)
    ensures (r == teams[0] || r == teams[1]) && p in r.players
  {
    if p in teams[0].players then teams[0] else teams[1]
  }

  /** `find(team => !includes(p, team.players))` over the two teams. */
  function TeamWithout(teams: seq<Team>, p: string): (r: Team)
    requires |teams| == 2 && (p !in teams[0].players || p !in teams[1].players)
    ensures (r == teams[0] || r == teams[1]) && p !in r.players
  {
    if p !in teams[0].players then teams[0] else teams[1]
  }

  /** Both lookups land on the team given by the seat. */
  lemma TeamsOfSeat(t: seq<string>, teams: seq<Team>, p: string)
    requires Seating(t, teams) && p in t
    ensures p in teams[0].players || p in teams[1].players
    ensures p !in teams[0].players || p !in teams[1].players
    ensures TeamWith(teams, p) == teams[TeamOf(t, p)]
    ensures TeamWithout(teams, p) == teams[1 - TeamOf(t, p)]
  {
    assert t[0] != t[1] && t[0] != t[3] && t[2] != t[1] && t[2] != t[3];
  }

  /** ramda `sortBy(prop("index"))` on two teams, which keeps equal
      indices in their order. */
  function SortByIndex(a: Team, b: Team): (r: seq<Team>)
    ensures r == [a, b] || r == [b, a]
    ensures r[0].index <= r[1].index
  {
    if b.index < a.index then [b, a] else [a, b]
  }

  /** The teams after seat `p`'s team gains `delta`: `{ ...teamOfSocket,
      score: teamOfSocket.score + delta }` and the other team, sorted by
      index. */
  function AddScore(teams: seq<Team>, p: string, delta: int): seq<Team>
    requires |teams| == 2 && (p in teams[0].players || p in teams[1].players)
    requires p !in teams[0].players || p !in teams[1].players
  {
    var mine := TeamWith(teams, p);
    SortByIndex(mine.(score := mine.score + delta), TeamWithout(teams, p))
  }

  /** At a seated table the team of `p` gains exactly `delta`, the other
      team is unchanged and both stay in their places. */
  lemma AddScoreSeat(t: seq<string>, teams: seq<Team>, p: string, delta: int)
    requires Seating(t, teams) && p in t
    ensures p in teams[0].players || p in teams[1].players
    ensures p !in teams[0].players || p !in teams[1].players
    ensures var i := TeamOf(t, p);
      AddScore(teams, p, delta) == teams[i := teams[i].(score := teams[i].score + delta)]
    ensures Seating(t, AddScore(teams, p, delta))
  {
    TeamsOfSeat(t, teams, p);
  }

  /** The teams after a turn in which the team without `p` scores `other` and
      the team of `p` scores `mine`: `[{ ...winningTeam, score: ... },
      { ...losingTeam, score: ... }]` sorted by index. */
  function ScoreTeams(teams: seq<Team>, p: string, mine: int, other: int): seq<Team>
    requires |teams| == 2 && (p in teams[0].players || p in teams[1].players)
    requires p !in teams[0].players || p !in teams[1].players
  {
    var without := TeamWithout(teams, p);
    var with := TeamWith(teams, p);
    SortByIndex(without.(score := without.score + other), with.(score := with.score + mine))
  }

  /** At a seated table both teams gain their points and stay in their
      places. */
  lemma ScoreTeamsSeat(t: seq<string>, teams: seq<Team>, p: string, mine: int, other: int)
    requires Seating(t, teams) && p in t
    ensures p in teams[0].players || p in teams[1].players
    ensures p !in teams[0].players || p !in teams[1].players
    ensures Seating(t, ScoreTeams(teams, p, mine, other))
    ensures var i := TeamOf(t, p);
      ScoreTeams(teams, p, mine, other)[i].score == teams[i].score + mine
      && ScoreTeams(teams, p, mine, other)[1 - i].score == teams[1 - i].score + other
  {
    TeamsOfSeat(t, teams, p);
  }

  /** `find(x => x !== p)` on a team's two players. */
  function FirstOther(s: seq<string>, p: string): (r: string)
    requires |s| == 2 && (s[0] != p || s[1] != p)
    ensures (r == s[0] || r == s[1]) && r != p
    ensures s[0] != p ==> r == s[0]
  {
    if s[0] != p then s[0] else s[1]
  }

  /** The dog handler's teammate: the other player of the caller's team. */
  function Teammate(t: seq<string>, teams: seq<Team>, p: string): (r: string)
    requires Seating(t, teams) && p in t
    ensures r in t && r != p
  {
    TeamsOfSeat(t, teams, p);
    assert t[0] != t[2] && t[1] != t[3];
    FirstOther(TeamWith(teams, p).players, p)
  }

  /** The teammate sits opposite, two seats on. */
  lemma TeammateOpposite(t: seq<string>, teams: seq<Team>, k: nat)
    requires Seating(t, teams) && k < MaxPlayers
    ensures Teammate(t, teams, t[k]) == t[(k + 2) % MaxPlayers]
  {
    TeamsOfSeat(t, teams, t[k]);
    assert t[0] != t[1] && t[0] != t[2] && t[0] != t[3] && t[1] != t[2] && t[1] != t[3] && t[2] != t[3];
  }

  /** ramda `difference(s, excl)[0]`: the first element of `s` that is not
      in `excl`. */
  function FirstNotIn(s: seq<string>, excl: seq<string>): (r: string)
    requires exists x :: x in s && x !in excl
    ensures r in s && r !in excl
    ensures forall i :: 0 <= i < IndexOf(s, r) ==> s[i] in excl
  {
    if s[0] !in excl then s[0]
    else
      assert forall x :: x in s ==> x == s[0] || x in s[1..];
      var r := FirstNotIn(s[1..], excl);
      assert IndexOf(s, r) == 1 + IndexOf(s[1..], r);
      assert forall i :: 1 <= i < |s| ==> s[i] == s[1..][i - 1];
      r
  }
}
