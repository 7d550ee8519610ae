/** The card and deck model, the phase names, the combination kinds and the
    empty trick: the constant data every other module reads. */
module Constants {
  import opened Wrappers
  import opened Seqs

  const MaxPlayers: nat := 4

  datatype Color = R | G | U | B

  const Colors: seq<Color> := [R, G, U, B]

  /** A rank stands for its entry of the list of numbers "2" ... "10", "J",
      "Q", "K", "A": rank r is the number at position r - 2, and r is also
      the value the rank table gives it (J = 11, Q = 12, K = 13, A = 14). */
  type Rank = r: int | 2 <= r <= 14 witness 2

  /** A card: a coloured card of some rank, or one of the four special
      cards. Equality is structural, as ramda's `equals` on card objects. */
  datatype Card = Ranked(color: Color, rank: Rank) | Dog | Phoenix | Mahjong | Dragon {

    /** The `number` property: the rank for coloured cards, 1 for the
        Mahjong, 25 for the Dragon, none for the Dog and the Phoenix. */
    function Number(): (n: Option<int>)
      ensures n.None? <==> this == Dog || this == Phoenix
    {
      match this
      case Ranked(_, r) => Some(r as int)
      case Mahjong => Some(1)
      case Dragon => Some(25)
      case _ => None
    }

    /** The `color` property, which special cards do not have. */
    function ColorOf(): (c: Option<Color>)
      ensures c.Some? <==> Ranked?
    {
      if Ranked? then Some(color) else None
    }
  }

  /** The thirteen cards of one colour, in the order of the numbers. */
  function SuitCards(c: Color): (r: seq<Card>)
    ensures |r| == 13
    ensures forall i :: 0 <= i < 13 ==> r[i] == Ranked(c, i + 2)
  {
    seq(13, i requires 0 <= i < 13 => Ranked(c, i + 2))
  }

  const SpecialCards: seq<Card> := [Dog, Phoenix, Mahjong, Dragon]

  /** Every colour's cards in colour order, then the special cards. */
  const Deck: seq<Card> := SuitCards(R) + SuitCards(G) + SuitCards(U) + SuitCards(B) + SpecialCards

  const ChunkSize: nat := |Deck| / MaxPlayers

  /** The phases of a turn. */
  datatype GamePart = SmallTichu | BigTichu | SendCards | PlayCards | TurnEnd

  /** A bonus call, recorded under the name of the phase it belongs to. */
  datatype Call = BigCall | SmallCall

  /** The combination kinds; `Pair(1)` is the plain pair, `Pair(n)` n
      connected pairs, `Straight(n)` and `BombStraight(n)` runs of n cards. */
  datatype Combo = Single | Pair(n: nat) | Triple | FullHouse | Bomb4 | Straight(n: nat) | BombStraight(n: nat)

  /** Membership of BOMBS, the bomb four and the bomb straight of any length. */
  predicate IsBomb(c: Combo) {
    c.Bomb4? || c.BombStraight?
  }

  /** The combination on the table; `kind` None is the empty type. */
  datatype Trick = Trick(playedBy: string, cards: seq<Card>, kind: Option<Combo>)

  const DefaultTrick: Trick := Trick("", [], None)

  // ---------------------------------------------------------------------
  // The deck

  function ColorIndex(c: Color): nat {
    match c
    case R => 0
    case G => 1
    case U => 2
    case B => 3
  }

  /** The position a card has in the deck. */
  function DeckPosition(c: Card): nat {
    match c
    case Ranked(col, r) => 13 * ColorIndex(col) + r - 2
    case Dog => 52
    case Phoenix => 53
    case Mahjong => 54
    case Dragon => 55
  }

  lemma DeckAt(i: nat)
    requires i < |Deck|
    ensures DeckPosition(Deck[i]) == i
  {
    var s0, s1, s2, s3 := SuitCards(R), SuitCards(G), SuitCards(U), SuitCards(B);
    assert Deck == s0 + s1 + s2 + s3 + SpecialCards;
    if i < 13 {
      assert Deck[i] == s0[i];
    } else if i < 26 {
      assert Deck[i] == s1[i - 13];
    } else if i < 39 {
      assert Deck[i] == s2[i - 26];
    } else if i < 52 {
      assert Deck[i] == s3[i - 39];
    } else {
      assert Deck[i] == SpecialCards[i - 52];
    }
  }

  /** The deck holds 4 x 13 coloured cards and the 4 special cards, each
      card once, and the chunks dealt to the four players have 14 cards. */
  lemma DeckFacts()
    ensures |Deck| == 56 && ChunkSize == 14
    ensures Distinct(Deck)
    ensures forall c: Card :: c in Deck
    ensures forall c: Card :: Count(Deck, c) == 1
  {
    forall i, j | 0 <= i < j < |Deck| ensures Deck[i] != Deck[j] {
      DeckAt(i);
      DeckAt(j);
    }
    forall c: Card ensures c in Deck {
      match c {
        case Ranked(col, r) =>
          var s := SuitCards(col);
          assert s[r - 2] == c;
          assert c in s;
          match col {
            case R =>
            case G =>
            case U =>
            case B =>
          }
        case _ =>
          assert c in SpecialCards;
      }
    }
    forall c: Card ensures Count(Deck, c) == 1 {
      DistinctCount(Deck, c);
    }
  }

  /** The deck has 56 cards, so a hand has 14. */
  lemma DeckSize()
    ensures |Deck| == 56 && ChunkSize == 14
  {
  }

  /** The special cards that carry a number: the Mahjong 1 and the Dragon 25. */
  lemma SpecialNumbers()
    ensures Mahjong.Number() == Some(1) && Dragon.Number() == Some(25)
    ensures Dog.Number().None? && Phoenix.Number().None?
    ensures forall c :: c in SpecialCards ==> c.ColorOf().None?
  {
  }
}
