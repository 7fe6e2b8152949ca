/** The blackjack hands of chap4/gamer.py (the same `Gamer`, `Dealer` and
    `Player` code appears again in chap5/21point_game/blackjack.py): card
    values, the points of a hand with aces counted 11 while that does not
    bust it, the hand bookkeeping, the two threshold policies and the
    player's state. */
module Gamer {
  import opened PointUtils
  import Decimal

  /** The two actions, `action_set[0]` and `action_set[1]`. */
  const Bid: string := "Bid"
  const Stop: string := "Stop"
  const ActionSet: seq<string> := [Bid, Stop]

  /** A number card's face: the deck only holds '2' to '9'. */
  type Rank = n: int | 2 <= n <= 9 witness 2

  /** A card of the deck. */
  datatype Card = Ace | Num(n: Rank) | Jack | Queen | King

  /** `_card_value`: A is 1, J, Q and K are 10, a number card its number. */
  function CardValue(c: Card): int
  {
    match c
    case Ace => 1
    case Jack | Queen | King => 10
    case Num(n) => n
  }

  /** The twelve faces `['A','2',...,'9','J','Q','K']`. */
  const Faces: seq<Card> := [Ace, Num(2), Num(3), Num(4), Num(5), Num(6), Num(7), Num(8), Num(9), Jack, Queen, King]

  /** The arena's 48 cards: the twelve faces four times. */
  function Deck(): seq<Card>
  {
    Faces + Faces + Faces + Faces
  }

  /** Every card is worth 1 to 10 points; no card is worth exactly 10
      unless it is a face card, so the deck holds no ten. */
  lemma CardValueRange(c: Card)
    ensures 1 <= CardValue(c) <= 10
    ensures CardValue(c) == 10 <==> c in {Jack, Queen, King}
  {
  }

  /** The deck holds 48 cards, each face four times. */
  lemma DeckFacts()
    ensures |Deck()| == 48
    ensures forall c :: multiset(Deck())[c] == 4 * multiset(Faces)[c]
  {
  }

  /** The total with every ace counted as 1. */
  function HardSum(cards: seq<Card>): int
  {
    if |cards| == 0 then 0 else HardSum(cards[..|cards| - 1]) + CardValue(cards[|cards| - 1])
  }

  /** The number of cards worth 1, i.e. the aces. */
  function AceCount(cards: seq<Card>): nat
  {
    if |cards| == 0 then 0 else AceCount(cards[..|cards| - 1]) + (if CardValue(cards[|cards| - 1]) == 1 then 1 else 0)
  }

  /** Every card adds at least 1 and there are no more aces than cards. */
  lemma {:induction false} HardSumBounds(cards: seq<Card>)
    ensures HardSum(cards) >= |cards| >= AceCount(cards)
    ensures HardSum(cards) >= AceCount(cards)
  {
    if |cards| > 0 {
      HardSumBounds(cards[..|cards| - 1]);
    }
  }

  /** A card drawn adds its value to the hard total. */
  lemma HardSumSnoc(cards: seq<Card>, c: Card)
    ensures HardSum(cards + [c]) == HardSum(cards) + CardValue(c)
  {
    assert (cards + [c])[..|cards|] == cards;
  }

  /** How many aces end up counted as 11: as many as fit under 22. */
  function SoftAces(cards: seq<Card>): nat
  {
    var h := HardSum(cards);
    if h > 21 then 0
    else if AceCount(cards) <= (21 - h) / 10 then AceCount(cards)
    else (21 - h) / 10
  }

  /** The points `calc_points` reports. */
  function Total(cards: seq<Card>): int
  {
    HardSum(cards) + 10 * SoftAces(cards)
  }

  /** `calc_points` returns the largest total reachable by counting some of
      the aces as 11 that stays at most 21, or the hard total when even that
      busts; an ace counted 11 remains only when the hand is not bust. */
  lemma PointsMaximal(cards: seq<Card>)
    ensures SoftAces(cards) <= AceCount(cards)
    ensures Total(cards) >= HardSum(cards)
    ensures Total(cards) > 21 ==> SoftAces(cards) == 0 && Total(cards) == HardSum(cards)
    ensures forall k :: 0 <= k <= AceCount(cards) && HardSum(cards) + 10 * k <= 21 ==> HardSum(cards) + 10 * k <= Total(cards)
  {
  }

  /** If an ace had to be demoted to 1, the hand is worth more than 11. */
  lemma DemotedMeansOver11(cards: seq<Card>)
    requires SoftAces(cards) < AceCount(cards)
    ensures Total(cards) > 11
  {
  }

  /** A soft hand (an ace counted 11) is worth 11 to 21 points. */
  lemma SoftHandRange(cards: seq<Card>)
    requires SoftAces(cards) > 0
    ensures 11 <= Total(cards) <= 21
  {
    HardSumBounds(cards);
  }

  /** The worked examples: A K is a soft 21, A A 9 is a soft 21, an empty
      hand is 0 with no soft ace. */
  lemma PointsExamples()
    ensures Total([Ace, King]) == 21 && SoftAces([Ace, King]) > 0
    ensures Total([Ace, Ace, Num(9)]) == 21 && SoftAces([Ace, Ace, Num(9)]) > 0
    ensures Total([]) == 0 && SoftAces([]) == 0
  {
    assert [Ace, King][..1] == [Ace];
    assert HardSum([Ace]) == 1 && AceCount([Ace]) == 1;
    assert HardSum([Ace, King]) == 11 && AceCount([Ace, King]) == 1;
    assert [Ace, Ace, Num(9)][..2] == [Ace, Ace];
    assert [Ace, Ace][..1] == [Ace];
    assert HardSum([Ace, Ace]) == 2 && AceCount([Ace, Ace]) == 2;
    assert HardSum([Ace, Ace, Num(9)]) == 11 && AceCount([Ace, Ace, Num(9)]) == 2;
  }

  /** `show_first_card` on a hand. */
  function FirstCardValue(cards: seq<Card>): int
  {
    if |cards| == 0 then 0 else CardValue(cards[0])
  }

  /** `Dealer.policy`: bid below 17 points. */
  function DealerPolicy(cards: seq<Card>): string
  {
    if Total(cards) < 17 then Bid else Stop
  }

  /** `Player.policy` of chap4: bid below 20 points. */
  function PlayerPolicy(cards: seq<Card>): string
  {
    if Total(cards) < 20 then Bid else Stop
  }

  /** The two thresholds: the dealer bids exactly below 17 points and the
      player exactly below 20, both answer with an action of `action_set`,
      and a hand the dealer would still bid on the player would bid on too. */
  lemma PolicyThresholds(cards: seq<Card>)
    ensures DealerPolicy(cards) in ActionSet && PlayerPolicy(cards) in ActionSet
    ensures DealerPolicy(cards) == Bid <==> Total(cards) < 17
    ensures PlayerPolicy(cards) == Bid <==> Total(cards) < 20
    ensures DealerPolicy(cards) == Bid ==> PlayerPolicy(cards) == Bid
  {
  }

  /** The policies read the best total, aces included: the dealer stands on
      a soft 17 (A 6) and the player on a soft 21 (A K), while the player
      bids on a hard 19 (K 9). */
  lemma PolicyExamples()
    ensures DealerPolicy([Ace, Num(6)]) == Stop
    ensures PlayerPolicy([Ace, King]) == Stop
    ensures PlayerPolicy([King, Num(9)]) == Bid
  {
    assert [Ace, Num(6)][..1] == [Ace];
    assert HardSum([Ace]) == 1 && AceCount([Ace]) == 1;
    assert HardSum([Ace, Num(6)]) == 7 && AceCount([Ace, Num(6)]) == 1;
    assert [Ace, King][..1] == [Ace];
    assert HardSum([Ace, King]) == 11 && AceCount([Ace, King]) == 1;
    assert [King, Num(9)][..1] == [King];
    assert HardSum([King]) == 10 && AceCount([King]) == 0;
    assert HardSum([King, Num(9)]) == 19 && AceCount([King, Num(9)]) == 0;
  }

  /** `show_first_card`: 0 for an empty hand, otherwise the value of the
      first card, 1 to 10; cards dealt later do not change it. */
  lemma FirstCardFacts(cards: seq<Card>, more: seq<Card>)
    ensures |cards| == 0 ==> FirstCardValue(cards) == 0
    ensures |cards| > 0 ==> FirstCardValue(cards) == CardValue(cards[0]) && 1 <= FirstCardValue(cards) <= 10
    ensures |cards| > 0 ==> FirstCardValue(cards + more) == FirstCardValue(cards)
  {
    if |cards| > 0 {
      CardValueRange(cards[0]);
      assert (cards + more)[0] == cards[0];
    }
  }

  /** `get_state`: the dealer's first card, the player's points and whether
      the player holds an ace counted 11. */
  datatype State = State(dealerFirst: int, points: int, softAce: bool)

  function GetState(dealerCards: seq<Card>, playerCards: seq<Card>): State
  {
    State(FirstCardValue(dealerCards), Total(playerCards), SoftAces(playerCards) > 0)
  }

  /** The state is the dealer's visible card (0 to 10), the player's
      `calc_points` and the soft flag, and a soft state is worth 11 to 21;
      once the dealer holds a card, the cards it draws later leave the
      player's state unchanged. */
  lemma GetStateFacts(dealerCards: seq<Card>, playerCards: seq<Card>, more: seq<Card>)
    ensures 0 <= GetState(dealerCards, playerCards).dealerFirst <= 10
    ensures GetState(dealerCards, playerCards).points == Total(playerCards)
    ensures GetState(dealerCards, playerCards).softAce ==> 11 <= GetState(dealerCards, playerCards).points <= 21
    ensures |dealerCards| > 0 ==> GetState(dealerCards + more, playerCards) == GetState(dealerCards, playerCards)
  {
    FirstCardFacts(dealerCards, more);
    if SoftAces(playerCards) > 0 {
      SoftHandRange(playerCards);
    }
  }

  /** `get_state_name`: `str_key` of the state tuple. */
  function StateName(st: State): string
  {
    Key([Group(StateVals(st))])
  }

  /** Distinct states get distinct names, so the learners never mix up two
      states in their tables. */
  lemma StateNameInjective(st1: State, st2: State)
    requires StateName(st1) == StateName(st2)
    ensures st1 == st2
  {
    var t1 := StateTokens(st1);
    var t2 := StateTokens(st2);
    KeyDeterminesTokens([Group(StateVals(st1))], [Group(StateVals(st2))]);
    assert t1[0] == t2[0] && t1[1] == t2[1] && t1[2] == t2[2];
    Decimal.IntToStringInjective(st1.dealerFirst, st2.dealerFirst);
    Decimal.IntToStringInjective(st1.points, st2.points);
  }

  /** The tuple `get_state` builds, as `str_key` sees it. */
  function StateVals(st: State): seq<Val>
  {
    [Int(st.dealerFirst), Int(st.points), Bool(st.softAce)]
  }

  /** Python's names of the two booleans. */
  lemma BoolNamesHaveNoSep()
    ensures '_' !in "True" && '_' !in "False"
  {
  }

  /** The three tokens of a state name, none containing '_'. */
  lemma StateTokens(st: State) returns (ts: seq<string>)
    ensures ts == Flatten([Group(StateVals(st))])
    ensures ts == [Decimal.IntToString(st.dealerFirst), Decimal.IntToString(st.points), if st.softAce then "True" else "False"]
    ensures forall t :: t in ts ==> '_' !in t
  {
    BoolNamesHaveNoSep();
    var vs := StateVals(st);
    assert [Group(vs)][..0] == [];
    ts := ShowAll(vs);
    assert Flatten([Group(vs)]) == [] + ts;
    assert ts[0] == Show(vs[0]) && ts[1] == Show(vs[1]) && ts[2] == Show(vs[2]);
  }

  /** A player or dealer: the cards in hand. */
  class Gamer {
    var cards: seq<Card>

    constructor()
      ensures cards == []
    {
      cards := [];
    }

    /** `receive_cards`: the cards are appended in order. */
    method ReceiveCards(cs: seq<Card>)
      modifies this
      ensures cards == old(cards) + cs
    {
      cards := cards + cs;
    }

    /** `discharge_cards`: the hand is emptied. */
    method DischargeCards()
      modifies this
      ensures cards == []
    {
      cards := [];
    }

    /** `Player.get_state_name(dealer)`: the name of the player's state
        against this dealer. */
    method GetStateName(dealer: Gamer) returns (name: string)
      ensures name == StateName(GetState(dealer.cards, cards))
    {
      var points, specialAceExists := CalcPoints();
      name := StateName(State(FirstCardValue(dealer.cards), points, specialAceExists));
    }

    /** `calc_points`: count aces as 11, then demote them one at a time
        while the total is over 21. */
    method CalcPoints() returns (totalPoint: int, specialAceExists: bool)
      ensures totalPoint == Total(cards)
      ensures specialAceExists == (SoftAces(cards) > 0)
    {
      var specialAceNum := 0;
      totalPoint := 0;
      for i := 0 to |cards|
        invariant specialAceNum == AceCount(cards[..i])
        invariant totalPoint == HardSum(cards[..i]) + 10 * specialAceNum
      {
        assert cards[..i + 1][..i] == cards[..i];
        var v := CardValue(cards[i]);
        if v == 1 {
          specialAceNum := specialAceNum + 1;
          v := 11;
        }
        totalPoint := totalPoint + v;
      }
      assert cards[..|cards|] == cards;
      ghost var h, n := HardSum(cards), AceCount(cards);
      while totalPoint > 21 && specialAceNum > 0
        invariant 0 <= specialAceNum <= n
        invariant totalPoint == h + 10 * specialAceNum
        invariant specialAceNum == n || h + 10 * (specialAceNum + 1) > 21
      {
        totalPoint := totalPoint - 10;
        specialAceNum := specialAceNum - 1;
      }
      SoftAcesIs(h, n, specialAceNum);
      specialAceExists := specialAceNum != 0;
    }
  }

  /** Where the demotion loop stops is the closed form of SoftAces. */
  lemma SoftAcesIs(h: int, n: nat, k: nat)
    requires k <= n
    requires h + 10 * k <= 21 || k == 0
    requires k == n || h + 10 * (k + 1) > 21
    ensures k == (if h > 21 then 0 else if n <= (21 - h) / 10 then n else (21 - h) / 10)
  {
    if h <= 21 {
      var m := (21 - h) / 10;
      assert 10 * m <= 21 - h < 10 * (m + 1);
    }
  }
}
