/** The blackjack arena of chap4/env.py (repeated in
    chap5/21point_game/blackjack.py): a 48-card deck, a card pool dealt from
    the front, the discard pile, the reward rule and the game loop of the
    fixed-threshold player and dealer. Shuffles are arbitrary permutations. */
module Env {
  import opened Wrappers
  import opened PointUtils
  import opened Gamer

  /** One game as the learners see it: the (state name, action) pairs. */
  type Episode = seq<(string, string)>

  /** `random.shuffle`: some permutation of the cards; which one is not
      modelled. */
  method Shuffle(cs: seq<Card>) returns (r: seq<Card>)
    ensures multiset(r) == multiset(cs) && |r| == |cs|
  {
    r := cs;
  }

  /** The reward rule of `give_reward`. */
  function Reward(playerPoints: int, dealerPoints: int): int
  {
    if playerPoints > 21 then -1
    else if playerPoints > dealerPoints || dealerPoints > 21 then 1
    else if playerPoints == dealerPoints then 0
    else -1
  }

  /** The player loses whenever they bust, even when the dealer busts too;
      otherwise they win when ahead or when the dealer busts, draw on equal
      points and lose when behind. The reward is always -1, 0 or 1. */
  lemma RewardCases(p: int, d: int)
    ensures Reward(p, d) in {-1, 0, 1}
    ensures Reward(p, d) == 1 <==> p <= 21 && (p > d || d > 21)
    ensures Reward(p, d) == 0 <==> p <= 21 && d <= 21 && p == d
    ensures Reward(p, d) == -1 <==> p > 21 || (p < d && d <= 21)
  {
  }

  /** A finished episode: at least one decision, the last one "Stop" and
      every earlier one "Bid". */
  predicate Finished(episode: Episode)
  {
    |episode| > 0 && episode[|episode| - 1].1 == Stop
    && forall i :: 0 <= i < |episode| - 1 ==> episode[i].1 == Bid
  }

  /** Every decision so far was "Bid". */
  predicate AllBids(episode: Episode)
  {
    forall i :: 0 <= i < |episode| ==> episode[i].1 == Bid
  }

  /** A bid extends a run of bids; a stop after it finishes the episode. */
  lemma Decide(episode: Episode, name: string, action: string)
    requires AllBids(episode)
    ensures action == Bid ==> AllBids(episode + [(name, action)])
    ensures action == Stop ==> Finished(episode + [(name, action)])
  {
  }

  /** The decisions so far of a turn that began on the first `start`
      cards of the hand: decision n was taken on the first start + n cards
      and `fits` them (`RecordedAt` states this index by index). */
  predicate Recorded(episode: Episode, fits: (nat, seq<Card>, (string, string)) -> bool, hand: seq<Card>, start: nat)
    decreases |episode|
  {
    if episode == [] then start <= |hand| + 1
    else
      var n := |episode| - 1;
      Recorded(episode[..n], fits, hand, start) && start + n <= |hand| && fits(n, hand[..start + n], episode[n])
  }

  /** `Recorded` index by index, in both directions. */
  lemma {:induction false} RecordedAt(episode: Episode, fits: (nat, seq<Card>, (string, string)) -> bool, hand: seq<Card>, start: nat)
    ensures Recorded(episode, fits, hand, start) <==>
              start + |episode| <= |hand| + 1
              && forall i :: 0 <= i < |episode| ==> fits(i, hand[..start + i], episode[i])
    decreases |episode|
  {
    if episode != [] {
      var n := |episode| - 1;
      var front := episode[..n];
      RecordedAt(front, fits, hand, start);
      assert forall i :: 0 <= i < n ==> front[i] == episode[i];
    }
  }

  /** A decision taken on the whole current hand extends the record. */
  lemma RecordedSnoc(episode: Episode, fits: (nat, seq<Card>, (string, string)) -> bool, hand: seq<Card>, start: nat, d: (string, string))
    requires Recorded(episode, fits, hand, start) && start + |episode| == |hand|
    requires fits(|episode|, hand, d)
    ensures Recorded(episode + [d], fits, hand, start)
  {
    assert (episode + [d])[..|episode|] == episode;
    assert hand[..start + |episode|] == hand;
  }

  /** Cards dealt after the last decision leave the record true. */
  lemma {:induction false} RecordedDeal(episode: Episode, fits: (nat, seq<Card>, (string, string)) -> bool, before: seq<Card>, dealt: seq<Card>, start: nat)
    requires Recorded(episode, fits, before, start)
    ensures Recorded(episode, fits, before + dealt, start)
    decreases |episode|
  {
    if episode != [] {
      var n := |episode| - 1;
      RecordedDeal(episode[..n], fits, before, dealt, start);
      PrefixKept(before, dealt, start + n);
    }
  }

  /** The chap4 player's decision on a hand: the `get_state_name` of the
      hand against the dealer's cards, and `Player.policy`'s action. */
  function ThresholdFits(dealerCards: seq<Card>): (nat, seq<Card>, (string, string)) -> bool
  {
    (i: nat, hand: seq<Card>, d: (string, string)) =>
      d.0 == StateName(GetState(dealerCards, hand)) && d.1 == PlayerPolicy(hand)
  }

  /** A finished turn of the threshold player: one decision per card dealt
      after the first `start` cards plus the final one, each `ThresholdFits`. */
  predicate PlayerPlayed(episode: Episode, dealerCards: seq<Card>, hand: seq<Card>, start: nat)
  {
    |hand| + 1 == start + |episode| && Recorded(episode, ThresholdFits(dealerCards), hand, start)
  }

  /** The dealer bid on every hand between its first `start` cards and its
      current hand. */
  predicate DealerBids(hand: seq<Card>, start: nat)
  {
    start <= |hand| && forall k :: start <= k < |hand| ==> DealerPolicy(hand[..k]) == Bid
  }

  /** The dealer's turn after its first `start` cards: `Dealer.policy`
      said "Bid" before each later card and "Stop" on the final hand. */
  predicate DealerPlayed(hand: seq<Card>, start: nat)
  {
    DealerBids(hand, start) && DealerPolicy(hand) == Stop
  }

  /** A card dealt after a bid keeps the dealer's record of bids. */
  lemma DealerBidsDeal(before: seq<Card>, dealt: seq<Card>, start: nat)
    requires DealerBids(before, start) && DealerPolicy(before) == Bid && |dealt| == 1
    ensures DealerBids(before + dealt, start)
  {
    forall k | start <= k < |before + dealt|
      ensures DealerPolicy((before + dealt)[..k]) == Bid
    {
      if k < |before| {
        PrefixKept(before, dealt, k);
      } else {
        assert (before + dealt)[..k] == before;
      }
    }
  }

  /** The last cards of s are t. */
  predicate EndsWith(s: seq<Card>, t: seq<Card>)
  {
    |t| <= |s| && s[|s| - |t|..] == t
  }
  /** What is appended last ends the sequence. */
  lemma EndsWithAppend(s: seq<Card>, a: seq<Card>, b: seq<Card>)
    ensures EndsWith(s + a + b, a + b)
  {
    assert s + a + b == s + (a + b);
    assert (s + (a + b))[|s|..] == a + b;
  }


  /** The threshold player of a finished episode stops at 20 points or
      more, took every earlier decision below 20, and after a bid holds at
      most 29 points. */
  lemma PlayerFinalPoints(episode: Episode, dealerCards: seq<Card>, hand: seq<Card>, start: nat)
    requires PlayerPlayed(episode, dealerCards, hand, start) && Finished(episode)
    ensures Total(hand) >= 20
    ensures forall i :: 0 <= i < |episode| - 1 ==> episode[i].1 == Bid && Total(hand[..start + i]) < 20
    ensures |episode| > 1 ==> Total(hand) <= 29
  {
    var fits := ThresholdFits(dealerCards);
    RecordedAt(episode, fits, hand, start);
    var n := |episode| - 1;
    assert fits(n, hand[..start + n], episode[n]);
    assert hand[..start + n] == hand;
    forall i | 0 <= i < n
      ensures episode[i].1 == Bid && Total(hand[..start + i]) < 20
    {
      assert fits(i, hand[..start + i], episode[i]);
    }
    if n > 0 {
      assert Total(hand[..|hand| - 1]) < 20 by {
        assert hand[..|hand| - 1] == hand[..start + (n - 1)];
        assert episode[n - 1].1 == Bid;
      }
      LastCardBound(hand, 20);
    }
  }


  /** A dealer that played out its turn holds 17 points or more, and at
      most 26 when it drew a card. */
  lemma DealerFinalPoints(hand: seq<Card>, start: nat)
    requires DealerPlayed(hand, start)
    ensures Total(hand) >= 17
    ensures start < |hand| ==> Total(hand) <= 26
  {
    if start < |hand| {
      assert DealerPolicy(hand[..|hand| - 1]) == Bid;
      LastCardBound(hand, 17);
    }
  }

  /** A card taken on a hand worth less than t points leaves a hand worth
      at most t + 9. */
  lemma LastCardBound(hand: seq<Card>, t: int)
    requires |hand| > 0 && Total(hand[..|hand| - 1]) < t
    ensures Total(hand) <= if t + 9 > 21 then t + 9 else 21
  {
    var front := hand[..|hand| - 1];
    assert hand == front + [hand[|hand| - 1]];
    PointsMaximal(front);
    HardSumSnoc(front, hand[|hand| - 1]);
    CardValueRange(hand[|hand| - 1]);
    PointsMaximal(hand);
  }

  /** Cards dealt later leave the hand an earlier decision saw unchanged. */
  lemma PrefixKept(before: seq<Card>, dealt: seq<Card>, m: nat)
    requires m <= |before|
    ensures (before + dealt)[..m] == before[..m]
  {
  }

  /** How many recorded games ended with reward r. */
  function CountReward(games: seq<(Episode, int)>, r: int): nat
  {
    if |games| == 0 then 0
    else CountReward(games[..|games| - 1], r) + (if games[|games| - 1].1 == r then 1 else 0)
  }

  /** When every reward is -1, 0 or 1, the three counts cover every game. */
  lemma {:induction false} CountRewardsCover(games: seq<(Episode, int)>)
    requires forall i :: 0 <= i < |games| ==> games[i].1 in {-1, 0, 1}
    ensures CountReward(games, -1) + CountReward(games, 0) + CountReward(games, 1) == |games|
  {
    if |games| > 0 {
      CountRewardsCover(games[..|games| - 1]);
    }
  }

  /** The `results` list of `repeat_game`: losses, draws and wins. */
  function Tally(games: seq<(Episode, int)>): seq<nat>
  {
    [CountReward(games, -1), CountReward(games, 0), CountReward(games, 1)]
  }

  /** Every recorded game is finished and has a reward of -1, 0 or 1. */
  predicate AllFinished(games: seq<(Episode, int)>)
  {
    forall i :: 0 <= i < |games| ==> Finished(games[i].0) && games[i].1 in {-1, 0, 1}
  }

  /** Recording one more game adds one to the entry 1 + reward of the
      tally, and keeps the record finished. */
  lemma TallySnoc(counts: seq<nat>, games: seq<(Episode, int)>, g: (Episode, int), after: seq<(Episode, int)>, reward: int)
    requires counts == Tally(games) && g.1 == reward && reward in {-1, 0, 1}
    requires after == games + [g]
    ensures Tally(after) == counts[1 + reward := counts[1 + reward] + 1]
    ensures AllFinished(games) && Finished(g.0) ==> AllFinished(after)
  {
    assert after[..|games|] == games;
  }

  /** Over a finished record the tally adds up to the number of games. */
  lemma TallyTotal(games: seq<(Episode, int)>)
    requires AllFinished(games)
    ensures Tally(games)[0] + Tally(games)[1] + Tally(games)[2] == |games|
  {
    CountRewardsCover(games);
  }

  /** Moving cards between the stock s and the player's hand p while the
      dealer's hand d stays put keeps the total. */
  lemma RegroupPlayer(s: multiset<Card>, d: multiset<Card>, p: multiset<Card>, s': multiset<Card>, p': multiset<Card>)
    requires s + p == s' + p'
    ensures s + d + p == s' + d + p'
  {
    calc {
      s + d + p;
      (s + p) + d;
      (s' + p') + d;
      s' + d + p';
    }
  }

  /** Moving cards between the stock s and the dealer's hand d while the
      player's hand p stays put keeps the total. */
  lemma RegroupDealer(s: multiset<Card>, d: multiset<Card>, p: multiset<Card>, s': multiset<Card>, d': multiset<Card>)
    requires s + d == s' + d'
    ensures s + d + p == s' + d' + p
  {
  }

  /** Cards dealt out of pool and discards into a hand change neither the
      total nor the cards outside the two. */
  lemma Conserve(c: multiset<Card>, pool: multiset<Card>, disc: multiset<Card>, got: multiset<Card>,
                 pool0: multiset<Card>, disc0: multiset<Card>, hand: multiset<Card>)
    requires got + pool + disc == pool0 + disc0
    ensures c + pool + disc + (hand + got) == c + pool0 + disc0 + hand
  {
    calc {
      c + pool + disc + (hand + got);
      c + hand + (got + pool + disc);
      c + hand + (pool0 + disc0);
      c + pool0 + disc0 + hand;
    }
  }

  /** Cards dealt in two rounds are the cards of both rounds. */
  lemma AppendAssoc(hand: seq<Card>, first: seq<Card>, next: seq<Card>)
    ensures hand + first + next == hand + (first + next)
  {
  }

  /** One card drawn raises the hard total by 1 to 10 points. */
  lemma DrawOne(before: seq<Card>, dealt: seq<Card>)
    requires |dealt| == 1
    ensures HardSum(before) < HardSum(before + dealt) <= HardSum(before) + 10
  {
    assert dealt == [dealt[0]];
    HardSumSnoc(before, dealt[0]);
    CardValueRange(dealt[0]);
  }

  /** The arena: the deck list it starts from, the pool, the discards and
      the record of played games. */
  class Arena {
    var cards: seq<Card>
    var cardPool: seq<Card>
    var discarded: seq<Card>
    var episodes: seq<(Episode, int)>

    /** All cards outside the two hands. */
    ghost function Stock(): multiset<Card>
      reads this
    {
      multiset(cards) + multiset(cardPool) + multiset(discarded)
    }

    /** The cards outside the hands plus those of g. */
    ghost function Held(g: Gamer): multiset<Card>
      reads this, g
    {
      Stock() + multiset(g.cards)
    }

    /** All cards of the arena and of the two hands. */
    ghost function AllCards(dealer: Gamer, player: Gamer): multiset<Card>
      reads this, dealer, player
    {
      Stock() + multiset(dealer.cards) + multiset(player.cards)
    }

    /** `__init__`: the 48 cards are shuffled into the pool. */
    constructor()
      ensures cards == [] && discarded == [] && episodes == []
      ensures multiset(cardPool) == multiset(Deck())
    {
      cards := Deck();
      cardPool := [];
      discarded := [];
      episodes := [];
      new;
      LoadCards(false);
    }

    /** `load_cards` on the deck list (fromDiscards false) or on the discard
        pile (true): a permutation of the list joins the back of the pool and
        the list is emptied. */
    method LoadCards(fromDiscards: bool)
      modifies this
      ensures episodes == old(episodes)
      ensures |cardPool| >= |old(cardPool)| && cardPool[..|old(cardPool)|] == old(cardPool)
      ensures fromDiscards ==>
                cards == old(cards) && discarded == []
                && multiset(cardPool) == multiset(old(cardPool)) + multiset(old(discarded))
      ensures !fromDiscards ==>
                cards == [] && discarded == old(discarded)
                && multiset(cardPool) == multiset(old(cardPool)) + multiset(old(cards))
    {
      var shuffled := Shuffle(if fromDiscards then discarded else cards);
      for i := 0 to |shuffled|
        invariant cardPool == old(cardPool) + shuffled[..i]
        invariant cards == old(cards) && discarded == old(discarded) && episodes == old(episodes)
      {
        cardPool := cardPool + [shuffled[i]];
      }
      assert shuffled[..|shuffled|] == shuffled;
      if fromDiscards {
        discarded := [];
      } else {
        cards := [];
      }
    }

    /** `give_reward`: both hands' points, the player's soft-ace flag and
        the reward. */
    method GiveReward(dealer: Gamer, player: Gamer) returns (reward: int, playerPoints: int, dealerPoints: int, specialAceExists: bool)
      ensures dealerPoints == Total(dealer.cards) && playerPoints == Total(player.cards)
      ensures specialAceExists == (SoftAces(player.cards) > 0)
      ensures reward == Reward(playerPoints, dealerPoints)
    {
      var dealerSoftAce;
      dealerPoints, dealerSoftAce := dealer.CalcPoints();
      playerPoints, specialAceExists := player.CalcPoints();
      if playerPoints > 21 {
        reward := -1;
      } else {
        if playerPoints > dealerPoints || dealerPoints > 21 {
          reward := 1;
        } else if playerPoints == dealerPoints {
          reward := 0;
        } else {
          reward := -1;
        }
      }
    }

    /** The empty-pool branch of `serve_card`: the discards are shuffled
        and, when there are more than 20 of them, loaded into the empty
        pool; false where the source's assertion fails. */
    method Refill() returns (ok: bool)
      requires cardPool == []
      modifies this
      ensures cards == old(cards) && episodes == old(episodes)
      ensures ok <==> |old(discarded)| > 20
      ensures ok ==> discarded == [] && multiset(cardPool) == multiset(old(discarded))
      ensures !ok ==> cardPool == [] && multiset(discarded) == multiset(old(discarded))
    {
      discarded := Shuffle(discarded);
      if |discarded| <= 20 {
        return false;
      }
      LoadCards(true);
      ok := true;
    }

    /** `serve_card(player, n)`: n cards from the front of the pool; when
        the pool is empty the discards are shuffled and loaded, which the
        source asserts only happens with more than 20 of them. `ok` is false
        where that assertion fails. The cards move without loss. */
    method ServeCard(player: Gamer, n: nat) returns (ok: bool, ghost dealt: seq<Card>)
      modifies this, player
      ensures cards == old(cards) && episodes == old(episodes)
      ensures ok ==> n <= |old(cardPool)| || (|old(discarded)| > 20 && n <= |old(cardPool)| + |old(discarded)|)
      ensures !ok ==> n > |old(cardPool)| && (|old(discarded)| <= 20 || n > |old(cardPool)| + |old(discarded)|)
      ensures !ok ==> player.cards == old(player.cards)
      ensures ok ==> player.cards == old(player.cards) + dealt && |dealt| == n
      ensures ok ==> Held(player) == old(Held(player))
      ensures ok && n <= |old(cardPool)| ==>
                player.cards == old(player.cards) + old(cardPool)[..n]
                && cardPool == old(cardPool)[n..] && discarded == old(discarded)
    {
      ghost var P0, D0 := cardPool, discarded;
      var got: seq<Card> := [];
      for i := 0 to n
        invariant |got| == i
        invariant cards == old(cards) && episodes == old(episodes) && player.cards == old(player.cards)
        invariant multiset(got) + multiset(cardPool) + multiset(discarded) == multiset(P0) + multiset(D0)
        invariant i <= |P0| ==> got == P0[..i] && cardPool == P0[i..] && discarded == D0
        invariant i > |P0| ==> |D0| > 20 && discarded == [] && |cardPool| == |P0| + |D0| - i
      {
        if |cardPool| == 0 {
          var refilled := Refill();
          if !refilled {
            assert n > |P0| && (|D0| <= 20 || n > |P0| + |D0|);
            return false, [];
          }
        }
        assert cardPool == [cardPool[0]] + cardPool[1..];
        got := got + [cardPool[0]];
        cardPool := cardPool[1..];
      }
      assert n <= |P0| || (|D0| > 20 && n <= |P0| + |D0|);
      player.ReceiveCards(got);
      Conserve(multiset(cards), multiset(cardPool), multiset(discarded), multiset(got),
               multiset(P0), multiset(D0), multiset(old(player.cards)));
      ok, dealt := true, got;
    }

    /** One hand of `recycle_cards`: its cards join the discards in order
        and the hand is emptied. */
    method Discard(p: Gamer)
      modifies this, p
      ensures discarded == old(discarded) + old(p.cards) && p.cards == []
      ensures cards == old(cards) && cardPool == old(cardPool) && episodes == old(episodes)
    {
      for i := 0 to |p.cards|
        invariant p.cards == old(p.cards)
        invariant discarded == old(discarded) + p.cards[..i]
        invariant cards == old(cards) && cardPool == old(cardPool) && episodes == old(episodes)
      {
        discarded := discarded + [p.cards[i]];
      }
      assert p.cards[..|p.cards|] == p.cards;
      p.DischargeCards();
    }

    /** `recycle_cards(a, b)`: both hands go to the discards, a's first. */
    method RecycleCards(a: Gamer, b: Gamer)
      requires a != b
      modifies this, a, b
      ensures discarded == old(discarded) + old(a.cards) + old(b.cards)
      ensures a.cards == [] && b.cards == []
      ensures cards == old(cards) && cardPool == old(cardPool) && episodes == old(episodes)
    {
      Discard(a);
      Discard(b);
    }

    /** The player's turn of chap4's `play_game`: record the state and the
        `Player.policy` action (bid below 20 points), and deal one more card
        after each bid. The returned episode is finished, holds one
        decision per card dealt plus the final "Stop", and ends with the
        player at 20 points or more. None where `serve_card` fails. */
    method PlayerTurn(dealer: Gamer, player: Gamer) returns (result: Option<Episode>)
      requires dealer != player
      modifies this, player
      ensures cards == old(cards) && episodes == old(episodes)
      ensures result.Some? ==> Finished(result.value) && Total(player.cards) >= 20
      ensures result.Some? ==> |player.cards| == |old(player.cards)| + |result.value| - 1
      ensures result.Some? ==> PlayerPlayed(result.value, dealer.cards, player.cards, |old(player.cards)|)
      ensures result.Some? ==> player.cards[..|old(player.cards)|] == old(player.cards)
      ensures result.Some? ==> Held(player) == old(Held(player))
    {
      var episode: Episode := [];
      ghost var drawn: seq<Card> := [];
      while true
        invariant cards == old(cards) && episodes == old(episodes)
        invariant Held(player) == old(Held(player))
        invariant player.cards == old(player.cards) + drawn && |drawn| == |episode|
        invariant AllBids(episode)
        invariant Recorded(episode, ThresholdFits(dealer.cards), player.cards, |old(player.cards)|)
        decreases 20 - HardSum(player.cards)
      {
        var action := PlayerPolicy(player.cards);
        var name := player.GetStateName(dealer);
        Decide(episode, name, action);
        RecordedSnoc(episode, ThresholdFits(dealer.cards), player.cards, |old(player.cards)|, (name, action));
        episode := episode + [(name, action)];
        if action != Bid {
          assert player.cards[..|old(player.cards)|] == old(player.cards);
          return Some(episode);
        }
        PointsMaximal(player.cards);
        ghost var before := player.cards;
        var ok; ghost var dealt;
        ok, dealt := ServeCard(player, 1);
        if !ok {
          return None;
        }
        DrawOne(before, dealt);
        RecordedDeal(episode, ThresholdFits(dealer.cards), before, dealt, |old(player.cards)|);
        AppendAssoc(old(player.cards), drawn, dealt);
        drawn := drawn + dealt;
      }
    }

    /** The dealer's turn: `Dealer.policy` bids below 17 points, one card
        per bid, until it stops. False where `serve_card` fails. */
    method DealerTurn(dealer: Gamer) returns (ok: bool)
      modifies this, dealer
      ensures cards == old(cards) && episodes == old(episodes)
      ensures ok ==> Total(dealer.cards) >= 17
      ensures ok ==> |dealer.cards| >= |old(dealer.cards)| && dealer.cards[..|old(dealer.cards)|] == old(dealer.cards)
      ensures ok ==> DealerPlayed(dealer.cards, |old(dealer.cards)|)
      ensures ok ==> Held(dealer) == old(Held(dealer))
    {
      ghost var drawn: seq<Card> := [];
      while true
        invariant cards == old(cards) && episodes == old(episodes)
        invariant Held(dealer) == old(Held(dealer))
        invariant dealer.cards == old(dealer.cards) + drawn
        invariant DealerBids(dealer.cards, |old(dealer.cards)|)
        decreases 17 - HardSum(dealer.cards)
      {
        var action := DealerPolicy(dealer.cards);
        if action != Bid {
          assert dealer.cards[..|old(dealer.cards)|] == old(dealer.cards);
          return true;
        }
        PointsMaximal(dealer.cards);
        ghost var before := dealer.cards;
        ghost var dealt;
        ok, dealt := ServeCard(dealer, 1);
        if !ok {
          return false;
        }
        DrawOne(before, dealt);
        DealerBidsDeal(before, dealt, |old(dealer.cards)|);
        AppendAssoc(old(dealer.cards), drawn, dealt);
        drawn := drawn + dealt;
      }
    }

    /** The opening of `play_game`: two cards to the player, two to the
        dealer, then the player's turn. None where `serve_card` fails. */
    method OpenGame(dealer: Gamer, player: Gamer) returns (result: Option<Episode>)
      requires dealer != player
      modifies this, dealer, player
      ensures cards == old(cards) && episodes == old(episodes)
      ensures result.Some? ==> Finished(result.value) && Total(player.cards) >= 20
      ensures result.Some? ==>
                |player.cards| == |old(player.cards)| + 1 + |result.value|
                && player.cards[..|old(player.cards)|] == old(player.cards)
      ensures result.Some? ==>
                |dealer.cards| == |old(dealer.cards)| + 2
                && dealer.cards[..|old(dealer.cards)|] == old(dealer.cards)
      ensures result.Some? ==> PlayerPlayed(result.value, dealer.cards, player.cards, |old(player.cards)| + 2)
      ensures result.Some? ==> AllCards(dealer, player) == old(AllCards(dealer, player))
    {
      ghost var p0, d0, s0 := player.cards, dealer.cards, Stock();
      var ok; ghost var dealt;
      ok, dealt := ServeCard(player, 2);
      if !ok {
        return None;
      }
      ghost var p1, s1 := player.cards, Stock();
      RegroupPlayer(s0, multiset(d0), multiset(p0), s1, multiset(p1));
      ok, dealt := ServeCard(dealer, 2);
      if !ok {
        return None;
      }
      ghost var d2, s2 := dealer.cards, Stock();
      RegroupDealer(s1, multiset(d0), multiset(p1), s2, multiset(d2));
      assert |p1| == |p0| + 2;
      result := PlayerTurn(dealer, player);
      if result.None? {
        return None;
      }
      assert PlayerPlayed(result.value, dealer.cards, player.cards, |p0| + 2);
      RegroupPlayer(s2, multiset(d2), multiset(p1), Stock(), multiset(player.cards));
      assert player.cards[..|p0|] == p0 by {
        assert player.cards[..|p1|] == p1 && p1[..|p0|] == p0;
      }
      assert dealer.cards[..|d0|] == d0;
    }

    /** The rest of chap4's `play_game` once the player has stopped: on a
        bust (over 21 points) both hands are recycled into `discarded`, the
        dealer drawing nothing; otherwise the dealer plays its turn and the
        hands are left as they are. The reward is `give_reward` on the two
        final hands, and the game is recorded. The ghost output is the
        dealer's final hand. None where `serve_card` fails. */
    method Settle(dealer: Gamer, player: Gamer, episode: Episode)
      returns (result: Option<(Episode, int)>, ghost finalDealer: seq<Card>)
      requires dealer != player
      modifies this, dealer, player
      ensures result.Some? ==> result.value.0 == episode && episodes == old(episodes) + [result.value]
      ensures result.Some? ==> AllCards(dealer, player) == old(AllCards(dealer, player))
      ensures result.Some? ==>
                |finalDealer| >= |old(dealer.cards)| && finalDealer[..|old(dealer.cards)|] == old(dealer.cards)
      ensures result.Some? ==>
                result.value.1 == Reward(Total(old(player.cards)), Total(finalDealer)) && result.value.1 in {-1, 0, 1}
      ensures result.Some? && Total(old(player.cards)) > 21 ==>
                finalDealer == old(dealer.cards) && player.cards == [] && dealer.cards == []
                && EndsWith(discarded, old(player.cards) + finalDealer)
      ensures result.Some? && Total(old(player.cards)) <= 21 ==>
                player.cards == old(player.cards) && dealer.cards == finalDealer
                && DealerPlayed(finalDealer, |old(dealer.cards)|) && Total(finalDealer) >= 17
    {
      ghost var p3, d2, s3 := player.cards, dealer.cards, Stock();
      finalDealer := d2;
      var reward, playerPoints, _, _ := GiveReward(dealer, player);
      RewardCases(playerPoints, Total(d2));
      if playerPoints > 21 {
        RecycleCards(player, dealer);
        assert Stock() == s3 + multiset(p3) + multiset(d2);
        EndsWithAppend(old(discarded), p3, d2);
        assert d2[..|d2|] == d2;
        episodes := episodes + [(episode, reward)];
        return Some((episode, reward)), finalDealer;
      }
      var ok := DealerTurn(dealer);
      if !ok {
        return None, finalDealer;
      }
      RegroupDealer(s3, multiset(d2), multiset(p3), Stock(), multiset(dealer.cards));
      finalDealer := dealer.cards;
      var finalReward, finalPoints, _, _ := GiveReward(dealer, player);
      RewardCases(finalPoints, Total(dealer.cards));
      episodes := episodes + [(episode, finalReward)];
      result := Some((episode, finalReward));
    }

    /** `play_game` of chap4: the opening and the player's turn, then
        `Settle`. The ghost outputs are the player's hand after its turn and
        the dealer's hand after its own: the episode records the player's
        turn on the first, with the dealer's two opening cards in view, and
        the reward is `give_reward` on the two. On a bust both hands end up
        in `discarded`; otherwise the dealer played its turn and the hands
        carry over into the next game. No card is lost. None where
        `serve_card` fails. */
    method PlayGame(dealer: Gamer, player: Gamer)
      returns (result: Option<(Episode, int)>, ghost finalPlayer: seq<Card>, ghost finalDealer: seq<Card>)
      requires dealer != player
      modifies this, dealer, player
      ensures result.Some? ==> Finished(result.value.0) && result.value.1 in {-1, 0, 1}
      ensures result.Some? ==> episodes == old(episodes) + [result.value]
      ensures result.Some? ==> AllCards(dealer, player) == old(AllCards(dealer, player))
      ensures result.Some? ==>
                |finalPlayer| == |old(player.cards)| + 1 + |result.value.0|
                && finalPlayer[..|old(player.cards)|] == old(player.cards)
                && |finalDealer| >= |old(dealer.cards)| + 2
                && finalDealer[..|old(dealer.cards)|] == old(dealer.cards)
      ensures result.Some? ==>
                PlayerPlayed(result.value.0, finalDealer[..|old(dealer.cards)| + 2], finalPlayer, |old(player.cards)| + 2)
      ensures result.Some? ==> Total(finalPlayer) >= 20
      ensures result.Some? ==> result.value.1 == Reward(Total(finalPlayer), Total(finalDealer))
      ensures result.Some? && Total(finalPlayer) > 21 ==>
                |finalDealer| == |old(dealer.cards)| + 2
                && player.cards == [] && dealer.cards == []
                && EndsWith(discarded, finalPlayer + finalDealer)
      ensures result.Some? && Total(finalPlayer) <= 21 ==>
                player.cards == finalPlayer && dealer.cards == finalDealer
                && DealerPlayed(finalDealer, |old(dealer.cards)| + 2) && Total(finalDealer) >= 17
    {
      ghost var d0 := dealer.cards;
      var turn := OpenGame(dealer, player);
      if turn.None? {
        return None, [], [];
      }
      ghost var d2 := dealer.cards;
      finalPlayer := player.cards;
      result, finalDealer := Settle(dealer, player, turn.value);
      if result.Some? {
        assert finalDealer[..|d0| + 2] == d2;
        assert finalDealer[..|d0|] == d0 by {
          assert finalDealer[..|d2|] == d2 && d2[..|d0|] == d0;
        }
      }
    }

    /** `repeat_game(dealer, player, num)`: the record is cleared and num
        games are played; `results` counts the losses, draws and wins
        (index 1 + reward). Every recorded game is finished, and the three
        counts add up to num. None where a game fails in `serve_card`. */
    method RepeatGame(dealer: Gamer, player: Gamer, num: nat) returns (results: Option<seq<nat>>)
      requires dealer != player
      modifies this, dealer, player
      ensures results.Some? ==> |episodes| == num && AllFinished(episodes)
      ensures results.Some? ==> results.value == Tally(episodes)
      ensures results.Some? ==> results.value[0] + results.value[1] + results.value[2] == num
      ensures results.Some? ==> AllCards(dealer, player) == old(AllCards(dealer, player))
    {
      var counts: seq<nat> := [0, 0, 0];
      episodes := [];
      for i := 0 to num
        invariant |episodes| == i && AllFinished(episodes)
        invariant counts == Tally(episodes)
        invariant AllCards(dealer, player) == old(AllCards(dealer, player))
      {
        ghost var before := episodes;
        var game; ghost var finalPlayer, finalDealer;
        game, finalPlayer, finalDealer := PlayGame(dealer, player);
        if game.None? {
          return None;
        }
        var reward := game.value.1;
        TallySnoc(counts, before, game.value, episodes, reward);
        counts := counts[1 + reward := counts[1 + reward] + 1];
      }
      TallyTotal(episodes);
      results := Some(counts);
    }
  }
}
