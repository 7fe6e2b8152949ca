/** The game loop of chap5/21point_game/blackjack.py with the Monte-Carlo
    player of chap5/main.py. The arena's card handling (`load_cards`,
    `serve_card`, `recycle_cards`, `give_reward`) and the dealer are the same
    code as in chap4, so the `Env.Arena` methods are reused; what differs is
    the player's policy (`MC_Player.policy`), that both hands are recycled at
    the end of every game, and that `repeat_game` feeds each game to
    `learn_Q`. */
module Blackjack {
  import opened Wrappers
  import opened Gamer
  import opened IncrementalMean
  import opened Env
  import MonteCarlo

  /** The tables after `learn_Q` has taken in every recorded game in order. */
  function LearnGames(t: Table, games: seq<(Episode, int)>): Table
  {
    if |games| == 0 then t
    else MonteCarlo.Learn(LearnGames(t, games[..|games| - 1]), games[|games| - 1].0, games[|games| - 1].1 as real)
  }

  /** How often the (state, action) key k was decided over all games. */
  function PairVisits(games: seq<(Episode, int)>, k: string): nat
  {
    if |games| == 0 then 0
    else PairVisits(games[..|games| - 1], k) + MonteCarlo.Visits(games[|games| - 1].0, k)
  }

  /** The rewards credited to key k over all games: each game's reward once
      per decision with key k. */
  function PairRewards(games: seq<(Episode, int)>, k: string): real
  {
    if |games| == 0 then 0.0
    else PairRewards(games[..|games| - 1], k)
         + ArgMax.Times(MonteCarlo.Visits(games[|games| - 1].0, k), games[|games| - 1].1 as real)
  }

  /** Learning one more game. */
  lemma LearnGamesSnoc(t: Table, games: seq<(Episode, int)>, g: (Episode, int))
    ensures LearnGames(t, games + [g]) == MonteCarlo.Learn(LearnGames(t, games), g.0, g.1 as real)
  {
    assert (games + [g])[..|games|] == games;
  }

  /** After learning from the recorded games, Nsa of every pair counts its
      decisions over all of them. */
  lemma {:induction false} LearnGamesCounts(t: Table, games: seq<(Episode, int)>, k: string)
    ensures CountAt(LearnGames(t, games), k) == CountAt(t, k) + PairVisits(games, k)
  {
    if |games| > 0 {
      var n := |games| - 1;
      LearnGamesCounts(t, games[..n], k);
      MonteCarlo.LearnVisits(LearnGames(t, games[..n]), games[n].0, games[n].1 as real, k);
    }
  }

  /** The Monte-Carlo estimate: Nsa copies of Q add up to the rewards of the
      games in which the pair was decided, counted once per decision, so Q
      of a pair first seen in these games is the average of those rewards. */
  lemma {:induction false} LearnGamesMeans(t: Table, games: seq<(Episode, int)>, k: string)
    ensures ArgMax.Times(CountAt(LearnGames(t, games), k), MeanAt(LearnGames(t, games), k))
            == ArgMax.Times(CountAt(t, k), MeanAt(t, k)) + PairRewards(games, k)
  {
    if |games| > 0 {
      var n := |games| - 1;
      LearnGamesMeans(t, games[..n], k);
      MonteCarlo.LearnMean(LearnGames(t, games[..n]), games[n].0, games[n].1 as real, k);
    }
  }

  /** The Monte-Carlo player's decision number i on a hand: the
      `get_state_name` of the hand against the dealer's cards, and the move
      `MC_Player.policy` makes with the table Q and the random value u(i). */
  function MCFits(dealerCards: seq<Card>, Q: map<string, real>, epsilon: real, u: nat -> real)
    : (nat, seq<Card>, (string, string)) -> bool
  {
    (i: nat, hand: seq<Card>, d: (string, string)) =>
      d.0 == StateName(GetState(dealerCards, hand))
      && Some(d.1) == MonteCarlo.Choice(hand, dealerCards, Q, epsilon, u(i))
  }

  /** A finished turn of the Monte-Carlo player: one decision per card dealt
      after the first `start` cards plus the final one, each `MCFits`. */
  predicate MCPlayed(episode: Episode, dealerCards: seq<Card>, hand: seq<Card>, start: nat,
                     Q: map<string, real>, epsilon: real, u: nat -> real)
  {
    |hand| + 1 == start + |episode| && Recorded(episode, MCFits(dealerCards, Q, epsilon, u), hand, start)
  }

  /** The Monte-Carlo player of a finished episode stops on 12 points or
      more, bid on every earlier hand, each under 21 points, and after a
      bid holds at most 30 points. */
  lemma MCFinalPoints(episode: Episode, dealerCards: seq<Card>, hand: seq<Card>, start: nat,
                      Q: map<string, real>, epsilon: real, u: nat -> real)
    requires MCPlayed(episode, dealerCards, hand, start, Q, epsilon, u) && Finished(episode)
    ensures Total(hand) >= 12
    ensures forall i :: 0 <= i < |episode| - 1 ==> episode[i].1 == Bid && Total(hand[..start + i]) < 21
    ensures |episode| > 1 ==> Total(hand) <= 30
  {
    var fits := MCFits(dealerCards, Q, epsilon, u);
    RecordedAt(episode, fits, hand, start);
    var n := |episode| - 1;
    assert fits(n, hand[..start + n], episode[n]);
    assert hand[..start + n] == hand;
    assert Total(hand) >= 12 by {
      assert Some(Stop) == MonteCarlo.Choice(hand, dealerCards, Q, epsilon, u(n));
    }
    forall i | 0 <= i < n
      ensures episode[i].1 == Bid && Total(hand[..start + i]) < 21
    {
      assert episode[i].1 == Bid;
      assert fits(i, hand[..start + i], episode[i]);
      assert Some(Bid) == MonteCarlo.Choice(hand[..start + i], dealerCards, Q, epsilon, u(i));
    }
    if n > 0 {
      assert Total(hand[..|hand| - 1]) < 21 by {
        assert hand[..|hand| - 1] == hand[..start + (n - 1)];
        assert episode[n - 1].1 == Bid;
      }
      LastCardBound(hand, 21);
    }
  }

  /** The player's turn of chap5's `play_game`: record the state and the
      `MC_Player.policy` move (decision i uses the random value u(i)), and
      deal one more card after each bid. The returned episode is finished
      and is the record `MCPlayed` describes. None where `serve_card`
      fails. */
  method PlayerTurn(arena: Arena, dealer: Gamer, player: MonteCarlo.MCPlayer, epsilon: real, u: nat -> real)
      returns (result: Option<Episode>)
    requires player.hand != dealer
    requires forall i :: u(i) < 1.0
    modifies arena, player.hand
    ensures arena.cards == old(arena.cards) && arena.episodes == old(arena.episodes)
    ensures result.Some? ==> Finished(result.value)
    ensures result.Some? ==>
              |player.hand.cards| == |old(player.hand.cards)| + |result.value| - 1
              && player.hand.cards[..|old(player.hand.cards)|] == old(player.hand.cards)
    ensures result.Some? ==>
              MCPlayed(result.value, dealer.cards, player.hand.cards, |old(player.hand.cards)|, player.Q, epsilon, u)
    ensures result.Some? ==> arena.Held(player.hand) == old(arena.Held(player.hand))
  {
    var episode: Episode := [];
    ghost var drawn: seq<Card> := [];
    while true
      invariant arena.cards == old(arena.cards) && arena.episodes == old(arena.episodes)
      invariant arena.Held(player.hand) == old(arena.Held(player.hand))
      invariant player.hand.cards == old(player.hand.cards) + drawn && |drawn| == |episode|
      invariant AllBids(episode)
      invariant Recorded(episode, MCFits(dealer.cards, player.Q, epsilon, u), player.hand.cards, |old(player.hand.cards)|)
      decreases 21 - HardSum(player.hand.cards)
    {
      var action := player.Policy(dealer, epsilon, u(|episode|));
      var name := player.hand.GetStateName(dealer);
      Decide(episode, name, action);
      RecordedSnoc(episode, MCFits(dealer.cards, player.Q, epsilon, u), player.hand.cards,
                   |old(player.hand.cards)|, (name, action));
      episode := episode + [(name, action)];
      if action != Bid {
        assert player.hand.cards[..|old(player.hand.cards)|] == old(player.hand.cards);
        return Some(episode);
      }
      PointsMaximal(player.hand.cards);
      ghost var before := player.hand.cards;
      var ok; ghost var dealt;
      ok, dealt := arena.ServeCard(player.hand, 1);
      if !ok {
        return None;
      }
      DrawOne(before, dealt);
      RecordedDeal(episode, MCFits(dealer.cards, player.Q, epsilon, u), before, dealt, |old(player.hand.cards)|);
      AppendAssoc(old(player.hand.cards), drawn, dealt);
      drawn := drawn + dealt;
    }
  }

  /** The opening of `play_game`: two cards to the player, two to the
      dealer, then the player's turn. None where `serve_card` fails. */
  method OpenGame(arena: Arena, dealer: Gamer, player: MonteCarlo.MCPlayer, epsilon: real, u: nat -> real)
      returns (result: Option<Episode>)
    requires player.hand != dealer
    requires forall i :: u(i) < 1.0
    modifies arena, dealer, player.hand
    ensures arena.cards == old(arena.cards) && arena.episodes == old(arena.episodes)
    ensures result.Some? ==> Finished(result.value)
    ensures result.Some? ==>
              |player.hand.cards| == |old(player.hand.cards)| + 1 + |result.value|
              && player.hand.cards[..|old(player.hand.cards)|] == old(player.hand.cards)
    ensures result.Some? ==>
              |dealer.cards| == |old(dealer.cards)| + 2
              && dealer.cards[..|old(dealer.cards)|] == old(dealer.cards)
    ensures result.Some? ==>
              MCPlayed(result.value, dealer.cards, player.hand.cards, |old(player.hand.cards)| + 2, player.Q, epsilon, u)
    ensures result.Some? ==> arena.AllCards(dealer, player.hand) == old(arena.AllCards(dealer, player.hand))
  {
    ghost var p0, d0, s0 := player.hand.cards, dealer.cards, arena.Stock();
    var ok; ghost var dealt;
    ok, dealt := arena.ServeCard(player.hand, 2);
    if !ok {
      return None;
    }
    ghost var p1, s1 := player.hand.cards, arena.Stock();
    RegroupPlayer(s0, multiset(d0), multiset(p0), s1, multiset(p1));
    ok, dealt := arena.ServeCard(dealer, 2);
    if !ok {
      return None;
    }
    ghost var d2, s2 := dealer.cards, arena.Stock();
    RegroupDealer(s1, multiset(d0), multiset(p1), s2, multiset(d2));
    assert |p1| == |p0| + 2;
    result := PlayerTurn(arena, dealer, player, epsilon, u);
    if result.None? {
      return None;
    }
    RegroupPlayer(s2, multiset(d2), multiset(p1), arena.Stock(), multiset(player.hand.cards));
    assert player.hand.cards[..|p0|] == p0 by {
      assert player.hand.cards[..|p1|] == p1 && p1[..|p0|] == p0;
    }
    assert dealer.cards[..|d0|] == d0;
  }

  /** The rest of chap5's `play_game` once the player has stopped: unless
      the player is bust (over 21 points) the dealer plays its turn; the
      reward is `give_reward` on the two final hands, the game is recorded,
      and on either path both hands go back to `discarded`, the player's
      first. The ghost output is the dealer's final hand. None where
      `serve_card` fails. */
  method Settle(arena: Arena, dealer: Gamer, player: Gamer, episode: Episode)
      returns (result: Option<(Episode, int)>, ghost finalDealer: seq<Card>)
    requires dealer != player
    modifies arena, dealer, player
    ensures result.Some? ==> result.value.0 == episode && arena.episodes == old(arena.episodes) + [result.value]
    ensures result.Some? ==> player.cards == [] && dealer.cards == []
    ensures result.Some? ==> arena.Stock() == old(arena.AllCards(dealer, player))
    ensures result.Some? ==>
              |finalDealer| >= |old(dealer.cards)| && finalDealer[..|old(dealer.cards)|] == old(dealer.cards)
    ensures result.Some? ==>
              result.value.1 == Reward(Total(old(player.cards)), Total(finalDealer)) && result.value.1 in {-1, 0, 1}
    ensures result.Some? ==> EndsWith(arena.discarded, old(player.cards) + finalDealer)
    ensures result.Some? && Total(old(player.cards)) > 21 ==> finalDealer == old(dealer.cards)
    ensures result.Some? && Total(old(player.cards)) <= 21 ==>
              DealerPlayed(finalDealer, |old(dealer.cards)|) && Total(finalDealer) >= 17
  {
    ghost var p3, d2, s3 := player.cards, dealer.cards, arena.Stock();
    finalDealer := d2;
    var reward, playerPoints, _, _ := arena.GiveReward(dealer, player);
    RewardCases(playerPoints, Total(d2));
    if playerPoints > 21 {
      arena.RecycleCards(player, dealer);
      assert arena.Stock() == s3 + multiset(p3) + multiset(d2);
      EndsWithAppend(old(arena.discarded), p3, d2);
      assert d2[..|d2|] == d2;
      arena.episodes := arena.episodes + [(episode, reward)];
      return Some((episode, reward)), finalDealer;
    }
    var ok := arena.DealerTurn(dealer);
    if !ok {
      return None, finalDealer;
    }
    RegroupDealer(s3, multiset(d2), multiset(p3), arena.Stock(), multiset(dealer.cards));
    finalDealer := dealer.cards;
    var finalReward, finalPoints, _, _ := arena.GiveReward(dealer, player);
    RewardCases(finalPoints, Total(finalDealer));
    ghost var s4, disc := arena.Stock(), arena.discarded;
    arena.episodes := arena.episodes + [(episode, finalReward)];
    arena.RecycleCards(player, dealer);
    assert arena.Stock() == s4 + multiset(p3) + multiset(finalDealer);
    EndsWithAppend(disc, p3, finalDealer);
    result := Some((episode, finalReward));
  }

  /** `play_game` of chap5: the opening and the player's turn, then
      `Settle`. The ghost outputs are the player's hand after its turn and
      the dealer's hand after its own: the episode records the player's turn
      on the first, with the dealer's two opening cards in view, the reward
      is `give_reward` on the two, and both end up, in that order, at the
      end of `discarded`. Unless the player was bust the dealer played its
      turn; on a bust it drew nothing. Every card is in the arena again.
      None where `serve_card` fails. */
  method PlayGame(arena: Arena, dealer: Gamer, player: MonteCarlo.MCPlayer, epsilon: real, u: nat -> real)
      returns (result: Option<(Episode, int)>, ghost finalPlayer: seq<Card>, ghost finalDealer: seq<Card>)
    requires player.hand != dealer
    requires forall i :: u(i) < 1.0
    modifies arena, dealer, player.hand
    ensures result.Some? ==> Finished(result.value.0) && result.value.1 in {-1, 0, 1}
    ensures result.Some? ==> arena.episodes == old(arena.episodes) + [result.value]
    ensures result.Some? ==> player.hand.cards == [] && dealer.cards == []
    ensures result.Some? ==> arena.Stock() == old(arena.AllCards(dealer, player.hand))
    ensures result.Some? ==>
              |finalPlayer| == |old(player.hand.cards)| + 1 + |result.value.0|
              && finalPlayer[..|old(player.hand.cards)|] == old(player.hand.cards)
              && |finalDealer| >= |old(dealer.cards)| + 2
              && finalDealer[..|old(dealer.cards)|] == old(dealer.cards)
    ensures result.Some? ==>
              MCPlayed(result.value.0, finalDealer[..|old(dealer.cards)| + 2], finalPlayer,
                       |old(player.hand.cards)| + 2, player.Q, epsilon, u)
    ensures result.Some? ==> result.value.1 == Reward(Total(finalPlayer), Total(finalDealer))
    ensures result.Some? ==> EndsWith(arena.discarded, finalPlayer + finalDealer)
    ensures result.Some? && Total(finalPlayer) > 21 ==> |finalDealer| == |old(dealer.cards)| + 2
    ensures result.Some? && Total(finalPlayer) <= 21 ==>
              DealerPlayed(finalDealer, |old(dealer.cards)| + 2) && Total(finalDealer) >= 17
  {
    ghost var d0 := dealer.cards;
    var turn := OpenGame(arena, dealer, player, epsilon, u);
    if turn.None? {
      return None, [], [];
    }
    ghost var d2 := dealer.cards;
    finalPlayer := player.hand.cards;
    result, finalDealer := Settle(arena, dealer, player.hand, turn.value);
    if result.Some? {
      assert finalDealer[..|d0| + 2] == d2;
      assert finalDealer[..|d0|] == d0 by {
        assert finalDealer[..|d2|] == d2 && d2[..|d0|] == d0;
      }
    }
  }

  /** One round of `repeat_game`: a game, then `learn_Q` on its episode
      and reward. If Q and Nsa were the means over the games recorded so
      far, they are afterwards the means over these and the new game. */
  method PlayAndLearn(arena: Arena, dealer: Gamer, player: MonteCarlo.MCPlayer, epsilon: real, u: nat -> real,
                      ghost t0: Table)
      returns (game: Option<(Episode, int)>)
    requires player.hand != dealer
    requires forall i :: u(i) < 1.0
    requires Table(player.Q, player.Nsa) == LearnGames(t0, arena.episodes)
    modifies arena, dealer, player.hand, player
    ensures game.Some? ==> Finished(game.value.0) && game.value.1 in {-1, 0, 1}
    ensures game.Some? ==> arena.episodes == old(arena.episodes) + [game.value]
    ensures game.Some? ==> player.hand.cards == [] && dealer.cards == []
    ensures game.Some? ==> Table(player.Q, player.Nsa) == LearnGames(t0, arena.episodes)
    ensures game.Some? ==> player.totalLearningTimes == old(player.totalLearningTimes) + 1
  {
    ghost var before := arena.episodes;
    ghost var finalPlayer, finalDealer;
    game, finalPlayer, finalDealer := PlayGame(arena, dealer, player, epsilon, u);
    if game.Some? {
      LearnGamesSnoc(t0, before, game.value);
      player.LearnQ(game.value.0, game.value.1 as real);
    }
  }

  /** `repeat_game(dealer, player, num)` with `learning_method = learn_Q`:
      the record is cleared, num games are played, each is tallied and then
      learned from. Game g uses the exploration rate epsilon of the number of
      games learned so far and the random values u(g). Q and Nsa end up as
      the incremental means over all recorded games, and the learning
      counter has grown by num. None where a game fails in `serve_card`. */
  method RepeatGame(arena: Arena, dealer: Gamer, player: MonteCarlo.MCPlayer, num: nat,
                    epsilon: nat -> real, u: nat -> nat -> real)
      returns (results: Option<seq<nat>>)
    requires player.hand != dealer
    requires forall g, i :: u(g)(i) < 1.0
    modifies arena, dealer, player.hand, player
    ensures results.Some? ==> |arena.episodes| == num && AllFinished(arena.episodes)
    ensures results.Some? ==> results.value == Tally(arena.episodes)
    ensures results.Some? ==> results.value[0] + results.value[1] + results.value[2] == num
    ensures results.Some? ==> Table(player.Q, player.Nsa) == LearnGames(old(Table(player.Q, player.Nsa)), arena.episodes)
    ensures results.Some? ==> player.totalLearningTimes == old(player.totalLearningTimes) + num
    ensures results.Some? && num > 0 ==> player.hand.cards == [] && dealer.cards == []
  {
    ghost var t0 := Table(player.Q, player.Nsa);
    var counts: seq<nat> := [0, 0, 0];
    arena.episodes := [];
    for i := 0 to num
      invariant |arena.episodes| == i && AllFinished(arena.episodes)
      invariant counts == Tally(arena.episodes)
      invariant Table(player.Q, player.Nsa) == LearnGames(t0, arena.episodes)
      invariant player.totalLearningTimes == old(player.totalLearningTimes) + i
      invariant i > 0 ==> player.hand.cards == [] && dealer.cards == []
    {
      ghost var before := arena.episodes;
      var game := PlayAndLearn(arena, dealer, player, epsilon(player.totalLearningTimes), u(i), t0);
      if game.None? {
        return None;
      }
      var reward := game.value.1;
      TallySnoc(counts, before, game.value, arena.episodes, reward);
      counts := counts[1 + reward := counts[1 + reward] + 1];
    }
    TallyTotal(arena.episodes);
    results := Some(counts);
  }
}
