/** The every-visit Monte-Carlo player of chap5/main.py: `learn_Q` folds an
    episode of (state, action) pairs into the action-value table Q and the
    visit counter Nsa with the incremental mean, `reset_momery` forgets
    everything, and `policy` plays the threshold moves or an epsilon-greedy
    choice from Q. */
module MonteCarlo {
  import opened Wrappers
  import opened PointUtils
  import opened IncrementalMean
  import opened Gamer
  import EpsilonGreedy
  import opened ArgMax

  /** A played game as the learner sees it: the (state name, action) pairs. */
  type Episode = seq<(string, string)>

  /** The key `get_dict(Q, s, a)` reads. */
  function PairKey(p: (string, string)): string
  {
    Key(QArgs(p.0, p.1))
  }

  /** The key of a state name and an action is `str_key` of the state
      tuple and the action, and `str_key` of the four values one by one:
      the table has one entry per (dealer's first card, points, soft ace,
      action). */
  lemma PairKeyOfState(st: State, a: string)
    ensures PairKey((StateName(st), a)) == Key([Group(StateVals(st)), Atom(Str(a))])
    ensures PairKey((StateName(st), a))
            == Key([Atom(Int(st.dealerFirst)), Atom(Int(st.points)), Atom(Bool(st.softAce)), Atom(Str(a))])
  {
    var vs := StateVals(st);
    var ts := StateTokens(st);
    KeyOfKey([Group(vs)], a);
    assert [Group(vs)] + [Atom(Str(a))] == [Group(vs), Atom(Str(a))];
    GroupSpreads(vs);
    var atoms := seq(|vs|, i requires 0 <= i < |vs| => Atom(vs[i]));
    assert atoms == [Atom(Int(st.dealerFirst)), Atom(Int(st.points)), Atom(Bool(st.softAce))];
    var four := atoms + [Atom(Str(a))];
    assert four[..|four| - 1] == atoms;
    assert [Group(vs), Atom(Str(a))][..1] == [Group(vs)];
    assert four == [Atom(Int(st.dealerFirst)), Atom(Int(st.points)), Atom(Bool(st.softAce)), Atom(Str(a))];
  }

  /** The samples `learn_Q(episode, reward)` records: every pair of the
      episode, in order, with the game's reward. */
  function Samples(episode: Episode, reward: real): (xs: seq<Sample>)
    ensures |xs| == |episode|
  {
    seq(|episode|, i requires 0 <= i < |episode| => (QArgs(episode[i].0, episode[i].1), reward))
  }

  /** The tables (Q, Nsa) after `learn_Q(episode, reward)`. */
  function Learn(t: Table, episode: Episode, reward: real): Table
  {
    RecordAll(t, Samples(episode, reward))
  }

  /** How many pairs of the episode have key k. */
  function Visits(episode: Episode, k: string): nat
  {
    if |episode| == 0 then 0
    else Visits(episode[..|episode| - 1], k) + (if PairKey(episode[|episode| - 1]) == k then 1 else 0)
  }

  /** The samples of an episode hit a key once per pair with that key, and
      all carry the one reward. */
  lemma {:induction false} SamplesHits(episode: Episode, reward: real, k: string)
    ensures Hits(Samples(episode, reward), k) == Visits(episode, k)
    ensures RewardSum(Samples(episode, reward), k) == Times(Visits(episode, k), reward)
  {
    if |episode| > 0 {
      var n := |episode| - 1;
      assert Samples(episode, reward)[..n] == Samples(episode[..n], reward);
      SamplesHits(episode[..n], reward, k);
    }
  }

  /** After `learn_Q`, Nsa of a pair has grown by its number of occurrences
      in the episode, and pairs that do not occur keep their Q and Nsa. */
  lemma LearnVisits(t: Table, episode: Episode, reward: real, k: string)
    ensures CountAt(Learn(t, episode, reward), k) == CountAt(t, k) + Visits(episode, k)
    ensures Visits(episode, k) == 0 ==> MeanAt(Learn(t, episode, reward), k) == MeanAt(t, k)
  {
    SamplesHits(episode, reward, k);
    RecordAllCounts(t, Samples(episode, reward), k);
    if Visits(episode, k) == 0 {
      RecordAllUntouched(t, Samples(episode, reward), k);
    }
  }

  /** The mean invariant: Nsa copies of Q add up to the rewards of all
      occurrences seen, each occurrence in the episode adding the reward. */
  lemma LearnMean(t: Table, episode: Episode, reward: real, k: string)
    ensures Times(CountAt(Learn(t, episode, reward), k), MeanAt(Learn(t, episode, reward), k))
            == Times(CountAt(t, k), MeanAt(t, k)) + Times(Visits(episode, k), reward)
  {
    SamplesHits(episode, reward, k);
    RecordAllSums(t, Samples(episode, reward), k);
  }

  /** If every reward seen for a pair is r, its Q is r once it occurred. */
  lemma LearnConstant(t: Table, episode: Episode, reward: real, k: string)
    requires CountAt(t, k) == 0 || MeanAt(t, k) == reward
    requires Visits(episode, k) > 0
    ensures MeanAt(Learn(t, episode, reward), k) == reward
  {
    SamplesHits(episode, reward, k);
    RecordAllConstant(t, Samples(episode, reward), reward, k);
  }

  /** The move `policy` makes with random value u: Stop at 21 or more, Bid
      under 12, otherwise the epsilon-greedy sample over Q(state, .). */
  function Choice(playerCards: seq<Card>, dealerCards: seq<Card>, Q: map<string, real>, epsilon: real, u: real): Option<string>
  {
    if Total(playerCards) >= 21 then Some(Stop)
    else if Total(playerCards) < 12 then Some(Bid)
    else
      var s := StateName(GetState(dealerCards, playerCards));
      var k := EpsilonGreedy.Pick(EpsilonGreedy.ActionProbs(ActionSet, QOf(Q, s), epsilon), u, 0);
      if k.Some? then Some(ActionSet[k.value]) else None
  }

  /** With a random value below 1 the policy always answers, with one of
      the two actions; the sampler is only consulted from 12 to 20 points. */
  lemma ChoiceIsAction(playerCards: seq<Card>, dealerCards: seq<Card>, Q: map<string, real>, epsilon: real, u: real)
    requires u < 1.0
    ensures Choice(playerCards, dealerCards, Q, epsilon, u).Some?
    ensures Choice(playerCards, dealerCards, Q, epsilon, u).value in ActionSet
    ensures Choice(playerCards, dealerCards, Q, epsilon, u).value == Bid ==> Total(playerCards) < 21
  {
    var s := StateName(GetState(dealerCards, playerCards));
    EpsilonGreedy.SamplerTotal(ActionSet, QOf(Q, s), epsilon, u);
  }

  /** `MC_Player`: a hand of cards plus the learned tables. */
  class MCPlayer {
    const hand: Gamer
    var Q: map<string, real>
    var Nsa: map<string, nat>
    var totalLearningTimes: nat

    constructor()
      ensures fresh(hand) && hand.cards == []
      ensures Q == map[] && Nsa == map[] && totalLearningTimes == 0
    {
      hand := new Gamer();
      Q := map[];
      Nsa := map[];
      totalLearningTimes := 0;
    }

    /** `learn_Q`: every pair of the episode moves its mean toward the
        reward; one more learning call is counted. */
    method LearnQ(episode: Episode, reward: real)
      modifies this
      ensures Table(Q, Nsa) == Learn(old(Table(Q, Nsa)), episode, reward)
      ensures totalLearningTimes == old(totalLearningTimes) + 1
    {
      ghost var t0 := Table(Q, Nsa);
      ghost var xs := Samples(episode, reward);
      for i := 0 to |episode|
        invariant Table(Q, Nsa) == RecordAll(t0, xs[..i])
        invariant totalLearningTimes == old(totalLearningTimes)
      {
        var (s, a) := episode[i];
        var nsa := GetDict(Nsa, 0, QArgs(s, a));
        var q := GetDict(Q, 0.0, QArgs(s, a));
        RecordIs(Table(Q, Nsa), xs[i], QArgs(s, a), reward, nsa, q);
        RecordAllSnoc(t0, xs, i);
        Nsa := SetDict(Nsa, nsa + 1, QArgs(s, a));
        Q := SetDict(Q, q + (reward - q) / ((nsa + 1) as real), QArgs(s, a));
      }
      assert xs[..|episode|] == xs;
      totalLearningTimes := totalLearningTimes + 1;
    }

    /** `reset_momery`: both tables emptied, the counter back to 0. */
    method ResetMemory()
      modifies this
      ensures Q == map[] && Nsa == map[] && totalLearningTimes == 0
    {
      Q := map[];
      Nsa := map[];
      totalLearningTimes := 0;
    }

    /** `policy(dealer, epsilon)` with `random.random()` = u. */
    method Policy(dealer: Gamer, epsilon: real, u: real) returns (action: string)
      requires u < 1.0
      ensures Some(action) == Choice(hand.cards, dealer.cards, Q, epsilon, u)
      ensures action in ActionSet
      ensures action == Bid ==> Total(hand.cards) < 21
    {
      ChoiceIsAction(hand.cards, dealer.cards, Q, epsilon, u);
      var playerPoints, _ := hand.CalcPoints();
      if playerPoints >= 21 {
        return ActionSet[1];
      }
      if playerPoints < 12 {
        return ActionSet[0];
      }
      var s := StateName(GetState(dealer.cards, hand.cards));
      var r := EpsilonGreedyPolicy(ActionSet, s, Q, epsilon, u);
      action := r.value;
    }
  }
}
