/** The `learning_method` of the windy-grid agents (chap5/windy_grid/agents.py):
    one episode of Sarsa, of Sarsa(lambda) with accumulating traces, and of
    Q-learning, each updating the action-value table `Q` in place.

    The environment and the base agent are not part of this model. What
    `self.act(a0)` reports at step t is `outcomes[t]` (next state, reward,
    end-of-episode flag), whatever the action was; `perform_policy` is the
    epsilon-greedy policy of the windy utils over `self.A`, fed the draws
    given. An episode whose outcomes run out before one says `done` stops
    there. */
module Agents {
  import opened WindyUtils
  import ArgMax

  /** What `self.act(a)` returns: `s1, r1, is_done`. */
  datatype Outcome = Outcome(next: string, reward: real, done: bool)

  /** The new value of Q(s0, a0): the TD target is `r1 + gamma * qNext`,
      and the old value moves a fraction alpha of the way towards it. */
  function TdValue(oldQ: real, r1: real, qNext: real, alpha: real, gamma: real): real
  {
    var tdTarget := r1 + gamma * qNext;
    oldQ + alpha * (tdTarget - oldQ)
  }

  /** The one-step TD rule of Sarsa and Q-learning:
      Q(s0, a0) += alpha * (r1 + gamma * Q(s1, a1) - Q(s0, a0)). */
  function TdUpdate(Q: map<string, real>, s0: string, a0: int, r1: real, s1: string, a1: int,
                    alpha: real, gamma: real): map<string, real>
  {
    SetDict(Q, TdValue(GetDict(Q, s0, a0), r1, GetDict(Q, s1, a1), alpha, gamma), s0, a0)
  }

  /** Only the entry of (s0, a0) changes, and it moves a fraction alpha of
      the way to the TD target. */
  lemma TdUpdateFrame(Q: map<string, real>, s0: string, a0: int, r1: real, s1: string, a1: int,
                      alpha: real, gamma: real)
    ensures var Q' := TdUpdate(Q, s0, a0, r1, s1, a1, alpha, gamma);
            var oldQ := GetDict(Q, s0, a0);
            GetDict(Q', s0, a0) == oldQ + alpha * (r1 + gamma * GetDict(Q, s1, a1) - oldQ)
            && forall k :: k != StrKey(s0, a0) ==> Lookup(Q', k) == Lookup(Q, k)
  {
    SetDictFrame(Q, TdValue(GetDict(Q, s0, a0), r1, GetDict(Q, s1, a1), alpha, gamma), s0, a0);
  }

  /** With alpha = 0 nothing is learned: every entry reads as before. */
  lemma TdUpdateAlphaZero(Q: map<string, real>, s0: string, a0: int, r1: real, s1: string, a1: int,
                          gamma: real)
    ensures forall k :: Lookup(TdUpdate(Q, s0, a0, r1, s1, a1, 0.0, gamma), k) == Lookup(Q, k)
  {
  }

  /** With alpha = 1 the entry of (s0, a0) becomes the TD target itself. */
  lemma TdUpdateAlphaOne(Q: map<string, real>, s0: string, a0: int, r1: real, s1: string, a1: int,
                         gamma: real)
    ensures GetDict(TdUpdate(Q, s0, a0, r1, s1, a1, 1.0, gamma), s0, a0)
            == r1 + gamma * GetDict(Q, s1, a1)
  {
  }

  /** The update sees a table only through `get_dict`: tables that read
      the same stay so. */
  lemma TdUpdateSameReadings(Q1: map<string, real>, Q2: map<string, real>, s0: string, a0: int, r1: real,
                             s1: string, a1: int, alpha: real, gamma: real)
    requires SameReadings(Q1, Q2)
    ensures SameReadings(TdUpdate(Q1, s0, a0, r1, s1, a1, alpha, gamma), TdUpdate(Q2, s0, a0, r1, s1, a1, alpha, gamma))
  {
    assert GetDict(Q1, s0, a0) == GetDict(Q2, s0, a0);
    assert GetDict(Q1, s1, a1) == GetDict(Q2, s1, a1);
    var v := TdValue(GetDict(Q1, s0, a0), r1, GetDict(Q1, s1, a1), alpha, gamma);
    SetDictFrame(Q1, v, s0, a0);
    SetDictFrame(Q2, v, s0, a0);
  }

  /** Sarsa from step t on, in state s0 about to take a0: the action a1
      chosen for the target is the action taken at the next step. */
  function SarsaFrom(A: seq<int>, Q: map<string, real>, s0: string, a0: int, outcomes: seq<Outcome>,
                     draws: seq<Draw>, t: nat, gamma: real, alpha: real, epsilon: real): map<string, real>
    requires |A| > 0 && t <= |outcomes| < |draws|
    decreases |outcomes| - t
  {
    if t == |outcomes| then Q
    else
      var o := outcomes[t];
      var a1 := EpsilonGreedyAction(A, o.next, Q, epsilon, draws[t + 1]);
      var Q' := TdUpdate(Q, s0, a0, o.reward, o.next, a1, alpha, gamma);
      if o.done then Q' else SarsaFrom(A, Q', o.next, a1, outcomes, draws, t + 1, gamma, alpha, epsilon)
  }

  /** Q after a Sarsa episode that starts in `start`. */
  function SarsaEpisode(A: seq<int>, Q: map<string, real>, start: string, outcomes: seq<Outcome>,
                        draws: seq<Draw>, gamma: real, alpha: real, epsilon: real): map<string, real>
    requires |A| > 0 && |outcomes| < |draws|
  {
    var a0 := EpsilonGreedyAction(A, start, Q, epsilon, draws[0]);
    SarsaFrom(A, Q, start, a0, outcomes, draws, 0, gamma, alpha, epsilon)
  }

  /** The episode length: the steps up to and including the first one that
      ends the episode, or all of them. */
  predicate IsEpisodeLength(outcomes: seq<Outcome>, n: nat)
  {
    n <= |outcomes|
    && (n == 0 || NoneDone(outcomes, n - 1))
    && (n == |outcomes| || (n > 0 && outcomes[n - 1].done))
  }

  /** None of the first n steps ends the episode. */
  predicate NoneDone(outcomes: seq<Outcome>, n: nat)
    requires n <= |outcomes|
  {
    n == 0 || (!outcomes[n - 1].done && NoneDone(outcomes, n - 1))
  }

  /** `NoneDone` says what it means: no step before n is final. */
  lemma {:induction false} NoneDoneMeans(outcomes: seq<Outcome>, n: nat)
    requires n <= |outcomes|
    ensures NoneDone(outcomes, n) <==> forall j :: 0 <= j < n ==> !outcomes[j].done
  {
    if n > 0 {
      NoneDoneMeans(outcomes, n - 1);
    }
  }

  /** The episode length is determined by the outcomes: the index of the
      first final step plus one, or all of them. */
  lemma EpisodeLengthUnique(outcomes: seq<Outcome>, n: nat, m: nat)
    requires IsEpisodeLength(outcomes, n) && IsEpisodeLength(outcomes, m)
    ensures n == m
  {
    if n > 0 { NoneDoneMeans(outcomes, n - 1); }
    if m > 0 { NoneDoneMeans(outcomes, m - 1); }
  }

  /** `SarsaAgent`: the table Q and the action list of the base agent. */
  class SarsaAgent {
    var Q: map<string, real>
    const A: seq<int>

    constructor(A: seq<int>)
      ensures Q == map[] && this.A == A
    {
      Q := map[];
      this.A := A;
    }

    /** `learning_method`: returns `time_in_episode`. */
    method LearningMethod(start: string, outcomes: seq<Outcome>, draws: seq<Draw>,
                          gamma: real, alpha: real, epsilon: real)
      returns (timeInEpisode: nat)
      requires |A| > 0 && |outcomes| < |draws|
      modifies this
      ensures Q == SarsaEpisode(A, old(Q), start, outcomes, draws, gamma, alpha, epsilon)
      ensures IsEpisodeLength(outcomes, timeInEpisode)
    {
      var s0 := start;
      var a0 := EpsilonGreedyPolicy(A, s0, Q, epsilon, draws[0]);
      ghost var target := SarsaEpisode(A, Q, start, outcomes, draws, gamma, alpha, epsilon);
      timeInEpisode := 0;
      var isDone := false;
      while !isDone && timeInEpisode < |outcomes|
        invariant timeInEpisode <= |outcomes|
        invariant isDone == (0 < timeInEpisode && outcomes[timeInEpisode - 1].done)
        invariant NoneDone(outcomes, if isDone then timeInEpisode - 1 else timeInEpisode)
        invariant (if isDone then Q else SarsaFrom(A, Q, s0, a0, outcomes, draws, timeInEpisode, gamma, alpha, epsilon)) == target
        decreases |outcomes| - timeInEpisode
      {
        var o := outcomes[timeInEpisode];
        var s1, r1 := o.next, o.reward;
        isDone := o.done;
        var a1 := EpsilonGreedyPolicy(A, s1, Q, epsilon, draws[timeInEpisode + 1]);
        var oldQ := GetDict(Q, s0, a0);
        var qNext := GetDict(Q, s1, a1);
        var newQ := TdValue(oldQ, r1, qNext, alpha, gamma);
        Q := SetDict(Q, newQ, s0, a0);
        s0, a0 := s1, a1;
        timeInEpisode := timeInEpisode + 1;
      }
    }
  }

  /** Q-learning from step t on, in state s0: the behaviour action a0 is
      drawn afresh each step, the target uses the greedy action a1 in s1. */
  function QLearningFrom(A: seq<int>, Q: map<string, real>, s0: string, outcomes: seq<Outcome>,
                         draws: seq<Draw>, ties: seq<nat>, t: nat,
                         gamma: real, alpha: real, epsilon: real): map<string, real>
    requires |A| > 0 && t <= |outcomes| <= |draws| && |outcomes| <= |ties|
    decreases |outcomes| - t
  {
    if t == |outcomes| then Q
    else
      var a0 := EpsilonGreedyAction(A, s0, Q, epsilon, draws[t]);
      var o := outcomes[t];
      var a1 := GreedyAction(A, o.next, Q, ties[t]);
      var Q' := TdUpdate(Q, s0, a0, o.reward, o.next, a1, alpha, gamma);
      if o.done then Q' else QLearningFrom(A, Q', o.next, outcomes, draws, ties, t + 1, gamma, alpha, epsilon)
  }

  /** Q-learning is off-policy: its target is the best value in s1,
      whichever of the tied greedy actions the draw picks. */
  lemma QLearningTargetIsMax(A: seq<int>, Q: map<string, real>, s0: string, a0: int, r1: real, s1: string,
                             tie: nat, alpha: real, gamma: real)
    requires |A| > 0
    ensures var oldQ := GetDict(Q, s0, a0);
            GetDict(TdUpdate(Q, s0, a0, r1, s1, GreedyAction(A, s1, Q, tie), alpha, gamma), s0, a0)
            == TdValue(oldQ, r1, ArgMax.MaxQ(A, QOf(Q, s1)), alpha, gamma)
  {
    GreedyActionIsMax(A, s1, Q, tie);
  }

  /** `QAgent`. */
  class QAgent {
    var Q: map<string, real>
    const A: seq<int>

    constructor(A: seq<int>)
      ensures Q == map[] && this.A == A
    {
      Q := map[];
      this.A := A;
    }

    /** `learning_method`: `ties[t]` is the `random.choice` among the greedy
        actions of step t's target. */
    method LearningMethod(start: string, outcomes: seq<Outcome>, draws: seq<Draw>, ties: seq<nat>,
                          gamma: real, alpha: real, epsilon: real)
      returns (timeInEpisode: nat)
      requires |A| > 0 && |outcomes| <= |draws| && |outcomes| <= |ties|
      modifies this
      ensures Q == QLearningFrom(A, old(Q), start, outcomes, draws, ties, 0, gamma, alpha, epsilon)
      ensures IsEpisodeLength(outcomes, timeInEpisode)
    {
      var s0 := start;
      ghost var target := QLearningFrom(A, Q, start, outcomes, draws, ties, 0, gamma, alpha, epsilon);
      timeInEpisode := 0;
      var isDone := false;
      while !isDone && timeInEpisode < |outcomes|
        invariant timeInEpisode <= |outcomes|
        invariant isDone == (0 < timeInEpisode && outcomes[timeInEpisode - 1].done)
        invariant NoneDone(outcomes, if isDone then timeInEpisode - 1 else timeInEpisode)
        invariant (if isDone then Q else QLearningFrom(A, Q, s0, outcomes, draws, ties, timeInEpisode, gamma, alpha, epsilon)) == target
        decreases |outcomes| - timeInEpisode
      {
        var a0 := EpsilonGreedyPolicy(A, s0, Q, epsilon, draws[timeInEpisode]);
        var o := outcomes[timeInEpisode];
        var s1, r1 := o.next, o.reward;
        isDone := o.done;
        var a1 := GreedyPolicy(A, s1, Q, ties[timeInEpisode]);
        var oldQ := GetDict(Q, s0, a0);
        var qNext := GetDict(Q, s1, a1);
        var newQ := TdValue(oldQ, r1, qNext, alpha, gamma);
        Q := SetDict(Q, newQ, s0, a0);
        s0 := s1;
        timeInEpisode := timeInEpisode + 1;
      }
    }
  }
}
