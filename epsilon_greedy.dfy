/** The epsilon-greedy policy of the Monte Carlo blackjack player, over any
    action type and any action-value lookup `q`: every action gets
    epsilon/m, and the greedy ones share the remaining 1 - epsilon. The
    sampler walks the action list subtracting probabilities from a uniform
    draw u. */
module EpsilonGreedy {
  import opened Wrappers
  import ArgMax

  /** `epsilon_greedy_pi`: epsilon/m for an action that is not greedy,
      (1 - epsilon) * greedy_p + epsilon/m for a greedy one. The source
      divides by m = len(A), so A must not be empty. */
  function Prob<T(==, !new)>(A: seq<T>, q: T -> real, a: T, epsilon: real): real
    requires |A| > 0
  {
    var m := |A| as real;
    var greedyP := ArgMax.GreedyProb(A, q, a);
    if greedyP == 0.0 then epsilon / m
    else (1.0 - epsilon) * greedyP + epsilon / m
  }

  /** The list `action_prob`: the probability of each action of A, in order. */
  function ActionProbs<T(==, !new)>(A: seq<T>, q: T -> real, epsilon: real): (ps: seq<real>)
    ensures |ps| == |A|
  {
    seq(|A|, i requires 0 <= i < |A| => Prob(A, q, A[i], epsilon))
  }

  /** p[0] + ... + p[k-1]. */
  function PrefixSum(ps: seq<real>, k: nat): real
    requires k <= |ps|
  {
    if k == 0 then 0.0 else PrefixSum(ps, k - 1) + ps[k - 1]
  }

  /** Where the sampler stops, scanning from index i: the first j >= i at
      which `rand_value - p[0] - ... - p[j]` drops below 0. */
  function Pick(ps: seq<real>, u: real, i: nat): (r: Option<nat>)
    requires i <= |ps|
    ensures r.Some? ==> i <= r.value < |ps|
    decreases |ps| - i
  {
    if i == |ps| then None
    else if u - PrefixSum(ps, i + 1) < 0.0 then Some(i)
    else Pick(ps, u, i + 1)
  }

  /** The sampler stops at the least index whose prefix sum exceeds u. */
  lemma {:induction false} PickIsLeast(ps: seq<real>, u: real, i: nat, k: nat)
    requires i <= |ps|
    requires Pick(ps, u, i) == Some(k)
    ensures PrefixSum(ps, k + 1) > u
    ensures forall j :: i < j <= k ==> PrefixSum(ps, j) <= u
    decreases |ps| - i
  {
    if u - PrefixSum(ps, i + 1) >= 0.0 {
      PickIsLeast(ps, u, i + 1, k);
    }
  }

  /** If the whole list sums to more than u the sampler returns an index. */
  lemma {:induction false} PickTotal(ps: seq<real>, u: real, i: nat)
    requires i < |ps|
    requires PrefixSum(ps, |ps|) > u
    ensures Pick(ps, u, i).Some?
    decreases |ps| - i
  {
    if u - PrefixSum(ps, i + 1) >= 0.0 {
      PickTotal(ps, u, i + 1);
    }
  }

  /** The epsilon-greedy probability is (1 - epsilon) times the greedy one
      plus epsilon/m, on both branches of the source. */
  lemma ProbSplit<T(!new)>(A: seq<T>, q: T -> real, a: T, epsilon: real, g: real)
    requires |A| > 0
    requires g == ArgMax.GreedyProb(A, q, a)
    ensures Prob(A, q, a, epsilon) == ArgMax.Scale(1.0 - epsilon, g) + epsilon / (|A| as real)
  {
  }

  /** A prefix sum of values c * g + e is c times the prefix sum of the g
      plus k shares of e. */
  lemma {:induction false} AffinePrefix(ps: seq<real>, gs: seq<real>, c: real, e: real, k: nat)
    requires |gs| == |ps| && k <= |ps|
    requires forall i :: 0 <= i < |ps| ==> ps[i] == ArgMax.Scale(c, gs[i]) + e
    ensures PrefixSum(ps, k) == ArgMax.Scale(c, PrefixSum(gs, k)) + ArgMax.Times(k, e)
  {
    if k > 0 {
      AffinePrefix(ps, gs, c, e, k - 1);
      ArgMax.ScaleStep(PrefixSum(ps, k - 1), PrefixSum(gs, k - 1), ArgMax.Times(k - 1, e), ps[k - 1], gs[k - 1],
                       PrefixSum(ps, k), PrefixSum(gs, k), ArgMax.Times(k, e), c, e);
    }
  }

  /** The prefix sums of the greedy probabilities, listed in the order of A,
      are the greedy mass of the prefixes of A. */
  lemma {:induction false} GreedyPrefix<T(!new)>(A: seq<T>, q: T -> real, gs: seq<real>, k: nat)
    requires |gs| == |A| && k <= |A|
    requires forall i :: 0 <= i < |A| ==> gs[i] == ArgMax.GreedyProb(A, q, A[i])
    ensures PrefixSum(gs, k) == ArgMax.SumGreedy(A, q, A[..k])
  {
    if k > 0 {
      GreedyPrefix(A, q, gs, k - 1);
      assert A[..k][..k - 1] == A[..k - 1];
    }
  }

  /** A prefix of `action_prob` sums to (1 - epsilon) times the greedy mass of
      that prefix plus epsilon/m per action. */
  lemma ActionProbsPrefix<T(!new)>(A: seq<T>, q: T -> real, epsilon: real, k: nat)
    requires 0 < |A| && k <= |A|
    ensures PrefixSum(ActionProbs(A, q, epsilon), k)
            == ArgMax.Scale(1.0 - epsilon, ArgMax.SumGreedy(A, q, A[..k]))
               + ArgMax.Times(k, epsilon / (|A| as real))
  {
    var ps := ActionProbs(A, q, epsilon);
    var gs := seq(|A|, i requires 0 <= i < |A| => ArgMax.GreedyProb(A, q, A[i]));
    forall i | 0 <= i < |A|
      ensures ps[i] == ArgMax.Scale(1.0 - epsilon, gs[i]) + epsilon / (|A| as real)
    {
      ProbSplit(A, q, A[i], epsilon, gs[i]);
    }
    AffinePrefix(ps, gs, 1.0 - epsilon, epsilon / (|A| as real), k);
    GreedyPrefix(A, q, gs, k);
  }

  /** m shares of epsilon/m make up epsilon. */
  lemma SharesOfEpsilon(n: nat, epsilon: real)
    requires n > 0
    ensures ArgMax.Times(n, epsilon / (n as real)) == epsilon
  {
    ArgMax.TimesIsProduct(n, epsilon / (n as real));
  }

  /** Whatever epsilon is, the epsilon-greedy probabilities over A sum to 1. */
  lemma SumsToOne<T(!new)>(A: seq<T>, q: T -> real, epsilon: real)
    requires |A| > 0
    ensures PrefixSum(ActionProbs(A, q, epsilon), |A|) == 1.0
  {
    ActionProbsPrefix(A, q, epsilon, |A|);
    assert A[..|A|] == A;
    ArgMax.GreedySumsToOne(A, q);
    SharesOfEpsilon(|A|, epsilon);
  }

  /** With u < 1 the sampler always picks an action: the fall-through to
      None cannot happen for a non-empty action list. */
  lemma SamplerTotal<T(!new)>(A: seq<T>, q: T -> real, epsilon: real, u: real)
    ensures |A| > 0 && u < 1.0 ==> Pick(ActionProbs(A, q, epsilon), u, 0).Some?
  {
    if |A| > 0 && u < 1.0 {
      SumsToOne(A, q, epsilon);
      PickTotal(ActionProbs(A, q, epsilon), u, 0);
    }
  }

  /** `epsilon_greedy_policy` with `random.random()` = u: subtract the action
      probabilities from u in order and return the first action that takes
      it below 0; fall through to None. */
  method Sample<T(==, !new)>(A: seq<T>, q: T -> real, epsilon: real, u: real) returns (r: Option<T>)
    ensures var k := Pick(ActionProbs(A, q, epsilon), u, 0);
            r == if k.Some? then Some(A[k.value]) else None
    ensures r.Some? ==> r.value in A
    ensures |A| > 0 && u < 1.0 ==> r.Some?
  {
    var actionProb: seq<real> := [];
    for i := 0 to |A|
      invariant actionProb == ActionProbs(A, q, epsilon)[..i]
    {
      actionProb := actionProb + [Prob(A, q, A[i], epsilon)];
    }
    assert actionProb == ActionProbs(A, q, epsilon);
    SamplerTotal(A, q, epsilon, u);
    var randValue := u;
    for i := 0 to |A|
      invariant randValue == u - PrefixSum(actionProb, i)
      invariant Pick(actionProb, u, 0) == Pick(actionProb, u, i)
    {
      randValue := randValue - actionProb[i];
      if randValue < 0.0 {
        return Some(A[i]);
      }
    }
    return None;
  }
}
