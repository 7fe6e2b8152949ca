/** The `learning_method` of `SarsaLambdaAgent` (chap5/windy_grid/agents.py):
    Sarsa(lambda) with accumulating eligibility traces. Each step computes
    the TD error of the pair just left, adds 1 to that pair's trace, then
    sweeps every pair of S x A, crediting it with alpha * delta * trace and
    decaying its trace by gamma * lambda. The trace table E starts empty in
    every episode. */
module SarsaLambda {
  import opened WindyUtils
  import Agents

  /** `delta = r1 + gamma * q_next - q`. */
  function TdError(r1: real, qNext: real, q: real, gamma: real): real
  {
    r1 + gamma * qNext - q
  }

  /** The change the sweep makes to Q(s, a): `alpha * delta * e_value`. */
  function Credit(alpha: real, delta: real, eValue: real): real
  {
    alpha * delta * eValue
  }

  /** The trace after the sweep: `gamma * lambda_ * e_value`. */
  function Decay(gamma: real, lambda: real, eValue: real): real
  {
    gamma * lambda * eValue
  }

  /** The action-value table Q and the trace table E. */
  datatype Tables = Tables(Q: map<string, real>, E: map<string, real>)

  /** One pass of the inner sweep loop, for the pair p = (s, a). */
  function SweepPair(t: Tables, p: (string, int), alpha: real, delta: real, gamma: real, lambda: real): Tables
  {
    Tables(SetDict(t.Q, GetDict(t.Q, p.0, p.1) + Credit(alpha, delta, GetDict(t.E, p.0, p.1)), p.0, p.1),
           SetDict(t.E, Decay(gamma, lambda, GetDict(t.E, p.0, p.1)), p.0, p.1))
  }

  /** The pairs the inner loop visits for one state. */
  function Row(s: string, A: seq<int>): seq<(string, int)>
  {
    if |A| == 0 then [] else Row(s, A[..|A| - 1]) + [(s, A[|A| - 1])]
  }

  /** The pairs of S x A in the order the two loops visit them. */
  function Pairs(S: seq<string>, A: seq<int>): seq<(string, int)>
  {
    if |S| == 0 then [] else Pairs(S[..|S| - 1], A) + Row(S[|S| - 1], A)
  }

  /** The tables after the sweep has visited the pairs ps in order. */
  function Sweep(t: Tables, ps: seq<(string, int)>, alpha: real, delta: real, gamma: real, lambda: real): Tables
  {
    if |ps| == 0 then t
    else SweepPair(Sweep(t, ps[..|ps| - 1], alpha, delta, gamma, lambda), ps[|ps| - 1], alpha, delta, gamma, lambda)
  }

  /** Every pair of Pairs(S, A) has its state in S and its action in A. */
  lemma {:induction false} PairsMembers(S: seq<string>, A: seq<int>)
    ensures forall p :: p in Pairs(S, A) ==> p.0 in S && p.1 in A
  {
    if |S| > 0 {
      PairsMembers(S[..|S| - 1], A);
      forall p | p in Pairs(S, A)
        ensures p.0 in S && p.1 in A
      {
        if p in Pairs(S[..|S| - 1], A) {
          assert p.0 in S[..|S| - 1];
        } else {
          RowMembers(S[|S| - 1], A);
        }
      }
    }
  }

  /** Every pair of a row has that row's state and an action of A. */
  lemma {:induction false} RowMembers(s: string, A: seq<int>)
    ensures forall p :: p in Row(s, A) ==> p.0 == s && p.1 in A
  {
    if |A| > 0 {
      RowMembers(s, A[..|A| - 1]);
      assert forall x :: x in A[..|A| - 1] ==> x in A;
    }
  }

  /** How often a pair occurs in one row. */
  lemma {:induction false} RowCount(s': string, A: seq<int>, s: string, a: int)
    ensures multiset(Row(s', A))[(s, a)] == if s' == s then multiset(A)[a] else 0
  {
    if |A| > 0 {
      var init := A[..|A| - 1];
      assert A == init + [A[|A| - 1]];
      RowCount(s', init, s, a);
    }
  }

  /** One more row adds ca more visits when its state is counted. */
  lemma OneMoreRow(n: int, c: int, ca: int, counted: bool)
    requires n == c + (if counted then 1 else 0)
    ensures n * ca == c * ca + (if counted then ca else 0)
  {
  }

  /** Adding a state to S adds its row to the visits. */
  lemma PairsSnocCount(S: seq<string>, A: seq<int>, p: (string, int))
    requires |S| > 0
    ensures multiset(Pairs(S, A))[p] == multiset(Pairs(S[..|S| - 1], A))[p] + multiset(Row(S[|S| - 1], A))[p]
  {
  }

  /** Adding an element to a list adds one to its count. */
  lemma CountSnoc(S: seq<string>, s: string)
    requires |S| > 0
    ensures multiset(S)[s] == multiset(S[..|S| - 1])[s] + (if S[|S| - 1] == s then 1 else 0)
  {
    assert S == S[..|S| - 1] + [S[|S| - 1]];
  }

  /** The sweep visits (s, a) as often as s occurs in S times as often as a
      occurs in A. */
  lemma {:induction false} PairsCount(S: seq<string>, A: seq<int>, s: string, a: int)
    ensures multiset(Pairs(S, A))[(s, a)] == multiset(S)[s] * multiset(A)[a]
  {
    if |S| > 0 {
      var init, last := S[..|S| - 1], S[|S| - 1];
      PairsCount(init, A, s, a);
      RowCount(last, A, s, a);
      PairsSnocCount(S, A, (s, a));
      CountSnoc(S, s);
      OneMoreRow(multiset(S)[s], multiset(init)[s], multiset(A)[a], last == s);
    }
  }

  /** A sweep leaves alone every key that is not the key of a visited pair. */
  lemma {:induction false} SweepUntouched(t: Tables, ps: seq<(string, int)>, k: string,
                                          alpha: real, delta: real, gamma: real, lambda: real)
    requires forall p :: p in ps ==> StrKey(p.0, p.1) != k
    ensures var r := Sweep(t, ps, alpha, delta, gamma, lambda);
            Lookup(r.Q, k) == Lookup(t.Q, k) && Lookup(r.E, k) == Lookup(t.E, k)
  {
    if |ps| > 0 {
      var init, p := ps[..|ps| - 1], ps[|ps| - 1];
      assert forall x :: x in init ==> x in ps;
      SweepUntouched(t, init, k, alpha, delta, gamma, lambda);
      var mid := Sweep(t, init, alpha, delta, gamma, lambda);
      var eValue := GetDict(mid.E, p.0, p.1);
      SetDictFrame(mid.Q, GetDict(mid.Q, p.0, p.1) + Credit(alpha, delta, eValue), p.0, p.1);
      SetDictFrame(mid.E, Decay(gamma, lambda, eValue), p.0, p.1);
    }
  }

  /** A pair visited exactly once gains alpha * delta * trace, and its trace
      decays by gamma * lambda; both read their values from before the sweep. */
  lemma {:induction false} SweepOnce(t: Tables, ps: seq<(string, int)>, s: string, a: int,
                                     alpha: real, delta: real, gamma: real, lambda: real)
    requires '_' !in s && forall p :: p in ps ==> '_' !in p.0
    requires multiset(ps)[(s, a)] == 1
    ensures var r := Sweep(t, ps, alpha, delta, gamma, lambda);
            GetDict(r.Q, s, a) == GetDict(t.Q, s, a) + Credit(alpha, delta, GetDict(t.E, s, a))
            && GetDict(r.E, s, a) == Decay(gamma, lambda, GetDict(t.E, s, a))
  {
    var init, p := ps[..|ps| - 1], ps[|ps| - 1];
    assert ps == init + [p];
    assert forall x :: x in init ==> x in ps;
    var mid := Sweep(t, init, alpha, delta, gamma, lambda);
    if p == (s, a) {
      assert multiset(init)[(s, a)] == 0;
      forall x | x in init
        ensures StrKey(x.0, x.1) != StrKey(s, a)
      {
        if StrKey(x.0, x.1) == StrKey(s, a) {
          StrKeyInjective(x.0, x.1, s, a);
        }
      }
      SweepUntouched(t, init, StrKey(s, a), alpha, delta, gamma, lambda);
    } else {
      assert multiset(init)[(s, a)] == 1;
      SweepOnce(t, init, s, a, alpha, delta, gamma, lambda);
      var eValue := GetDict(mid.E, p.0, p.1);
      GetAfterSetOther(mid.Q, GetDict(mid.Q, p.0, p.1) + Credit(alpha, delta, eValue), p.0, p.1, s, a);
      GetAfterSetOther(mid.E, Decay(gamma, lambda, eValue), p.0, p.1, s, a);
    }
  }

  /** S lists each of its states once, none containing '_'; A lists each
      action once. Under this the sweep visits every pair exactly once. */
  predicate WellFormed(S: seq<string>, A: seq<int>)
  {
    (forall s :: s in S ==> '_' !in s && multiset(S)[s] == 1)
    && (forall a :: a in A ==> multiset(A)[a] == 1)
  }

  /** The sweep over S x A visits a pair of S x A once. */
  lemma SweepPairOnce(S: seq<string>, A: seq<int>, t: Tables, s: string, a: int,
                      alpha: real, delta: real, gamma: real, lambda: real)
    requires WellFormed(S, A) && s in S && a in A
    ensures var r := Sweep(t, Pairs(S, A), alpha, delta, gamma, lambda);
            GetDict(r.Q, s, a) == GetDict(t.Q, s, a) + Credit(alpha, delta, GetDict(t.E, s, a))
            && GetDict(r.E, s, a) == Decay(gamma, lambda, GetDict(t.E, s, a))
  {
    var ps := Pairs(S, A);
    PairsMembers(S, A);
    forall p | p in ps
      ensures '_' !in p.0
    {
      assert p.0 in S;
    }
    PairsCount(S, A, s, a);
    assert multiset(S)[s] == 1 && multiset(A)[a] == 1;
    assert multiset(ps)[(s, a)] == 1;
    SweepOnce(t, ps, s, a, alpha, delta, gamma, lambda);
  }

  /** The full sweep over S x A: each pair gains alpha * delta times its
      trace and its trace is multiplied by gamma * lambda; every key outside
      S x A is left alone. */
  lemma SweepEffect(S: seq<string>, A: seq<int>, t: Tables, alpha: real, delta: real, gamma: real, lambda: real)
    requires WellFormed(S, A)
    ensures var r := Sweep(t, Pairs(S, A), alpha, delta, gamma, lambda);
            (forall s, a :: s in S && a in A ==>
               GetDict(r.Q, s, a) == GetDict(t.Q, s, a) + Credit(alpha, delta, GetDict(t.E, s, a))
               && GetDict(r.E, s, a) == Decay(gamma, lambda, GetDict(t.E, s, a)))
            && (forall k :: (forall s, a :: s in S && a in A ==> k != StrKey(s, a)) ==>
                  Lookup(r.Q, k) == Lookup(t.Q, k) && Lookup(r.E, k) == Lookup(t.E, k))
  {
    var ps := Pairs(S, A);
    PairsMembers(S, A);
    forall s, a | s in S && a in A
      ensures var r := Sweep(t, ps, alpha, delta, gamma, lambda);
              GetDict(r.Q, s, a) == GetDict(t.Q, s, a) + Credit(alpha, delta, GetDict(t.E, s, a))
              && GetDict(r.E, s, a) == Decay(gamma, lambda, GetDict(t.E, s, a))
    {
      SweepPairOnce(S, A, t, s, a, alpha, delta, gamma, lambda);
    }
    forall k | forall s, a :: s in S && a in A ==> k != StrKey(s, a)
      ensures var r := Sweep(t, ps, alpha, delta, gamma, lambda);
              Lookup(r.Q, k) == Lookup(t.Q, k) && Lookup(r.E, k) == Lookup(t.E, k)
    {
      SweepUntouched(t, ps, k, alpha, delta, gamma, lambda);
    }
  }

  /** A pair whose trace is 0 keeps its value. */
  lemma ZeroTraceKeepsQ(S: seq<string>, A: seq<int>, t: Tables, s: string, a: int,
                        alpha: real, delta: real, gamma: real, lambda: real)
    requires WellFormed(S, A) && s in S && a in A
    requires GetDict(t.E, s, a) == 0.0
    ensures GetDict(Sweep(t, Pairs(S, A), alpha, delta, gamma, lambda).Q, s, a) == GetDict(t.Q, s, a)
  {
    SweepEffect(S, A, t, alpha, delta, gamma, lambda);
  }

  /** The tables with the trace of (s0, a0) raised by 1. */
  function Bump(t: Tables, s0: string, a0: int): Tables
  {
    Tables(t.Q, SetDict(t.E, GetDict(t.E, s0, a0) + 1.0, s0, a0))
  }

  /** The TD error of (s0, a0) against (s1, a1), read from Q before the step. */
  function StepError(Q: map<string, real>, s0: string, a0: int, r1: real, s1: string, a1: int, gamma: real): real
  {
    TdError(r1, GetDict(Q, s1, a1), GetDict(Q, s0, a0), gamma)
  }

  /** The assignments of the sweep body, as one pass of SweepPair. */
  lemma SweepPairIs(t: Tables, s: string, a: int, alpha: real, delta: real, gamma: real, lambda: real,
                    newQ: real, newE: real)
    requires newQ == GetDict(t.Q, s, a) + Credit(alpha, delta, GetDict(t.E, s, a))
    requires newE == Decay(gamma, lambda, GetDict(t.E, s, a))
    ensures SweepPair(t, (s, a), alpha, delta, gamma, lambda) == Tables(SetDict(t.Q, newQ, s, a), SetDict(t.E, newE, s, a))
  {
  }

  /** The outer loop's next row. */
  lemma PairsSnoc(S: seq<string>, A: seq<int>, i: nat)
    requires i < |S|
    ensures Pairs(S[..i + 1], A) == Pairs(S[..i], A) + Row(S[i], A)
  {
    assert S[..i + 1][..i] == S[..i];
  }

  /** The inner loop's next pair: the sweep up to A[j] is one more pass of
      the sweep up to A[j - 1]. */
  lemma SweepNext(t: Tables, before: seq<(string, int)>, s: string, A: seq<int>, j: nat,
                  alpha: real, delta: real, gamma: real, lambda: real)
    requires j < |A|
    ensures Sweep(t, before + Row(s, A[..j + 1]), alpha, delta, gamma, lambda)
            == SweepPair(Sweep(t, before + Row(s, A[..j]), alpha, delta, gamma, lambda), (s, A[j]),
                         alpha, delta, gamma, lambda)
  {
    assert A[..j + 1][..j] == A[..j];
    var ps := before + Row(s, A[..j]);
    assert before + Row(s, A[..j + 1]) == ps + [(s, A[j])];
    assert (ps + [(s, A[j])])[..|ps|] == ps;
  }

  /** One step of Sarsa(lambda): the TD error of (s0, a0) from the values
      before the step, the trace of (s0, a0) raised by 1, then the sweep. */
  function LambdaStep(S: seq<string>, A: seq<int>, t: Tables, s0: string, a0: int, r1: real, s1: string, a1: int,
                      gamma: real, alpha: real, lambda: real): Tables
  {
    Sweep(Bump(t, s0, a0), Pairs(S, A), alpha, StepError(t.Q, s0, a0, r1, s1, a1, gamma), gamma, lambda)
  }

  /** The statements of one step, as LambdaStep. */
  lemma LambdaStepIs(S: seq<string>, A: seq<int>, t: Tables, s0: string, a0: int, r1: real, s1: string, a1: int,
                     gamma: real, alpha: real, lambda: real, delta: real, e: real)
    requires delta == TdError(r1, GetDict(t.Q, s1, a1), GetDict(t.Q, s0, a0), gamma)
    requires e == GetDict(t.E, s0, a0) + 1.0
    ensures LambdaStep(S, A, t, s0, a0, r1, s1, a1, gamma, alpha, lambda)
            == Sweep(Tables(t.Q, SetDict(t.E, e, s0, a0)), Pairs(S, A), alpha, delta, gamma, lambda)
  {
    assert Bump(t, s0, a0) == Tables(t.Q, SetDict(t.E, e, s0, a0));
    assert StepError(t.Q, s0, a0, r1, s1, a1, gamma) == delta;
  }

  /** Sarsa(lambda) from step i on, in state s0 about to take a0. */
  function LambdaFrom(S: seq<string>, A: seq<int>, t: Tables, s0: string, a0: int,
                      outcomes: seq<Agents.Outcome>, draws: seq<Draw>, i: nat,
                      gamma: real, alpha: real, epsilon: real, lambda: real): map<string, real>
    requires |A| > 0 && i <= |outcomes| < |draws|
    decreases |outcomes| - i
  {
    if i == |outcomes| then t.Q
    else
      var o := outcomes[i];
      var a1 := EpsilonGreedyAction(A, o.next, t.Q, epsilon, draws[i + 1]);
      var t' := LambdaStep(S, A, t, s0, a0, o.reward, o.next, a1, gamma, alpha, lambda);
      if o.done then t'.Q
      else LambdaFrom(S, A, t', o.next, a1, outcomes, draws, i + 1, gamma, alpha, epsilon, lambda)
  }

  /** One step of LambdaFrom, for tables t' that are the step's result. */
  lemma LambdaFromStep(S: seq<string>, A: seq<int>, t: Tables, s0: string, a0: int,
                       outcomes: seq<Agents.Outcome>, draws: seq<Draw>, i: nat,
                       gamma: real, alpha: real, epsilon: real, lambda: real, a1: int, t': Tables)
    requires |A| > 0 && i < |outcomes| < |draws|
    requires a1 == EpsilonGreedyAction(A, outcomes[i].next, t.Q, epsilon, draws[i + 1])
    requires t' == LambdaStep(S, A, t, s0, a0, outcomes[i].reward, outcomes[i].next, a1, gamma, alpha, lambda)
    ensures LambdaFrom(S, A, t, s0, a0, outcomes, draws, i, gamma, alpha, epsilon, lambda)
            == if outcomes[i].done then t'.Q
               else LambdaFrom(S, A, t', outcomes[i].next, a1, outcomes, draws, i + 1, gamma, alpha, epsilon, lambda)
  {
  }

  /** Q after a Sarsa(lambda) episode from `start`, with empty traces. */
  function LambdaEpisode(S: seq<string>, A: seq<int>, Q: map<string, real>, start: string,
                         outcomes: seq<Agents.Outcome>, draws: seq<Draw>,
                         gamma: real, alpha: real, epsilon: real, lambda: real): map<string, real>
    requires |A| > 0 && |outcomes| < |draws|
  {
    var a0 := EpsilonGreedyAction(A, start, Q, epsilon, draws[0]);
    LambdaFrom(S, A, Tables(Q, map[]), start, a0, outcomes, draws, 0, gamma, alpha, epsilon, lambda)
  }

  /** Every trace of S x A reads 0. */
  ghost predicate TracesClear(S: seq<string>, A: seq<int>, E: map<string, real>)
  {
    forall s, a :: s in S && a in A ==> GetDict(E, s, a) == 0.0
  }

  /** The credit of a unit trace is the Sarsa update of the same TD error. */
  lemma UnitCredit(oldQ: real, r1: real, qNext: real, alpha: real, gamma: real)
    ensures oldQ + Credit(alpha, TdError(r1, qNext, oldQ, gamma), 1.0) == Agents.TdValue(oldQ, r1, qNext, alpha, gamma)
  {
  }

  /** With lambda = 0 and all traces clear, a pair of S x A reads after one
      Sarsa(lambda) step as after one Sarsa step, and its trace is clear. */
  lemma LambdaZeroPair(S: seq<string>, A: seq<int>, t: Tables, s0: string, a0: int, r1: real, s1: string, a1: int,
                       gamma: real, alpha: real, s: string, a: int)
    requires WellFormed(S, A) && s0 in S && a0 in A && s in S && a in A
    requires TracesClear(S, A, t.E)
    ensures var r := LambdaStep(S, A, t, s0, a0, r1, s1, a1, gamma, alpha, 0.0);
            GetDict(r.Q, s, a) == GetDict(Agents.TdUpdate(t.Q, s0, a0, r1, s1, a1, alpha, gamma), s, a)
            && GetDict(r.E, s, a) == 0.0
  {
    var b := Bump(t, s0, a0);
    var delta := StepError(t.Q, s0, a0, r1, s1, a1, gamma);
    var v := Agents.TdValue(GetDict(t.Q, s0, a0), r1, GetDict(t.Q, s1, a1), alpha, gamma);
    assert Agents.TdUpdate(t.Q, s0, a0, r1, s1, a1, alpha, gamma) == SetDict(t.Q, v, s0, a0);
    SweepPairOnce(S, A, b, s, a, alpha, delta, gamma, 0.0);
    var r := Sweep(b, Pairs(S, A), alpha, delta, gamma, 0.0);
    assert GetDict(r.Q, s, a) == GetDict(t.Q, s, a) + Credit(alpha, delta, GetDict(b.E, s, a));
    assert GetDict(r.E, s, a) == Decay(gamma, 0.0, GetDict(b.E, s, a)) == 0.0;
    if s == s0 && a == a0 {
      assert GetDict(b.E, s, a) == 1.0;
      UnitCredit(GetDict(t.Q, s0, a0), r1, GetDict(t.Q, s1, a1), alpha, gamma);
      assert GetDict(r.Q, s, a) == v;
    } else {
      GetAfterSetOther(t.E, GetDict(t.E, s0, a0) + 1.0, s0, a0, s, a);
      assert GetDict(b.E, s, a) == 0.0;
      assert Credit(alpha, delta, 0.0) == 0.0;
      GetAfterSetOther(t.Q, v, s0, a0, s, a);
    }
  }

  /** A key of no pair of S x A is changed by neither kind of step. */
  lemma LambdaZeroOther(S: seq<string>, A: seq<int>, t: Tables, s0: string, a0: int, r1: real, s1: string, a1: int,
                        gamma: real, alpha: real, k: string)
    requires s0 in S && a0 in A
    requires forall s, a :: s in S && a in A ==> k != StrKey(s, a)
    ensures Lookup(LambdaStep(S, A, t, s0, a0, r1, s1, a1, gamma, alpha, 0.0).Q, k)
            == Lookup(Agents.TdUpdate(t.Q, s0, a0, r1, s1, a1, alpha, gamma), k)
  {
    PairsMembers(S, A);
    SweepUntouched(Bump(t, s0, a0), Pairs(S, A), k, alpha, StepError(t.Q, s0, a0, r1, s1, a1, gamma), gamma, 0.0);
    var v := Agents.TdValue(GetDict(t.Q, s0, a0), r1, GetDict(t.Q, s1, a1), alpha, gamma);
    SetDictFrame(t.Q, v, s0, a0);
  }

  /** With lambda = 0 and all traces clear, one Sarsa(lambda) step reads
      exactly like one Sarsa step, and leaves all traces clear again. */
  lemma LambdaZeroStep(S: seq<string>, A: seq<int>, t: Tables, s0: string, a0: int, r1: real, s1: string, a1: int,
                       gamma: real, alpha: real)
    requires WellFormed(S, A) && s0 in S && a0 in A
    requires TracesClear(S, A, t.E)
    ensures var r := LambdaStep(S, A, t, s0, a0, r1, s1, a1, gamma, alpha, 0.0);
            SameReadings(r.Q, Agents.TdUpdate(t.Q, s0, a0, r1, s1, a1, alpha, gamma))
            && TracesClear(S, A, r.E)
  {
    var r := LambdaStep(S, A, t, s0, a0, r1, s1, a1, gamma, alpha, 0.0);
    var sarsa := Agents.TdUpdate(t.Q, s0, a0, r1, s1, a1, alpha, gamma);
    forall k
      ensures Lookup(r.Q, k) == Lookup(sarsa, k)
    {
      if s, a :| s in S && a in A && k == StrKey(s, a) {
        LambdaZeroPair(S, A, t, s0, a0, r1, s1, a1, gamma, alpha, s, a);
      } else {
        LambdaZeroOther(S, A, t, s0, a0, r1, s1, a1, gamma, alpha, k);
      }
    }
    forall s, a | s in S && a in A
      ensures GetDict(r.E, s, a) == 0.0
    {
      LambdaZeroPair(S, A, t, s0, a0, r1, s1, a1, gamma, alpha, s, a);
    }
  }

  /** With lambda = 0, Sarsa(lambda) is one-step Sarsa: from tables that read
      the same, with all traces clear, the two episodes end with tables that
      read the same, as long as every state met is in S. */
  lemma {:induction false} LambdaZeroIsSarsa(S: seq<string>, A: seq<int>, t: Tables, Q: map<string, real>,
                                             s0: string, a0: int, outcomes: seq<Agents.Outcome>, draws: seq<Draw>,
                                             i: nat, gamma: real, alpha: real, epsilon: real)
    requires |A| > 0 && i <= |outcomes| < |draws|
    requires WellFormed(S, A) && s0 in S && a0 in A
    requires forall j :: i <= j < |outcomes| ==> outcomes[j].next in S
    requires TracesClear(S, A, t.E) && SameReadings(t.Q, Q)
    ensures SameReadings(LambdaFrom(S, A, t, s0, a0, outcomes, draws, i, gamma, alpha, epsilon, 0.0),
                         Agents.SarsaFrom(A, Q, s0, a0, outcomes, draws, i, gamma, alpha, epsilon))
    decreases |outcomes| - i
  {
    if i < |outcomes| {
      var o := outcomes[i];
      var a1 := EpsilonGreedyAction(A, o.next, t.Q, epsilon, draws[i + 1]);
      SameReadingsSameAction(A, o.next, t.Q, Q, epsilon, draws[i + 1]);
      var t' := LambdaStep(S, A, t, s0, a0, o.reward, o.next, a1, gamma, alpha, 0.0);
      LambdaZeroStep(S, A, t, s0, a0, o.reward, o.next, a1, gamma, alpha);
      Agents.TdUpdateSameReadings(t.Q, Q, s0, a0, o.reward, o.next, a1, alpha, gamma);
      var Q' := Agents.TdUpdate(Q, s0, a0, o.reward, o.next, a1, alpha, gamma);
      assert SameReadings(t'.Q, Q');
      if !o.done {
        LambdaZeroIsSarsa(S, A, t', Q', o.next, a1, outcomes, draws, i + 1, gamma, alpha, epsilon);
      }
    }
  }

  /** The whole episode: Sarsa(0) learns exactly what Sarsa learns. */
  lemma LambdaZeroEpisode(S: seq<string>, A: seq<int>, Q: map<string, real>, start: string,
                          outcomes: seq<Agents.Outcome>, draws: seq<Draw>,
                          gamma: real, alpha: real, epsilon: real)
    requires |A| > 0 && |outcomes| < |draws|
    requires WellFormed(S, A) && start in S
    requires forall j :: 0 <= j < |outcomes| ==> outcomes[j].next in S
    ensures SameReadings(LambdaEpisode(S, A, Q, start, outcomes, draws, gamma, alpha, epsilon, 0.0),
                         Agents.SarsaEpisode(A, Q, start, outcomes, draws, gamma, alpha, epsilon))
  {
    var a0 := EpsilonGreedyAction(A, start, Q, epsilon, draws[0]);
    LambdaZeroIsSarsa(S, A, Tables(Q, map[]), Q, start, a0, outcomes, draws, 0, gamma, alpha, epsilon);
  }

  /** `SarsaLambdaAgent`: the table Q, and the state and action lists of the
      base agent. */
  class SarsaLambdaAgent {
    var Q: map<string, real>
    const S: seq<string>
    const A: seq<int>

    constructor(S: seq<string>, A: seq<int>)
      ensures Q == map[] && this.S == S && this.A == A
    {
      Q := map[];
      this.S := S;
      this.A := A;
    }

    /** The `for s in self.S: for a in self.A` sweep of one step, on Q and
        the trace table E. */
    method SweepAll(E: map<string, real>, alpha: real, delta: real, gamma: real, lambda: real)
      returns (E': map<string, real>)
      modifies this
      ensures Tables(Q, E') == Sweep(Tables(old(Q), E), Pairs(S, A), alpha, delta, gamma, lambda)
    {
      E' := E;
      ghost var t0 := Tables(Q, E);
      for i := 0 to |S|
        invariant Tables(Q, E') == Sweep(t0, Pairs(S[..i], A), alpha, delta, gamma, lambda)
      {
        PairsSnoc(S, A, i);
        ghost var before := Pairs(S[..i], A);
        assert before + Row(S[i], A[..0]) == before;
        for j := 0 to |A|
          invariant Tables(Q, E') == Sweep(t0, before + Row(S[i], A[..j]), alpha, delta, gamma, lambda)
        {
          var s, a := S[i], A[j];
          var eValue := GetDict(E', s, a);
          var oldQ := GetDict(Q, s, a);
          var newQ := oldQ + Credit(alpha, delta, eValue);
          var newE := Decay(gamma, lambda, eValue);
          SweepPairIs(Tables(Q, E'), s, a, alpha, delta, gamma, lambda, newQ, newE);
          Q := SetDict(Q, newQ, s, a);
          E' := SetDict(E', newE, s, a);
          SweepNext(t0, before, s, A, j, alpha, delta, gamma, lambda);
        }
        assert A[..|A|] == A;
      }
      assert S[..|S|] == S;
    }

    /** `learning_method`: returns `time_in_episode`. */
    method LearningMethod(start: string, outcomes: seq<Agents.Outcome>, draws: seq<Draw>,
                          gamma: real, alpha: real, epsilon: real, lambda: real)
      returns (timeInEpisode: nat)
      requires |A| > 0 && |outcomes| < |draws|
      modifies this
      ensures Q == LambdaEpisode(S, A, old(Q), start, outcomes, draws, gamma, alpha, epsilon, lambda)
      ensures Agents.IsEpisodeLength(outcomes, timeInEpisode)
    {
      var s0 := start;
      var a0 := EpsilonGreedyPolicy(A, s0, Q, epsilon, draws[0]);
      ghost var target := LambdaEpisode(S, A, Q, start, outcomes, draws, gamma, alpha, epsilon, lambda);
      timeInEpisode := 0;
      var isDone := false;
      var E: map<string, real> := map[];
      while !isDone && timeInEpisode < |outcomes|
        invariant timeInEpisode <= |outcomes|
        invariant isDone == (0 < timeInEpisode && outcomes[timeInEpisode - 1].done)
        invariant Agents.NoneDone(outcomes, if isDone then timeInEpisode - 1 else timeInEpisode)
        invariant (if isDone then Q
                   else LambdaFrom(S, A, Tables(Q, E), s0, a0, outcomes, draws, timeInEpisode,
                                   gamma, alpha, epsilon, lambda)) == target
        decreases |outcomes| - timeInEpisode
      {
        var o := outcomes[timeInEpisode];
        var s1, r1 := o.next, o.reward;
        isDone := o.done;
        var a1 := EpsilonGreedyPolicy(A, s1, Q, epsilon, draws[timeInEpisode + 1]);
        var q := GetDict(Q, s0, a0);
        var qNext := GetDict(Q, s1, a1);
        var delta := TdError(r1, qNext, q, gamma);
        ghost var t := Tables(Q, E);
        var e := GetDict(E, s0, a0);
        e := e + 1.0;
        LambdaStepIs(S, A, t, s0, a0, r1, s1, a1, gamma, alpha, lambda, delta, e);
        E := SetDict(E, e, s0, a0);
        E := SweepAll(E, alpha, delta, gamma, lambda);
        LambdaFromStep(S, A, t, s0, a0, outcomes, draws, timeInEpisode, gamma, alpha, epsilon, lambda, a1, Tables(Q, E));
        s0, a0 := s1, a1;
        timeInEpisode := timeInEpisode + 1;
      }
    }
  }
}
