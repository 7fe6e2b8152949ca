/** The greedy choice shared by every policy of the repository: scan the
    action list in order, keep the largest action value seen so far and the
    list of actions that reach it (the source's `max_q` / `a_max_q`), and
    split probability evenly among the tied actions.

    `q` gives the value of an action in the state at hand: a lookup in the
    action-value table with default 0, or a one-step lookahead in the grid. */
module ArgMax {

  /** The largest value of `q` over a non-empty action list. */
  function MaxQ<T(==, !new)>(A: seq<T>, q: T -> real): (m: real)
    requires |A| > 0
    ensures forall i :: 0 <= i < |A| ==> q(A[i]) <= m
    ensures exists i :: 0 <= i < |A| && q(A[i]) == m
  {
    if |A| == 1 then q(A[0])
    else
      var rest := MaxQ(A[..|A| - 1], q);
      if q(A[|A| - 1]) > rest then q(A[|A| - 1]) else rest
  }

  /** The actions of A whose value is exactly m, in A's order, repetitions kept. */
  function Ties<T(==, !new)>(A: seq<T>, q: T -> real, m: real): (t: seq<T>)
    ensures forall x :: x in t <==> x in A && q(x) == m
    ensures |t| <= |A|
  {
    if |A| == 0 then []
    else Ties(A[..|A| - 1], q, m) + (if q(A[|A| - 1]) == m then [A[|A| - 1]] else [])
  }

  /** The greedy actions: those whose value is the maximum over A. */
  function Greedy<T(==, !new)>(A: seq<T>, q: T -> real): (t: seq<T>)
    requires |A| > 0
    ensures |t| > 0
    ensures forall x :: x in t <==> x in A && q(x) == MaxQ(A, q)
    ensures forall x, y :: x in t && y in A ==> q(y) <= q(x)
  {
    var m := MaxQ(A, q);
    assert |Ties(A, q, m)| > 0 by {
      var i :| 0 <= i < |A| && q(A[i]) == m;
      assert A[i] in Ties(A, q, m);
    }
    Ties(A, q, m)
  }

  /** pi(a | s) of the greedy policy: 1/n for each of the n greedy actions,
      0 for the others, and 0 when there is no action at all. */
  function GreedyProb<T(==, !new)>(A: seq<T>, q: T -> real, a: T): (p: real)
  {
    if |A| == 0 then 0.0
    else if a in Greedy(A, q) then 1.0 / (|Greedy(A, q)| as real)
    else 0.0
  }

  /** The sum of the greedy probabilities of the actions xs. */
  function SumGreedy<T(==, !new)>(A: seq<T>, q: T -> real, xs: seq<T>): real
  {
    if |xs| == 0 then 0.0
    else SumGreedy(A, q, xs[..|xs| - 1]) + GreedyProb(A, q, xs[|xs| - 1])
  }

  /** The scan the source performs: when the next action beats the maximum
      of a prefix it alone is greedy, when it equals it it joins the ties. */
  lemma {:induction false} TiesAboveMax<T(!new)>(A: seq<T>, q: T -> real, m: real)
    requires |A| > 0 && m > MaxQ(A, q)
    ensures Ties(A, q, m) == []
  {
    if |A| > 1 {
      TiesAboveMax(A[..|A| - 1], q, m);
    }
  }

  /** k copies of c added up. */
  function Times(k: nat, c: real): real
  {
    if k == 0 then 0.0 else Times(k - 1, c) + c
  }

  /** c times x. Written as a function so that equal factors give equal
      products by congruence, without the solver's nonlinear arithmetic. */
  function Scale(c: real, x: real): real
  {
    c * x
  }

  /** c (p + x) = c p + c x, for sums built one term at a time. */
  lemma ScaleStep(p: real, sp: real, t: real, y: real, g: real, p': real, sp': real, t': real, c: real, e: real)
    requires p == Scale(c, sp) + t && y == Scale(c, g) + e
    requires p' == p + y && sp' == sp + g && t' == t + e
    ensures p' == Scale(c, sp') + t'
  {
  }

  lemma {:induction false} TimesIsProduct(k: nat, c: real)
    ensures Times(k, c) == (k as real) * c
  {
    if k > 0 {
      TimesIsProduct(k - 1, c);
      assert (k as real) * c == ((k - 1) as real) * c + c;
    }
  }

  /** Summing the greedy probabilities over a part xs of A counts the greedy
      actions in xs, each weighing 1/n. */
  lemma {:induction false} SumGreedyCounts<T(!new)>(A: seq<T>, q: T -> real, xs: seq<T>)
    requires |A| > 0
    requires forall x :: x in xs ==> x in A
    ensures SumGreedy(A, q, xs)
            == Times(|Ties(xs, q, MaxQ(A, q))|, 1.0 / (|Greedy(A, q)| as real))
  {
    if |xs| > 0 {
      var ys, x := xs[..|xs| - 1], xs[|xs| - 1];
      var m := MaxQ(A, q);
      assert forall y :: y in ys ==> y in xs;
      SumGreedyCounts(A, q, ys);
      var c := 1.0 / (|Greedy(A, q)| as real);
      var k := |Ties(ys, q, m)|;
      assert SumGreedy(A, q, xs) == SumGreedy(A, q, ys) + GreedyProb(A, q, x);
      assert Ties(xs, q, m) == Ties(ys, q, m) + (if q(x) == m then [x] else []);
      assert x in A;
      if q(x) == m {
        assert x in Greedy(A, q);
        assert |Ties(xs, q, m)| == k + 1;
        assert Times(k + 1, c) == Times(k, c) + c;
      } else {
        assert x !in Greedy(A, q);
        assert |Ties(xs, q, m)| == k;
      }
    }
  }

  /** Over a non-empty action list the greedy probabilities sum to 1. */
  lemma GreedySumsToOne<T(!new)>(A: seq<T>, q: T -> real)
    requires |A| > 0
    ensures SumGreedy(A, q, A) == 1.0
  {
    SumGreedyCounts(A, q, A);
    assert Ties(A, q, MaxQ(A, q)) == Greedy(A, q);
    TimesReciprocal(|Greedy(A, q)|);
  }

  /** n shares of 1/n make up 1. */
  lemma TimesReciprocal(n: nat)
    requires n > 0
    ensures Times(n, 1.0 / (n as real)) == 1.0
  {
    TimesIsProduct(n, 1.0 / (n as real));
  }

  /** When every action has the same value, every action is greedy. */
  lemma {:induction false} AllTie<T(!new)>(A: seq<T>, q: T -> real, c: real)
    requires forall x :: x in A ==> q(x) == c
    ensures Ties(A, q, c) == A
  {
    if |A| > 0 {
      var init, last := A[..|A| - 1], A[|A| - 1];
      forall x | x in init
        ensures q(x) == c
      {
        assert x in A;
      }
      AllTie(init, q, c);
      assert q(last) == c;
      assert init + [last] == A;
    }
  }

  /** ... and so each of the |A| actions has greedy probability 1/|A|. */
  lemma UniformWhenAllTie<T(!new)>(A: seq<T>, q: T -> real, c: real, a: T)
    requires forall x :: x in A ==> q(x) == c
    requires a in A
    ensures Greedy(A, q) == A
    ensures GreedyProb(A, q, a) == 1.0 / (|A| as real)
  {
    AllTie(A, q, c);
    assert q(A[0]) == c;
    var i :| 0 <= i < |A| && q(A[i]) == MaxQ(A, q);
    assert MaxQ(A, q) == c;
  }

  /** The maximum depends only on the values of the actions in A. */
  lemma {:induction false} MaxQExt<T(!new)>(A: seq<T>, q1: T -> real, q2: T -> real)
    requires |A| > 0
    requires forall x :: x in A ==> q1(x) == q2(x)
    ensures MaxQ(A, q1) == MaxQ(A, q2)
  {
    if |A| > 1 {
      assert forall x :: x in A[..|A| - 1] ==> x in A;
      MaxQExt(A[..|A| - 1], q1, q2);
    }
  }

  /** So do the ties at a given value. */
  lemma {:induction false} TiesExt<T(!new)>(A: seq<T>, q1: T -> real, q2: T -> real, m: real)
    requires forall x :: x in A ==> q1(x) == q2(x)
    ensures Ties(A, q1, m) == Ties(A, q2, m)
  {
    if |A| > 0 {
      assert forall x :: x in A[..|A| - 1] ==> x in A;
      TiesExt(A[..|A| - 1], q1, q2, m);
      assert A[|A| - 1] in A;
    }
  }

  /** ... and so do the greedy actions. */
  lemma GreedyExt<T(!new)>(A: seq<T>, q1: T -> real, q2: T -> real)
    requires |A| > 0
    requires forall x :: x in A ==> q1(x) == q2(x)
    ensures Greedy(A, q1) == Greedy(A, q2)
  {
    MaxQExt(A, q1, q2);
    TiesExt(A, q1, q2, MaxQ(A, q1));
  }

  /** One step of the scan: how the maximum and the ties of A[..i+1]
      follow from those of A[..i] and the value of A[i]. */
  lemma ScanStep<T(!new)>(A: seq<T>, q: T -> real, i: nat)
    requires i < |A|
    ensures i == 0 ==> MaxQ(A[..1], q) == q(A[0]) && Ties(A[..1], q, q(A[0])) == [A[0]]
    ensures i > 0 && q(A[i]) > MaxQ(A[..i], q)
            ==> MaxQ(A[..i + 1], q) == q(A[i]) && Ties(A[..i + 1], q, q(A[i])) == [A[i]]
    ensures i > 0 && q(A[i]) == MaxQ(A[..i], q)
            ==> MaxQ(A[..i + 1], q) == MaxQ(A[..i], q)
                && Ties(A[..i + 1], q, MaxQ(A[..i], q)) == Ties(A[..i], q, MaxQ(A[..i], q)) + [A[i]]
    ensures i > 0 && q(A[i]) < MaxQ(A[..i], q)
            ==> MaxQ(A[..i + 1], q) == MaxQ(A[..i], q)
                && Ties(A[..i + 1], q, MaxQ(A[..i], q)) == Ties(A[..i], q, MaxQ(A[..i], q))
  {
    assert A[..i + 1][..i] == A[..i];
    if i > 0 && q(A[i]) > MaxQ(A[..i], q) {
      TiesAboveMax(A[..i], q, q(A[i]));
    }
  }

  /** The scan loop of the source: walk A once, keeping the best value seen
      so far and the actions that reach it. An empty `aMaxQ` stands for the
      source's initial `max_q = -inf`, which the first action always beats. */
  method ScanGreedy<T(==, !new)>(A: seq<T>, q: T -> real) returns (maxQ: real, aMaxQ: seq<T>)
    ensures |A| == 0 ==> aMaxQ == []
    ensures |A| > 0 ==> maxQ == MaxQ(A, q) && aMaxQ == Greedy(A, q)
  {
    maxQ, aMaxQ := 0.0, [];
    for i := 0 to |A|
      invariant i == 0 ==> aMaxQ == []
      invariant i > 0 ==> aMaxQ != [] && maxQ == MaxQ(A[..i], q) && aMaxQ == Ties(A[..i], q, maxQ)
    {
      var v := q(A[i]);
      ScanStep(A, q, i);
      if aMaxQ == [] || v > maxQ {
        maxQ, aMaxQ := v, [A[i]];
      } else if v == maxQ {
        aMaxQ := aMaxQ + [A[i]];
      }
    }
    assert A[..|A|] == A;
  }
}
