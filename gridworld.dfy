/** The 4x4 gridworld of chap3/main.py and its dynamic-programming planners.

    The states are the cells 0..15, numbered row by row; the corners 0 and 15
    are terminal and absorbing. The actions n, e, s, w move one cell (offsets
    -4, +1, +4, -1), a move off the grid leaves the agent where it is, and
    every step outside the terminal states costs -1.

    `uniform_random_policy` and its subclass `greedy_policy` are one class
    here, `GridPolicy`, whose `greedy` flag says which `update_policy` is in
    force; `policy_iterate` and `value_iterate` exist on greedy instances
    only. V is a list of 16 values, the policy 16 rows of 4 probabilities in
    the order n, e, s, w. */
module GridWorld {
  import ArgMax

  /** A cell of the grid (`S = [0, ..., 15]`). */
  type State = s: int | 0 <= s < 16

  /** The four moves (`A = ['n', 'e', 's', 'w']`). */
  datatype Action = N | E | S | W

  const Actions: seq<Action> := [N, E, S, W]

  /** `a_on_s`: how a move changes the cell number. */
  function Offset(a: Action): int
  {
    match a
    case N => -4
    case E => 1
    case S => 4
    case W => -1
  }

  /** The absorbing corners. */
  predicate IsTerminal(s: State)
  {
    s == 0 || s == 15
  }

  /** The moves `env` refuses because they would leave the grid. */
  predicate OffGrid(s: State, a: Action)
  {
    (s % 4 == 0 && a == W) || (s < 4 && a == N) || ((s + 1) % 4 == 0 && a == E) || (s > 11 && a == S)
  }

  /** What `env(s, a)` returns. */
  datatype Outcome = Outcome(next: State, reward: int, isEnd: bool)

  /** `env(s, a)`: stay put in a terminal state or against a wall, move by
      the offset otherwise; reward 0 in the terminal states and -1 elsewhere. */
  function Env(s: State, a: Action): Outcome
  {
    Outcome(if OffGrid(s, a) || IsTerminal(s) then s else s + Offset(a),
            if IsTerminal(s) then 0 else -1,
            IsTerminal(s))
  }

  /** The cell a move aims at, as (row, column). */
  function Target(row: int, col: int, a: Action): (int, int)
  {
    match a
    case N => (row - 1, col)
    case E => (row, col + 1)
    case S => (row + 1, col)
    case W => (row, col - 1)
  }

  /** The move described on the grid itself: from row s / 4 and column
      s % 4 to the neighbouring cell, unless that is off the grid or s is
      terminal. */
  function GridMove(s: State, a: Action): int
  {
    if IsTerminal(s) then s
    else if 0 <= Target(s / 4, s % 4, a).0 < 4 && 0 <= Target(s / 4, s % 4, a).1 < 4
    then 4 * Target(s / 4, s % 4, a).0 + Target(s / 4, s % 4, a).1
    else s
  }

  /** `env` moves exactly as the grid does: to the neighbouring cell in the
      chosen direction when there is one, otherwise nowhere; terminal states
      keep the agent, pay 0 and report the end, all others pay -1. */
  lemma EnvIsGridMove(s: State, a: Action)
    ensures Env(s, a).next == GridMove(s, a)
    ensures Env(s, a).reward == (if IsTerminal(s) then 0 else -1)
    ensures Env(s, a).isEnd <==> IsTerminal(s)
  {
    assert s == 4 * (s / 4) + s % 4;
  }

  /** `P(s, s1, a)`: whether s1 is where a leads from s. */
  function P(s: State, s1: int, a: Action): bool
  {
    s1 == Env(s, a).next
  }

  /** `R(s, a)`. */
  function R(s: State, a: Action): int
  {
    Env(s, a).reward
  }

  /** How many of the states below k are successors of s under a. */
  function Successors(s: State, a: Action, k: nat): nat
  {
    if k == 0 then 0 else Successors(s, a, k - 1) + (if P(s, k - 1, a) then 1 else 0)
  }

  lemma {:induction false} SuccessorsBelow(s: State, a: Action, k: nat)
    ensures Successors(s, a, k) == if Env(s, a).next < k then 1 else 0
  {
    if k > 0 {
      SuccessorsBelow(s, a, k - 1);
    }
  }

  /** The transitions are deterministic: exactly one state is a successor. */
  lemma OneSuccessor(s: State, a: Action)
    ensures Successors(s, a, 16) == 1
  {
    SuccessorsBelow(s, a, 16);
  }

  /** The inner sum of the source, over the first k states:
      sum of P(s, s', a) * V[s']. */
  function NextSum(V: seq<real>, s: State, a: Action, k: nat): real
    requires k <= |V|
  {
    if k == 0 then 0.0 else NextSum(V, s, a, k - 1) + (if P(s, k - 1, a) then V[k - 1] else 0.0)
  }

  /** The sum picks out the value of the one successor. */
  lemma {:induction false} NextSumPicks(V: seq<real>, s: State, a: Action, k: nat)
    requires k <= |V|
    ensures NextSum(V, s, a, k) == if Env(s, a).next < k then V[Env(s, a).next] else 0.0
  {
    if k > 0 {
      NextSumPicks(V, s, a, k - 1);
    }
  }

  /** The value of the one successor of s under a (0 when V is too short
      to hold it). */
  function Lookahead(V: seq<real>, s: State, a: Action): real
  {
    if Env(s, a).next < |V| then V[Env(s, a).next] else 0.0
  }

  /** The source's sum over all successors reduces to the value of the
      one successor. */
  lemma NextSumIsLookahead(V: seq<real>, s: State, a: Action)
    ensures NextSum(V, s, a, |V|) == Lookahead(V, s, a)
  {
    NextSumPicks(V, s, a, |V|);
  }

  /** q(s, a): the reward plus the discounted value of the successor. */
  function QValue(V: seq<real>, gamma: real, s: State, a: Action): real
  {
    (R(s, a) as real) + gamma * Lookahead(V, s, a)
  }

  /** q(s, .) as a function of the action. */
  function QOf(V: seq<real>, gamma: real, s: State): Action -> real
  {
    a => QValue(V, gamma, s, a)
  }

  /** A policy: for each of the 16 states, 4 probabilities. */
  predicate Rows(policy: seq<seq<real>>)
  {
    |policy| == 16 && forall s :: 0 <= s < 16 ==> |policy[s]| == 4
  }

  /** The first k terms of the Bellman expectation for state s:
      sum over a of pi(a | s) * q(s, a). */
  function Bellman(V: seq<real>, pi: seq<real>, gamma: real, s: State, k: nat): real
    requires k <= |pi| && k <= 4
  {
    if k == 0 then 0.0
    else Bellman(V, pi, gamma, s, k - 1) + pi[k - 1] * QValue(V, gamma, s, Actions[k - 1])
  }

  /** One evaluation sweep (`update_value`): every new value is computed
      from the snapshot V, never from values of the same sweep. */
  function Sweep(V: seq<real>, policy: seq<seq<real>>, gamma: real): (V': seq<real>)
    requires Rows(policy)
    ensures |V'| == 16
  {
    seq(16, s requires 0 <= s < 16 => Bellman(V, policy[s], gamma, s, 4))
  }

  /** n evaluation sweeps (`policy_evaluate(n)`). */
  function Evaluate(V: seq<real>, policy: seq<seq<real>>, gamma: real, n: nat): seq<real>
    requires Rows(policy)
  {
    if n == 0 then V else Sweep(Evaluate(V, policy, gamma, n - 1), policy, gamma)
  }

  /** One value-iteration sweep: the best q(s, a) over the actions, again
      from the snapshot. */
  function ValueSweep(V: seq<real>, gamma: real): (V': seq<real>)
    ensures |V'| == 16
  {
    seq(16, s requires 0 <= s < 16 => ArgMax.MaxQ(Actions, QOf(V, gamma, s)))
  }

  /** n value-iteration sweeps (`value_iterate(n)`). */
  function ValueIteration(V: seq<real>, gamma: real, n: nat): seq<real>
    decreases n
  {
    if n == 0 then V else ValueIteration(ValueSweep(V, gamma), gamma, n - 1)
  }

  /** The initial values. */
  function Zeros(): seq<real>
  {
    seq(16, _ => 0.0)
  }

  /** The uniform row: 1/|A| for each action. */
  function UniformRow(): seq<real>
  {
    seq(4, _ => 1.0 / (|Actions| as real))
  }

  /** `uniform_random_policy.update_policy`. */
  function UniformPolicy(): (policy: seq<seq<real>>)
    ensures Rows(policy)
  {
    seq(16, _ => UniformRow())
  }

  /** The greedy row of state s: 1/n for each of the n actions whose q
      equals the maximum, 0 for the others. */
  function GreedyRow(V: seq<real>, gamma: real, s: State): (row: seq<real>)
    ensures |row| == 4
  {
    seq(4, i requires 0 <= i < 4 => ArgMax.GreedyProb(Actions, QOf(V, gamma, s), Actions[i]))
  }

  /** `greedy_policy.update_policy`. */
  function GreedyPolicy(V: seq<real>, gamma: real): (policy: seq<seq<real>>)
    ensures Rows(policy)
  {
    seq(16, s requires 0 <= s < 16 => GreedyRow(V, gamma, s))
  }

  /** The policy `update_policy` builds for the chosen class. */
  function PolicyFor(greedy: bool, V: seq<real>, gamma: real): (policy: seq<seq<real>>)
    ensures Rows(policy)
  {
    if greedy then GreedyPolicy(V, gamma) else UniformPolicy()
  }

  /** Values and policy together. */
  datatype Plan = Plan(V: seq<real>, policy: seq<seq<real>>)

  /** One round of `policy_iterate`: evalN evaluation sweeps under the
      current policy, then the greedy policy for the values reached. */
  function Improve(p: Plan, gamma: real, evalN: nat): Plan
    requires Rows(p.policy)
  {
    Plan(Evaluate(p.V, p.policy, gamma, evalN), GreedyPolicy(Evaluate(p.V, p.policy, gamma, evalN), gamma))
  }

  /** n rounds of `policy_iterate`. */
  function PolicyIteration(p: Plan, gamma: real, evalN: nat, n: nat): (r: Plan)
    requires Rows(p.policy)
    ensures Rows(r.policy)
  {
    if n == 0 then p else Improve(PolicyIteration(p, gamma, evalN, n - 1), gamma, evalN)
  }

  /** The sum of a row of probabilities. */
  function RowSum(row: seq<real>): real
  {
    if |row| == 0 then 0.0 else RowSum(row[..|row| - 1]) + row[|row| - 1]
  }

  /** Each uniform row sums to 1. */
  lemma UniformRowSumsToOne()
    ensures RowSum(UniformRow()) == 1.0
  {
    var row := UniformRow();
    assert |Actions| == 4;
    assert row[..1][..0] == [] && row[..2][..1] == row[..1];
    assert row[..3][..2] == row[..2] && row[..3] == row[..4][..3] && row[..4] == row;
    assert RowSum(row[..1]) == 0.25;
    assert RowSum(row[..2]) == 0.5;
    assert RowSum(row[..3]) == 0.75;
    assert RowSum(row[..4]) == 1.0;
  }

  /** The prefix sums of a greedy row are the greedy sums over the prefix
      of the actions. */
  lemma {:induction false} GreedyRowPrefix(row: seq<real>, q: Action -> real, k: nat)
    requires |row| == 4 && k <= 4
    requires forall i :: 0 <= i < 4 ==> row[i] == ArgMax.GreedyProb(Actions, q, Actions[i])
    ensures RowSum(row[..k]) == ArgMax.SumGreedy(Actions, q, Actions[..k])
  {
    if k > 0 {
      GreedyRowPrefix(row, q, k - 1);
      assert row[..k][..k - 1] == row[..k - 1];
      assert Actions[..k][..k - 1] == Actions[..k - 1];
      assert RowSum(row[..k]) == RowSum(row[..k - 1]) + row[k - 1];
    }
  }

  /** Each greedy row sums to 1, however many actions tie. */
  lemma GreedyRowSumsToOne(V: seq<real>, gamma: real, s: State)
    ensures RowSum(GreedyRow(V, gamma, s)) == 1.0
  {
    var row, q := GreedyRow(V, gamma, s), QOf(V, gamma, s);
    GreedyRowPrefix(row, q, 4);
    assert row[..4] == row;
    assert Actions[..4] == Actions;
    ArgMax.GreedySumsToOne(Actions, q);
  }

  /** The greedy probability of the i-th action: 1/n when its q is the
      maximum, n being the number of actions that reach it, 0 otherwise. */
  lemma GreedyProbIs(q: Action -> real, i: nat)
    requires i < 4
    ensures ArgMax.GreedyProb(Actions, q, Actions[i])
            == if q(Actions[i]) == ArgMax.MaxQ(Actions, q) then 1.0 / (|ArgMax.Greedy(Actions, q)| as real) else 0.0
  {
    assert Actions[i] in Actions;
  }

  lemma ReciprocalPositive(n: int)
    requires n > 0
    ensures 1.0 / (n as real) > 0.0
  {
  }

  /** The greedy row gives probability to an action exactly when its q is
      the largest of the four. */
  lemma GreedyRowSupport(V: seq<real>, gamma: real, s: State, i: nat)
    requires i < 4
    ensures GreedyRow(V, gamma, s)[i] > 0.0
            <==> forall j :: 0 <= j < 4 ==> QValue(V, gamma, s, Actions[j]) <= QValue(V, gamma, s, Actions[i])
  {
    var q := QOf(V, gamma, s);
    var m := ArgMax.MaxQ(Actions, q);
    var n := |ArgMax.Greedy(Actions, q)|;
    GreedyProbIs(q, i);
    assert GreedyRow(V, gamma, s)[i] == ArgMax.GreedyProb(Actions, q, Actions[i]);
    if q(Actions[i]) == m {
      ReciprocalPositive(n);
      forall j | 0 <= j < 4
        ensures QValue(V, gamma, s, Actions[j]) <= QValue(V, gamma, s, Actions[i])
      {
        assert q(Actions[j]) <= m;
      }
    } else {
      var k :| 0 <= k < 4 && q(Actions[k]) == m;
      assert q(Actions[i]) <= m;
      assert QValue(V, gamma, s, Actions[i]) < QValue(V, gamma, s, Actions[k]);
    }
  }

  /** With all values 0 every action of a state is worth the same, so the
      greedy policy a `greedy_policy` starts with is the uniform one. */
  lemma InitialGreedyIsUniform(gamma: real)
    ensures GreedyPolicy(Zeros(), gamma) == UniformPolicy()
  {
    forall s: State
      ensures GreedyRow(Zeros(), gamma, s) == UniformRow()
    {
      var q := QOf(Zeros(), gamma, s);
      var c := if IsTerminal(s) then 0.0 else -1.0;
      forall i | 0 <= i < 4
        ensures GreedyRow(Zeros(), gamma, s)[i] == UniformRow()[i]
      {
        ArgMax.UniformWhenAllTie(Actions, q, c, Actions[i]);
      }
    }
  }

  /** Value iteration takes the best of the four lookaheads. */
  lemma ValueSweepIsMax(V: seq<real>, gamma: real, s: State)
    ensures forall a :: a in Actions ==> QValue(V, gamma, s, a) <= ValueSweep(V, gamma)[s]
    ensures exists a :: a in Actions && QValue(V, gamma, s, a) == ValueSweep(V, gamma)[s]
  {
    var q := QOf(V, gamma, s);
    var k :| 0 <= k < 4 && q(Actions[k]) == ArgMax.MaxQ(Actions, q);
    assert QValue(V, gamma, s, Actions[k]) == ValueSweep(V, gamma)[s];
  }

  /** In a terminal state every action keeps the agent there at reward 0. */
  lemma TerminalLookahead(V: seq<real>, gamma: real, t: State, a: Action)
    requires |V| == 16 && IsTerminal(t) && V[t] == 0.0
    ensures QValue(V, gamma, t, a) == 0.0
  {
  }

  /** When every action is worth the same c, the Bellman expectation is c
      times the total probability of the row, so c itself for a row that
      sums to 1. */
  lemma {:induction false} BellmanConstant(V: seq<real>, pi: seq<real>, gamma: real, s: State, k: nat, c: real)
    requires k <= |pi| && k <= 4
    requires forall j :: 0 <= j < k ==> QValue(V, gamma, s, Actions[j]) == c
    ensures Bellman(V, pi, gamma, s, k) == c * RowSum(pi[..k])
  {
    if k > 0 {
      BellmanConstant(V, pi, gamma, s, k - 1, c);
      assert pi[..k][..k - 1] == pi[..k - 1];
      assert RowSum(pi[..k]) == RowSum(pi[..k - 1]) + pi[k - 1];
    }
  }

  /** A terminal state of value 0 keeps value 0 in an evaluation sweep,
      whatever the policy. */
  lemma TerminalSweep(V: seq<real>, policy: seq<seq<real>>, gamma: real, t: State)
    requires |V| == 16 && Rows(policy) && IsTerminal(t) && V[t] == 0.0
    ensures Sweep(V, policy, gamma)[t] == 0.0
  {
    forall j | 0 <= j < 4
      ensures QValue(V, gamma, t, Actions[j]) == 0.0
    {
      TerminalLookahead(V, gamma, t, Actions[j]);
    }
    BellmanConstant(V, policy[t], gamma, t, 4, 0.0);
  }

  /** ... and in a value-iteration sweep. */
  lemma TerminalValueSweep(V: seq<real>, gamma: real, t: State)
    requires |V| == 16 && IsTerminal(t) && V[t] == 0.0
    ensures ValueSweep(V, gamma)[t] == 0.0
  {
    TerminalLookahead(V, gamma, t, N);
    TerminalLookahead(V, gamma, t, E);
    TerminalLookahead(V, gamma, t, S);
    TerminalLookahead(V, gamma, t, W);
    ValueSweepIsMax(V, gamma, t);
  }

  /** V has a value per state and 0 in both corners. */
  predicate TerminalsZero(V: seq<real>)
  {
    |V| == 16 && V[0] == 0.0 && V[15] == 0.0
  }

  /** Starting from 0 in the terminal states, policy evaluation keeps
      them at 0 through any number of sweeps. */
  lemma {:induction false} EvaluateKeepsTerminals(V: seq<real>, policy: seq<seq<real>>, gamma: real, n: nat)
    requires Rows(policy) && TerminalsZero(V)
    ensures TerminalsZero(Evaluate(V, policy, gamma, n))
  {
    if n > 0 {
      var prev := Evaluate(V, policy, gamma, n - 1);
      EvaluateKeepsTerminals(V, policy, gamma, n - 1);
      TerminalSweep(prev, policy, gamma, 0);
      TerminalSweep(prev, policy, gamma, 15);
    }
  }

  /** ... and so does value iteration. */
  lemma {:induction false} ValueIterationKeepsTerminals(V: seq<real>, gamma: real, n: nat)
    requires TerminalsZero(V)
    ensures TerminalsZero(ValueIteration(V, gamma, n))
    decreases n
  {
    if n > 0 {
      TerminalValueSweep(V, gamma, 0);
      TerminalValueSweep(V, gamma, 15);
      ValueIterationKeepsTerminals(ValueSweep(V, gamma), gamma, n - 1);
    }
  }

  /** From V = 0 under the uniform policy, each action is worth R(s, a). */
  lemma FirstSweepLookahead(s: State, a: Action)
    ensures QValue(Zeros(), 1.0, s, a) == if IsTerminal(s) then 0.0 else -1.0
  {
  }

  /** The first uniform sweep from V = 0 with gamma = 1 gives -1 to every
      non-terminal state and keeps 0 in the corners. */
  lemma FirstSweep(s: State)
    ensures Sweep(Zeros(), UniformPolicy(), 1.0)[s] == if IsTerminal(s) then 0.0 else -1.0
  {
    var c := if IsTerminal(s) then 0.0 else -1.0;
    forall j | 0 <= j < 4
      ensures QValue(Zeros(), 1.0, s, Actions[j]) == c
    {
      FirstSweepLookahead(s, Actions[j]);
    }
    BellmanConstant(Zeros(), UniformRow(), 1.0, s, 4, c);
    UniformRowSumsToOne();
    assert UniformRow()[..4] == UniformRow();
    assert UniformPolicy()[s] == UniformRow();
  }

  /** The innermost loop: sum of P(s, s', a) * V[s'] over all 16 states. */
  method NextValueSum(V: seq<real>, s: State, a: Action) returns (vNextSum: real)
    requires |V| == 16
    ensures vNextSum == NextSum(V, s, a, 16)
    ensures vNextSum == V[Env(s, a).next]
  {
    vNextSum := 0.0;
    for sNext := 0 to 16
      invariant vNextSum == NextSum(V, s, a, sNext)
    {
      vNextSum := vNextSum + (if P(s, sNext, a) then V[sNext] else 0.0);
    }
    NextSumIsLookahead(V, s, a);
  }

  /** q(s, a) as the source computes it. */
  method ActionValue(V: seq<real>, gamma: real, s: State, a: Action) returns (q: real)
    requires |V| == 16
    ensures q == QValue(V, gamma, s, a)
  {
    var vNextSum := NextValueSum(V, s, a);
    q := (R(s, a) as real) + gamma * vNextSum;
  }

  /** The loop over the actions of `update_value` for one state. */
  method ExpectedValue(V: seq<real>, pi: seq<real>, gamma: real, s: State) returns (vNew: real)
    requires |V| == 16 && |pi| == 4
    ensures vNew == Bellman(V, pi, gamma, s, 4)
  {
    vNew := 0.0;
    for i := 0 to 4
      invariant vNew == Bellman(V, pi, gamma, s, i)
    {
      var q := ActionValue(V, gamma, s, Actions[i]);
      vNew := vNew + pi[i] * q;
    }
  }

  /** The loop over the actions of `value_iterate` for one state. The
      source starts from minus infinity, which the first action's value
      replaces; here the first value is taken directly. */
  method BestValue(V: seq<real>, gamma: real, s: State) returns (vNew: real)
    requires |V| == 16
    ensures vNew == ArgMax.MaxQ(Actions, QOf(V, gamma, s))
  {
    ghost var q := QOf(V, gamma, s);
    vNew := 0.0;
    for i := 0 to 4
      invariant i > 0 ==> vNew == ArgMax.MaxQ(Actions[..i], q)
    {
      var qa := ActionValue(V, gamma, s, Actions[i]);
      ArgMax.ScanStep(Actions, q, i);
      if i == 0 || qa > vNew {
        vNew := qa;
      }
    }
    assert Actions[..4] == Actions;
  }

  /** Counting the ties of one more action. */
  lemma TiesSnoc(q: Action -> real, m: real, i: nat)
    requires i < 4
    ensures |ArgMax.Ties(Actions[..i + 1], q, m)| == |ArgMax.Ties(Actions[..i], q, m)| + (if q(Actions[i]) == m then 1 else 0)
  {
    assert Actions[..i + 1][..i] == Actions[..i];
  }

  /** The marking loop of `greedy_policy.update_policy` for one state:
      1 for the actions whose q equals maxQ, 0 for the others, and the
      number of 1s. */
  method MarkTies(qs: seq<real>, q: Action -> real, maxQ: real) returns (marks: seq<real>, maxCnt: nat)
    requires |qs| == 4 && forall i :: 0 <= i < 4 ==> qs[i] == q(Actions[i])
    ensures |marks| == 4 && forall j :: 0 <= j < 4 ==> marks[j] == if q(Actions[j]) == maxQ then 1.0 else 0.0
    ensures maxCnt == |ArgMax.Ties(Actions, q, maxQ)|
  {
    marks, maxCnt := [], 0;
    for i := 0 to 4
      invariant |marks| == i
      invariant forall j :: 0 <= j < i ==> marks[j] == if qs[j] == maxQ then 1.0 else 0.0
      invariant maxCnt == |ArgMax.Ties(Actions[..i], q, maxQ)|
    {
      TiesSnoc(q, maxQ, i);
      ghost var before := marks;
      if qs[i] == maxQ {
        marks := marks + [1.0];
        maxCnt := maxCnt + 1;
      } else {
        marks := marks + [0.0];
      }
      assert marks[..i] == before;
    }
    assert Actions[..4] == Actions;
  }

  /** A marked entry divided by the number of ties is the greedy
      probability of its action. */
  lemma GreedyEntry(q: Action -> real, maxQ: real, mark: real, maxCnt: nat, i: nat)
    requires i < 4 && maxQ == ArgMax.MaxQ(Actions, q) && maxCnt == |ArgMax.Greedy(Actions, q)|
    requires mark == if q(Actions[i]) == maxQ then 1.0 else 0.0
    ensures mark / (maxCnt as real) == ArgMax.GreedyProb(Actions, q, Actions[i])
  {
    GreedyProbIs(q, i);
  }

  /** The tie-splitting step of `greedy_policy.update_policy` for state
      s, over its row of q values: the maximum, the marked ties, and the
      division by their number. */
  method GreedyRowFrom(V: seq<real>, gamma: real, s: State, qs: seq<real>) returns (p: seq<real>)
    requires |qs| == 4 && forall i :: 0 <= i < 4 ==> qs[i] == QValue(V, gamma, s, Actions[i])
    ensures p == GreedyRow(V, gamma, s)
  {
    var q := QOf(V, gamma, s);
    assert forall i :: 0 <= i < 4 ==> qs[i] == q(Actions[i]);
    var maxQ := ArgMax.MaxQ(Actions, q);
    var marks, maxCnt := MarkTies(qs, q, maxQ);
    p := seq(4, i requires 0 <= i < 4 => marks[i] / (maxCnt as real));
    DivideMarks(V, gamma, s, marks, maxCnt, p);
  }

  /** Dividing the marks by their number gives the greedy row. */
  lemma DivideMarks(V: seq<real>, gamma: real, s: State, marks: seq<real>, maxCnt: nat, p: seq<real>)
    requires |marks| == 4
    requires forall j :: 0 <= j < 4 ==> marks[j] == if QOf(V, gamma, s)(Actions[j]) == ArgMax.MaxQ(Actions, QOf(V, gamma, s)) then 1.0 else 0.0
    requires maxCnt == |ArgMax.Ties(Actions, QOf(V, gamma, s), ArgMax.MaxQ(Actions, QOf(V, gamma, s)))|
    requires p == seq(4, i requires 0 <= i < 4 => marks[i] / (maxCnt as real))
    ensures p == GreedyRow(V, gamma, s)
  {
    var q := QOf(V, gamma, s);
    assert ArgMax.Ties(Actions, q, ArgMax.MaxQ(Actions, q)) == ArgMax.Greedy(Actions, q);
    forall i | 0 <= i < 4
      ensures p[i] == ArgMax.GreedyProb(Actions, q, Actions[i])
    {
      GreedyEntry(q, ArgMax.MaxQ(Actions, q), marks[i], maxCnt, i);
    }
  }

  /** Growing a prefix by one element. */
  lemma PrefixSnoc<T>(xs: seq<T>, i: nat)
    requires i < |xs|
    ensures xs[..i + 1] == xs[..i] + [xs[i]]
  {
  }

  /** A planner: `uniform_random_policy` when `greedy` is false,
      `greedy_policy` when it is true. */
  class GridPolicy {
    const greedy: bool
    const gamma: real
    var V: seq<real>
    var policy: seq<seq<real>>

    /** V has a value per state and the policy a row per state. */
    ghost predicate Valid()
      reads this
    {
      |V| == 16 && Rows(policy)
    }

    /** `__init__`: V = 0 everywhere, then `update_policy`. */
    constructor(gamma: real, greedy: bool)
      ensures this.gamma == gamma && this.greedy == greedy
      ensures V == Zeros() && policy == PolicyFor(greedy, V, gamma)
      ensures Valid()
    {
      this.gamma := gamma;
      this.greedy := greedy;
      V := Zeros();
      policy := [];
      new;
      UpdatePolicy();
    }

    /** `update_policy` of the class in force. */
    method UpdatePolicy()
      requires |V| == 16
      modifies this
      ensures V == old(V) && policy == PolicyFor(greedy, V, gamma)
    {
      if greedy {
        UpdateGreedy();
      } else {
        UpdateUniform();
      }
    }

    /** `uniform_random_policy.update_policy`: 1/|A| per action. */
    method UpdateUniform()
      modifies this
      ensures V == old(V) && policy == UniformPolicy()
    {
      var newPolicy: seq<seq<real>> := [];
      for s := 0 to 16
        invariant |newPolicy| == s && forall t :: 0 <= t < s ==> newPolicy[t] == UniformRow()
      {
        newPolicy := newPolicy + [seq(4, _ => 1.0 / (|Actions| as real))];
      }
      policy := newPolicy;
    }

    /** `greedy_policy.update_policy`: q(s, a) for every state and action
        from the current V, then the tie-splitting greedy row per state. */
    method UpdateGreedy()
      requires |V| == 16
      modifies this
      ensures V == old(V) && policy == GreedyPolicy(V, gamma)
    {
      var Q := QTable(V, gamma);
      policy := GreedyRows(V, gamma, Q);
    }

    /** `update_value`: one sweep over the snapshot of V. */
    method UpdateValue()
      requires Valid()
      modifies this
      ensures policy == old(policy) && V == Sweep(old(V), policy, gamma)
    {
      var snapshot := V;
      for s := 0 to 16
        invariant |V| == 16 && policy == old(policy)
        invariant forall t :: 0 <= t < s ==> V[t] == Bellman(snapshot, policy[t], gamma, t, 4)
      {
        var vNew := ExpectedValue(snapshot, policy[s], gamma, s);
        V := V[s := vNew];
      }
    }

    /** `policy_evaluate(n)`: n sweeps under the current policy. */
    method PolicyEvaluate(n: nat)
      requires Valid()
      modifies this
      ensures policy == old(policy) && V == Evaluate(old(V), policy, gamma, n)
    {
      for k := 0 to n
        invariant policy == old(policy) && V == Evaluate(old(V), policy, gamma, k)
      {
        UpdateValue();
      }
    }

    /** `policy_iterate(evalN, n)`: n rounds of evaluation and greedy
        improvement. */
    method PolicyIterate(evalN: nat, n: nat)
      requires Valid() && greedy
      modifies this
      ensures Plan(V, policy) == PolicyIteration(Plan(old(V), old(policy)), gamma, evalN, n)
    {
      ghost var p0 := Plan(V, policy);
      for k := 0 to n
        invariant Valid()
        invariant Plan(V, policy) == PolicyIteration(p0, gamma, evalN, k)
      {
        ImproveOnce(evalN);
      }
    }

    /** The body of the loop of `policy_iterate`: evaluate, then act
        greedily on the values reached. */
    method ImproveOnce(evalN: nat)
      requires Valid() && greedy
      modifies this
      ensures Valid()
      ensures Plan(V, policy) == Improve(Plan(old(V), old(policy)), gamma, evalN)
    {
      PolicyEvaluate(evalN);
      UpdatePolicy();
    }

    /** `value_iterate(n)`: n sweeps of the best lookahead. */
    method ValueIterate(n: nat)
      requires Valid() && greedy
      modifies this
      ensures policy == old(policy) && V == ValueIteration(old(V), gamma, n)
    {
      for k := 0 to n
        invariant |V| == 16 && policy == old(policy)
        invariant ValueIteration(V, gamma, n - k) == ValueIteration(old(V), gamma, n)
      {
        BestValues();
      }
    }

    /** The body of the outer loop of `value_iterate`: every state takes the
        best lookahead over a snapshot of V. */
    method BestValues()
      requires |V| == 16
      modifies this
      ensures policy == old(policy) && V == ValueSweep(old(V), gamma)
    {
      var snapshot := V;
      for s := 0 to 16
        invariant |V| == 16 && policy == old(policy)
        invariant forall t :: 0 <= t < s ==> V[t] == ArgMax.MaxQ(Actions, QOf(snapshot, gamma, t))
      {
        var vNew := BestValue(snapshot, gamma, s);
        V := V[s := vNew];
      }
      assert V == ValueSweep(snapshot, gamma);
    }
  }

  /** The first loop of `greedy_policy.update_policy`: q(s, a) for every
      state and action. */
  method QTable(V: seq<real>, gamma: real) returns (Q: seq<seq<real>>)
    requires |V| == 16
    ensures Rows(Q)
    ensures forall t, i :: 0 <= t < 16 && 0 <= i < 4 ==> Q[t][i] == QValue(V, gamma, t, Actions[i])
  {
    Q := [];
    for s := 0 to 16
      invariant |Q| == s
      invariant forall t :: 0 <= t < s ==> |Q[t]| == 4
      invariant forall t, i :: 0 <= t < s && 0 <= i < 4 ==> Q[t][i] == QValue(V, gamma, t, Actions[i])
    {
      var row := QRow(V, gamma, s);
      Q := Q + [row];
    }
  }

  /** The second loop of `greedy_policy.update_policy`: the greedy row of
      every state from its q values. */
  method GreedyRows(V: seq<real>, gamma: real, Q: seq<seq<real>>) returns (policy: seq<seq<real>>)
    requires Rows(Q)
    requires forall t, i :: 0 <= t < 16 && 0 <= i < 4 ==> Q[t][i] == QValue(V, gamma, t, Actions[i])
    ensures policy == GreedyPolicy(V, gamma)
  {
    ghost var target := GreedyPolicy(V, gamma);
    policy := [];
    for s := 0 to 16
      invariant policy == target[..s]
    {
      var p := GreedyRowFrom(V, gamma, s, Q[s]);
      PrefixSnoc(target, s);
      policy := policy + [p];
    }
    assert target[..16] == target;
  }

  /** The q values of one state, in action order. */
  method QRow(V: seq<real>, gamma: real, s: State) returns (row: seq<real>)
    requires |V| == 16
    ensures |row| == 4 && forall i :: 0 <= i < 4 ==> row[i] == QValue(V, gamma, s, Actions[i])
  {
    row := [];
    for i := 0 to 4
      invariant |row| == i && forall j :: 0 <= j < i ==> row[j] == QValue(V, gamma, s, Actions[j])
    {
      var q := ActionValue(V, gamma, s, Actions[i]);
      row := row + [q];
    }
  }
}
