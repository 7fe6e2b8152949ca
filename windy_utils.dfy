/** Table helpers and policies of the windy-grid agents
    (chap5/windy_grid/utils.py). The file defines `str_key` twice; the
    second, two-argument definition is the one in force, so an action-value
    key is `str(s) + "_" + str(a)`: a state name (a string such as the one
    `xy2state` builds) and an integer action. Random draws are parameters. */
module WindyUtils {
  import opened Decimal
  import ArgMax
  import PointUtils

  /** `str_key(s, a)`: `str` of a string is the string itself. */
  function StrKey(s: string, a: int): string {
    s + "_" + IntToString(a)
  }

  /** Keys of states without '_' (all the grid's states) name exactly one
      (state, action) pair. */
  lemma StrKeyInjective(s1: string, a1: int, s2: string, a2: int)
    requires '_' !in s1 && '_' !in s2
    requires StrKey(s1, a1) == StrKey(s2, a2)
    ensures s1 == s2 && a1 == a2
  {
    var k := StrKey(s1, a1);
    PointUtils.FirstSepAfter(s1, IntToString(a1));
    PointUtils.FirstSepAfter(s2, IntToString(a2));
    assert |s1| == |s2|;
    assert s1 == k[..|s1|] == s2;
    assert IntToString(a1) == k[|s1| + 1..] == IntToString(a2);
    IntToStringInjective(a1, a2);
  }

  /** `d.get(k, 0)`. */
  function Lookup(d: map<string, real>, k: string): real {
    if k in d then d[k] else 0.0
  }

  /** `get_dict(d, s, a)`: the stored value, or 0 for a pair never written. */
  function GetDict(d: map<string, real>, s: string, a: int): real {
    Lookup(d, StrKey(s, a))
  }

  /** `set_dict(d, v, s, a)`: d with the key of (s, a) bound to v. The source
      writes into d in place; here the caller rebinds d to the result. */
  function SetDict(d: map<string, real>, v: real, s: string, a: int): (r: map<string, real>)
    ensures r.Keys == d.Keys + {StrKey(s, a)}
    ensures GetDict(r, s, a) == v
  {
    d[StrKey(s, a) := v]
  }

  /** `set_dict` touches no other key. */
  lemma SetDictFrame(d: map<string, real>, v: real, s: string, a: int)
    ensures forall k :: k != StrKey(s, a) ==> Lookup(SetDict(d, v, s, a), k) == Lookup(d, k)
  {
  }

  /** Writing (s, a) leaves every other pair of '_'-free states as it was. */
  lemma GetAfterSetOther(d: map<string, real>, v: real, s: string, a: int, s': string, a': int)
    requires '_' !in s && '_' !in s'
    requires s != s' || a != a'
    ensures GetDict(SetDict(d, v, s, a), s', a') == GetDict(d, s', a')
  {
    if StrKey(s, a) == StrKey(s', a') {
      StrKeyInjective(s, a, s', a');
    }
    SetDictFrame(d, v, s, a);
  }

  /** Q(s, .) as a function of the action: `get_dict(Q, s, a)`. */
  function QOf(Q: map<string, real>, s: string): int -> real {
    a => GetDict(Q, s, a)
  }

  /** The draws one call of `epsilon_greedy_policy` consumes: `random.random()`,
      the index `random.choice(A)` picks and the index `random.choice(a_max_q)`
      picks (each taken modulo the length of its list). */
  datatype Draw = Draw(u: real, any: nat, tie: nat)

  /** `sample(A)`: the action of A that `random.choice` picks. It raises on an
      empty list, so A must not be empty. */
  function Sample(A: seq<int>, pick: nat): (a: int)
    requires |A| > 0
    ensures a in A
  {
    A[pick % |A|]
  }

  /** The action `greedy_policy` returns: one of the maximal actions. */
  function GreedyAction(A: seq<int>, s: string, Q: map<string, real>, tie: nat): (a: int)
    requires |A| > 0
    ensures a in A
  {
    var best := ArgMax.Greedy(A, QOf(Q, s));
    best[tie % |best|]
  }

  /** Whichever tie the draw picks, the greedy action has the largest value
      of all actions. */
  lemma GreedyActionIsMax(A: seq<int>, s: string, Q: map<string, real>, tie: nat)
    requires |A| > 0
    ensures forall b :: b in A ==> GetDict(Q, s, b) <= GetDict(Q, s, GreedyAction(A, s, Q, tie))
    ensures GetDict(Q, s, GreedyAction(A, s, Q, tie)) == ArgMax.MaxQ(A, QOf(Q, s))
  {
    var best := ArgMax.Greedy(A, QOf(Q, s));
    assert best[tie % |best|] in best;
  }

  /** `greedy_policy(A, s, Q)`: the scan over A keeps the maximal actions in
      A's order, then `random.choice` picks one of them. */
  method GreedyPolicy(A: seq<int>, s: string, Q: map<string, real>, tie: nat) returns (a: int)
    requires |A| > 0
    ensures a == GreedyAction(A, s, Q, tie)
  {
    var maxQ, aMaxQ := ArgMax.ScanGreedy(A, QOf(Q, s));
    a := aMaxQ[tie % |aMaxQ|];
  }

  /** The maximal actions are exactly the actions whose value is the
      maximum, kept in A's order; when all values are equal every action is
      eligible. */
  lemma GreedyCandidates(A: seq<int>, s: string, Q: map<string, real>)
    requires |A| > 0
    ensures forall a :: a in ArgMax.Greedy(A, QOf(Q, s))
                        <==> a in A && GetDict(Q, s, a) == ArgMax.MaxQ(A, QOf(Q, s))
    ensures (forall a, b :: a in A && b in A ==> GetDict(Q, s, a) == GetDict(Q, s, b))
            ==> ArgMax.Greedy(A, QOf(Q, s)) == A
  {
    if forall a, b :: a in A && b in A ==> GetDict(Q, s, a) == GetDict(Q, s, b) {
      var q := QOf(Q, s);
      ArgMax.AllTie(A, q, q(A[0]));
      var i :| 0 <= i < |A| && q(A[i]) == ArgMax.MaxQ(A, q);
      assert q(A[i]) == q(A[0]);
    }
  }

  /** The action `epsilon_greedy_policy` returns for the draws d. */
  function EpsilonGreedyAction(A: seq<int>, s: string, Q: map<string, real>, epsilon: real, d: Draw): (a: int)
    requires |A| > 0
    ensures a in A
  {
    if d.u < epsilon then Sample(A, d.any) else GreedyAction(A, s, Q, d.tie)
  }

  /** A draw at or above epsilon exploits: the action has the largest value. */
  lemma ExploitIsMax(A: seq<int>, s: string, Q: map<string, real>, epsilon: real, d: Draw)
    requires |A| > 0 && d.u >= epsilon
    ensures GetDict(Q, s, EpsilonGreedyAction(A, s, Q, epsilon, d)) == ArgMax.MaxQ(A, QOf(Q, s))
  {
    GreedyActionIsMax(A, s, Q, d.tie);
  }

  /** `epsilon_greedy_policy(A, s, Q, epsilon)`: explore with probability
      epsilon, otherwise act greedily. */
  method EpsilonGreedyPolicy(A: seq<int>, s: string, Q: map<string, real>, epsilon: real, d: Draw)
    returns (a: int)
    requires |A| > 0
    ensures a == EpsilonGreedyAction(A, s, Q, epsilon, d)
  {
    var randValue := d.u;
    if randValue < epsilon {
      a := Sample(A, d.any);
    } else {
      a := GreedyPolicy(A, s, Q, d.tie);
    }
  }

  /** With epsilon = 0 and a draw in [0, 1) the policy is the greedy one. */
  lemma ZeroEpsilonIsGreedy(A: seq<int>, s: string, Q: map<string, real>, d: Draw)
    requires |A| > 0 && 0.0 <= d.u
    ensures EpsilonGreedyAction(A, s, Q, 0.0, d) == GreedyAction(A, s, Q, d.tie)
  {
  }

  /** Two tables that read the same at every key. */
  ghost predicate SameReadings(Q1: map<string, real>, Q2: map<string, real>)
  {
    forall k :: Lookup(Q1, k) == Lookup(Q2, k)
  }

  /** The policy sees a table only through `get_dict`: tables that read the
      same give the same action for the same draws. */
  lemma SameReadingsSameAction(A: seq<int>, s: string, Q1: map<string, real>, Q2: map<string, real>,
                               epsilon: real, d: Draw)
    requires |A| > 0 && SameReadings(Q1, Q2)
    ensures EpsilonGreedyAction(A, s, Q1, epsilon, d) == EpsilonGreedyAction(A, s, Q2, epsilon, d)
  {
    forall a | a in A
      ensures QOf(Q1, s)(a) == QOf(Q2, s)(a)
    {
      assert Lookup(Q1, StrKey(s, a)) == Lookup(Q2, StrKey(s, a));
    }
    ArgMax.GreedyExt(A, QOf(Q1, s), QOf(Q2, s));
  }

  /** `xy2state(x, y)`: the decimal name of cell y * 12 + x. */
  function XY2State(x: int, y: int): (s: string)
    ensures '_' !in s
  {
    IntToString(y * 12 + x)
  }

  /** Cells of the 12-column grid get distinct names. */
  lemma XY2StateInjective(x1: int, y1: int, x2: int, y2: int)
    requires 0 <= x1 < 12 && 0 <= x2 < 12
    requires XY2State(x1, y1) == XY2State(x2, y2)
    ensures x1 == x2 && y1 == y2
  {
    IntToStringInjective(y1 * 12 + x1, y2 * 12 + x2);
    assert (y1 - y2) * 12 == x2 - x1;
  }
}
