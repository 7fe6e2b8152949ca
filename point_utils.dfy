/** Table helpers and policies of the blackjack learner
    (chap5/21point_game/utils.py): state keys, get-with-default and set on the
    action-value tables, the greedy and epsilon-greedy distributions, and the
    epsilon-greedy sampler driven by a caller-supplied `random.random()` value. */
module PointUtils {
  import opened Decimal
  import opened Wrappers
  import ArgMax
  import EpsilonGreedy

  /** A scalar the source stringifies: an int, a bool or a string. */
  datatype Val = Int(i: int) | Bool(b: bool) | Str(s: string)

  /** A positional argument of `str_key`: a scalar, or a tuple/list of scalars. */
  datatype Arg = Atom(v: Val) | Group(vs: seq<Val>)

  /** Python's `str()` of a scalar. */
  function Show(v: Val): string {
    match v
    case Int(i) => IntToString(i)
    case Bool(b) => if b then "True" else "False"
    case Str(s) => s
  }

  /** The tokens one argument contributes: a tuple or list is expanded one level. */
  function Tokens(arg: Arg): seq<string> {
    match arg
    case Atom(v) => [Show(v)]
    case Group(vs) => ShowAll(vs)
  }

  /** `[str(i) for i in arg]`. */
  function ShowAll(vs: seq<Val>): (ts: seq<string>)
    ensures |ts| == |vs|
    ensures forall j :: 0 <= j < |vs| ==> ts[j] == Show(vs[j])
  {
    if |vs| == 0 then [] else ShowAll(vs[..|vs| - 1]) + [Show(vs[|vs| - 1])]
  }

  /** The token list `new_arg` that `str_key` builds. */
  function Flatten(args: seq<Arg>): seq<string> {
    if |args| == 0 then [] else Flatten(args[..|args| - 1]) + Tokens(args[|args| - 1])
  }

  /** `"_".join(tokens)`. */
  function Join(tokens: seq<string>): string {
    if |tokens| == 0 then ""
    else if |tokens| == 1 then tokens[0]
    else tokens[0] + "_" + Join(tokens[1..])
  }

  /** The key `str_key(*args)` returns. */
  function Key(args: seq<Arg>): string {
    Join(Flatten(args))
  }

  /** `str_key`: the loop that flattens the arguments, then the join. */
  method StrKey(args: seq<Arg>) returns (key: string)
    ensures key == Key(args)
  {
    var newArg: seq<string> := [];
    for i := 0 to |args|
      invariant newArg == Flatten(args[..i])
    {
      assert args[..i + 1][..i] == args[..i];
      match args[i]
      case Group(vs) =>
        newArg := newArg + ShowAll(vs);
      case Atom(v) =>
        newArg := newArg + [Show(v)];
    }
    assert args[..|args|] == args;
    key := Join(newArg);
  }

  /** Index of the first '_' in s. */
  function FirstSep(s: string): (i: nat)
    requires '_' in s
    ensures i < |s| && s[i] == '_' && '_' !in s[..i]
  {
    if s[0] == '_' then 0 else 1 + FirstSep(s[1..])
  }

  /** `s.split("_")`. */
  function Split(s: string): (parts: seq<string>)
    ensures |parts| >= 1
    decreases |s|
  {
    if '_' !in s then [s]
    else
      var i := FirstSep(s);
      [s[..i]] + Split(s[i + 1..])
  }

  /** In t + "_" + rest with no '_' in t, the first separator is right after t. */
  lemma {:induction false} FirstSepAfter(t: string, rest: string)
    requires '_' !in t
    ensures FirstSep(t + "_" + rest) == |t|
  {
    var s := t + "_" + rest;
    if |t| > 0 {
      assert s[0] == t[0];
      assert s[1..] == t[1..] + "_" + rest;
      FirstSepAfter(t[1..], rest);
    }
  }

  /** Splitting a key at '_' gives back its tokens, as long as no token
      contains '_' itself. */
  lemma {:induction false} SplitJoin(tokens: seq<string>)
    requires |tokens| >= 1
    requires forall t :: t in tokens ==> '_' !in t
    ensures Split(Join(tokens)) == tokens
  {
    if |tokens| > 1 {
      var t, rest := tokens[0], Join(tokens[1..]);
      var s := t + "_" + rest;
      assert Join(tokens) == s;
      FirstSepAfter(t, rest);
      assert s[..|t|] == t;
      assert s[|t| + 1..] == rest;
      assert forall u :: u in tokens[1..] ==> u in tokens;
      SplitJoin(tokens[1..]);
    }
  }

  /** Equal keys come from equal token lists, as long as no token contains
      '_' (true of every number and bool). */
  lemma KeyDeterminesTokens(args1: seq<Arg>, args2: seq<Arg>)
    requires Flatten(args1) != [] && Flatten(args2) != []
    requires forall t :: t in Flatten(args1) ==> '_' !in t
    requires forall t :: t in Flatten(args2) ==> '_' !in t
    requires Key(args1) == Key(args2)
    ensures Flatten(args1) == Flatten(args2)
  {
    SplitJoin(Flatten(args1));
    SplitJoin(Flatten(args2));
  }

  /** A tuple argument gives the same key as passing its elements one by one:
      `str_key((a, b, c), d) == str_key(a, b, c, d)`. */
  lemma {:induction false} GroupSpreads(vs: seq<Val>)
    ensures Flatten([Group(vs)]) == Flatten(seq(|vs|, i requires 0 <= i < |vs| => Atom(vs[i])))
  {
    var atoms := seq(|vs|, i requires 0 <= i < |vs| => Atom(vs[i]));
    assert [Group(vs)][..0] == [];
    if |vs| > 0 {
      var front := vs[..|vs| - 1];
      GroupSpreads(front);
      assert atoms[..|atoms| - 1] == seq(|front|, i requires 0 <= i < |front| => Atom(front[i]));
      assert [Group(front)][..0] == [];
    }
  }

  /** Appending one more token to a non-empty list adds "_" and the token. */
  lemma {:induction false} JoinSnoc(tokens: seq<string>, t: string)
    requires |tokens| >= 1
    ensures Join(tokens + [t]) == Join(tokens) + "_" + t
  {
    if |tokens| > 1 {
      assert (tokens + [t])[1..] == tokens[1..] + [t];
      JoinSnoc(tokens[1..], t);
    }
  }

  /** A key made from a key and one more string is the key of the longer
      argument list: `str_key(str_key(s), a) == str_key(s, a)`. This is how a
      state name and an action combine into an action-value key. */
  lemma KeyOfKey(args: seq<Arg>, a: string)
    requires Flatten(args) != []
    ensures Key([Atom(Str(Key(args))), Atom(Str(a))]) == Key(args + [Atom(Str(a))])
  {
    var k := Key(args);
    var two := [Atom(Str(k)), Atom(Str(a))];
    assert Flatten(two[..1]) == [k] by {
      assert two[..1] == [Atom(Str(k))];
      assert two[..1][..0] == [];
    }
    assert Flatten(two) == [k, a];
    assert [k, a][1..] == [a];
    assert Join([k, a]) == k + "_" + a;
    var longer := args + [Atom(Str(a))];
    assert longer[..|longer| - 1] == args;
    assert Flatten(longer) == Flatten(args) + [a];
    JoinSnoc(Flatten(args), a);
  }

  /** The tokens of the documented example: the player state (1, 15, False)
      combined with the action "Bid". */
  lemma FlattenExample()
    ensures Flatten([Group([Int(1), Int(15), Bool(false)]), Atom(Str("Bid"))]) == ["1", "15", "False", "Bid"]
  {
    var vs := [Int(1), Int(15), Bool(false)];
    var args := [Group(vs), Atom(Str("Bid"))];
    assert IntToString(15) == "15" by {
      assert NatToString(15) == NatToString(1) + [Digit(5)];
    }
    assert ShowAll(vs) == ["1", "15", "False"];
    assert Flatten([Group(vs)]) == ["1", "15", "False"] by {
      assert [Group(vs)][..0] == [];
    }
    assert args[..1] == [Group(vs)];
    assert Flatten(args) == Flatten([Group(vs)]) + ["Bid"];
  }

  /** The joined tail of the documented example's tokens. */
  lemma JoinExample()
    ensures Join(["15", "False", "Bid"]) == "15_False_Bid"
  {
    var tokens := ["15", "False", "Bid"];
    assert Join(tokens[1..]) == "False_Bid" by {
      assert tokens[1..][1..] == tokens[2..];
    }
  }

  /** The key of the documented example. */
  lemma KeyExample()
    ensures Key([Group([Int(1), Int(15), Bool(false)]), Atom(Str("Bid"))]) == "1_15_False_Bid"
  {
    FlattenExample();
    JoinExample();
    var tokens := ["1", "15", "False", "Bid"];
    assert tokens[1..] == ["15", "False", "Bid"];
  }

  /** `get_dict`: the stored value, or 0 for a key never written. */
  function GetDict<V>(d: map<string, V>, zero: V, args: seq<Arg>): V {
    if Key(args) in d then d[Key(args)] else zero
  }

  /** `set_dict`: the dictionary with the key of `args` bound to v. */
  function SetDict<V>(d: map<string, V>, v: V, args: seq<Arg>): (r: map<string, V>)
    ensures r.Keys == d.Keys + {Key(args)}
    ensures r[Key(args)] == v
    ensures forall k :: k in d && k != Key(args) ==> r[k] == d[k]
  {
    d[Key(args) := v]
  }

  /** After `set_dict(d, v, *args)`, `get_dict(d, *args)` is v and every other
      key reads as before. */
  lemma GetAfterSet<V>(d: map<string, V>, zero: V, v: V, args: seq<Arg>, other: seq<Arg>)
    ensures GetDict(SetDict(d, v, args), zero, other)
            == if Key(other) == Key(args) then v else GetDict(d, zero, other)
  {
  }

  /** The argument list of `get_dict(Q, s, a)`. */
  function QArgs(s: string, a: string): seq<Arg> {
    [Atom(Str(s)), Atom(Str(a))]
  }

  /** Q(s, .) as a function of the action: `get_dict(Q, s, a)`. */
  function QOf(Q: map<string, real>, s: string): string -> real {
    a => GetDict(Q, 0.0, QArgs(s, a))
  }

  /** `greedy_pi(A, s, Q, a)`. */
  method GreedyPi(A: seq<string>, s: string, Q: map<string, real>, a: string) returns (p: real)
    ensures p == ArgMax.GreedyProb(A, QOf(Q, s), a)
    ensures |A| > 0 && a in A && QOf(Q, s)(a) == ArgMax.MaxQ(A, QOf(Q, s))
            ==> p == 1.0 / (|ArgMax.Greedy(A, QOf(Q, s))| as real)
    ensures |A| > 0 && a in A && QOf(Q, s)(a) < ArgMax.MaxQ(A, QOf(Q, s)) ==> p == 0.0
  {
    var maxQ, aMaxQ := ArgMax.ScanGreedy(A, QOf(Q, s));
    var n := |aMaxQ|;
    if n == 0 {
      return 0.0;
    }
    p := if a in aMaxQ then 1.0 / (n as real) else 0.0;
  }

  /** In a state with no entry yet every action reads 0, all of them tie and
      each gets greedy probability 1/|A|. */
  lemma UnseenStateUniform(A: seq<string>, s: string, Q: map<string, real>, a: string)
    requires forall b :: b in A ==> Key(QArgs(s, b)) !in Q
    requires a in A
    ensures ArgMax.GreedyProb(A, QOf(Q, s), a) == 1.0 / (|A| as real)
  {
    ArgMax.UniformWhenAllTie(A, QOf(Q, s), 0.0, a);
  }

  /** `epsilon_greedy_pi(A, s, Q, a, epsilon)`. */
  function EpsilonGreedyPi(A: seq<string>, s: string, Q: map<string, real>, a: string, epsilon: real): real
    requires |A| > 0
  {
    EpsilonGreedy.Prob(A, QOf(Q, s), a, epsilon)
  }

  /** `epsilon_greedy_policy(A, s, Q, epsilon)` with `random.random()` = u. */
  method EpsilonGreedyPolicy(A: seq<string>, s: string, Q: map<string, real>, epsilon: real, u: real)
    returns (r: Option<string>)
    ensures var k := EpsilonGreedy.Pick(EpsilonGreedy.ActionProbs(A, QOf(Q, s), epsilon), u, 0);
            r == if k.Some? then Some(A[k.value]) else None
    ensures r.Some? ==> r.value in A
    ensures |A| > 0 && u < 1.0 ==> r.Some?
  {
    r := EpsilonGreedy.Sample(A, QOf(Q, s), epsilon, u);
  }
}
