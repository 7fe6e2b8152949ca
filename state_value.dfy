/** `policy_evaluate` of chap4/main.py: every-visit Monte-Carlo evaluation
    of the fixed threshold player, which folds the arena's recorded games
    into a state-value table V and a visit counter Ns. The action of each
    pair is ignored; every state of a game is credited with the game's
    reward. */
module StateValue {
  import opened PointUtils
  import opened IncrementalMean
  import opened ArgMax

  /** One game as recorded by the arena: its (state name, action) pairs. */
  type Episode = seq<(string, string)>

  /** The arena's `episodes`: each game's pairs and its reward. */
  type Games = seq<(Episode, int)>

  /** The arguments of `get_dict(V, s)`. */
  function StateArgs(s: string): seq<Arg>
  {
    [Atom(Str(s))]
  }

  /** The key `get_dict(V, s)` reads. */
  function StateKey(s: string): string
  {
    Key(StateArgs(s))
  }

  /** The samples one game contributes: each state with the game's reward. */
  function EpisodeSamples(episode: Episode, r: real): (xs: seq<Sample>)
    ensures |xs| == |episode|
  {
    seq(|episode|, i requires 0 <= i < |episode| => (StateArgs(episode[i].0), r))
  }

  /** The samples of all games, in the order `policy_evaluate` visits them. */
  function AllSamples(games: Games): seq<Sample>
  {
    if |games| == 0 then []
    else AllSamples(games[..|games| - 1]) + EpisodeSamples(games[|games| - 1].0, games[|games| - 1].1 as real)
  }

  /** The tables (V, Ns) after `policy_evaluate(games, V, Ns)`. */
  function Evaluate(t: Table, games: Games): Table
  {
    RecordAll(t, AllSamples(games))
  }

  /** How many pairs of one game are in the state with key k. */
  function StateVisits(episode: Episode, k: string): nat
  {
    if |episode| == 0 then 0
    else StateVisits(episode[..|episode| - 1], k) + (if StateKey(episode[|episode| - 1].0) == k then 1 else 0)
  }

  /** How many pairs of all games are in the state with key k. */
  function Occurrences(games: Games, k: string): nat
  {
    if |games| == 0 then 0
    else Occurrences(games[..|games| - 1], k) + StateVisits(games[|games| - 1].0, k)
  }

  /** The rewards credited to key k: each game's reward once per visit. */
  function RewardTotal(games: Games, k: string): real
  {
    if |games| == 0 then 0.0
    else RewardTotal(games[..|games| - 1], k) + Times(StateVisits(games[|games| - 1].0, k), games[|games| - 1].1 as real)
  }

  /** A game's samples hit a key once per visit of that state, each with
      the game's reward. */
  lemma {:induction false} EpisodeHits(episode: Episode, r: real, k: string)
    ensures Hits(EpisodeSamples(episode, r), k) == StateVisits(episode, k)
    ensures RewardSum(EpisodeSamples(episode, r), k) == Times(StateVisits(episode, k), r)
  {
    if |episode| > 0 {
      var n := |episode| - 1;
      assert EpisodeSamples(episode, r)[..n] == EpisodeSamples(episode[..n], r);
      EpisodeHits(episode[..n], r, k);
    }
  }

  /** All samples hit a key once per occurrence, crediting each game's
      reward. */
  lemma {:induction false} AllSamplesHits(games: Games, k: string)
    ensures Hits(AllSamples(games), k) == Occurrences(games, k)
    ensures RewardSum(AllSamples(games), k) == RewardTotal(games, k)
  {
    if |games| > 0 {
      var n := |games| - 1;
      AllSamplesHits(games[..n], k);
      HitsAppend(AllSamples(games[..n]), EpisodeSamples(games[n].0, games[n].1 as real), k);
      EpisodeHits(games[n].0, games[n].1 as real, k);
    }
  }

  /** Ns of a state ends up counting its occurrences over all games. */
  lemma EvaluateCounts(t: Table, games: Games, k: string)
    ensures CountAt(Evaluate(t, games), k) == CountAt(t, k) + Occurrences(games, k)
  {
    AllSamplesHits(games, k);
    RecordAllCounts(t, AllSamples(games), k);
  }

  /** The mean invariant: Ns copies of V add up to the rewards of all
      games, one per occurrence; from empty tables V is the mean reward of
      the state's occurrences. */
  lemma EvaluateMean(t: Table, games: Games, k: string)
    ensures Times(CountAt(Evaluate(t, games), k), MeanAt(Evaluate(t, games), k))
            == Times(CountAt(t, k), MeanAt(t, k)) + RewardTotal(games, k)
  {
    AllSamplesHits(games, k);
    RecordAllSums(t, AllSamples(games), k);
  }

  /** A state that never occurs keeps its value and gains no entry, so from
      empty tables it still reads 0. */
  lemma EvaluateUnvisited(t: Table, games: Games, k: string)
    requires Occurrences(games, k) == 0
    ensures k in Evaluate(t, games).mean <==> k in t.mean
    ensures MeanAt(Evaluate(t, games), k) == MeanAt(t, k)
  {
    AllSamplesHits(games, k);
    RecordAllUntouched(t, AllSamples(games), k);
  }

  /** Every sample carries a reward r when every game did. */
  lemma {:induction false} AllSamplesReward(games: Games, r: int)
    requires forall g :: 0 <= g < |games| ==> games[g].1 == r
    ensures forall i :: 0 <= i < |AllSamples(games)| ==> AllSamples(games)[i].1 == r as real
  {
    if |games| > 0 {
      AllSamplesReward(games[..|games| - 1], r);
    }
  }

  /** With the same reward r in every game, every visited state ends with
      V = r (starting from no entry or from r). */
  lemma EvaluateConstant(t: Table, games: Games, r: int, k: string)
    requires forall g :: 0 <= g < |games| ==> games[g].1 == r
    requires CountAt(t, k) == 0 || MeanAt(t, k) == r as real
    requires Occurrences(games, k) > 0
    ensures MeanAt(Evaluate(t, games), k) == r as real
  {
    AllSamplesHits(games, k);
    AllSamplesReward(games, r);
    RecordAllConstant(t, AllSamples(games), r as real, k);
  }

  /** The samples of the first i + 1 games. */
  lemma AllSamplesSnoc(games: Games, i: nat)
    requires i < |games|
    ensures AllSamples(games[..i + 1]) == AllSamples(games[..i]) + EpisodeSamples(games[i].0, games[i].1 as real)
  {
    assert games[..i + 1][..i] == games[..i];
  }

  /** The inner loop of `policy_evaluate` over the pairs of one game with
      reward r: each state is counted once more and its value moved toward
      r. */
  method EvaluateGame(episode: Episode, r: real, V0: map<string, real>, Ns0: map<string, nat>)
    returns (V: map<string, real>, Ns: map<string, nat>)
    ensures Table(V, Ns) == RecordAll(Table(V0, Ns0), EpisodeSamples(episode, r))
  {
    V, Ns := V0, Ns0;
    ghost var t0 := Table(V0, Ns0);
    ghost var xs := EpisodeSamples(episode, r);
    for j := 0 to |episode|
      invariant Table(V, Ns) == RecordAll(t0, xs[..j])
    {
      var (s, a) := episode[j];
      var ns := GetDict(Ns, 0, StateArgs(s));
      var v := GetDict(V, 0.0, StateArgs(s));
      RecordIs(Table(V, Ns), xs[j], StateArgs(s), r, ns, v);
      RecordAllSnoc(t0, xs, j);
      Ns := SetDict(Ns, ns + 1, StateArgs(s));
      V := SetDict(V, v + (r - v) / ((ns + 1) as real), StateArgs(s));
    }
    assert xs[..|episode|] == xs;
  }

  /** `policy_evaluate(episodes, V, Ns)`: for every pair of every game,
      count the state once more and move its value toward the game's
      reward. The dictionaries are passed back updated. */
  method PolicyEvaluate(games: Games, V0: map<string, real>, Ns0: map<string, nat>)
    returns (V: map<string, real>, Ns: map<string, nat>)
    ensures Table(V, Ns) == Evaluate(Table(V0, Ns0), games)
  {
    V, Ns := V0, Ns0;
    for i := 0 to |games|
      invariant Table(V, Ns) == RecordAll(Table(V0, Ns0), AllSamples(games[..i]))
    {
      var (episode, r) := games[i];
      AllSamplesSnoc(games, i);
      RecordAllAppend(Table(V0, Ns0), AllSamples(games[..i]), EpisodeSamples(episode, r as real));
      V, Ns := EvaluateGame(episode, r as real, V, Ns);
    }
    assert games[..|games|] == games;
  }
}
