/** The incremental mean both table learners use (`learn_Q` in chap5/main.py
    and `policy_evaluate` in chap4/main.py): a table of running means with
    their sample counts, where a new sample r for a key with n earlier
    samples and mean v moves the mean to `v + (r - v) / (n + 1)`. */
module IncrementalMean {
  import ArgMax
  import opened PointUtils

  /** `v + (r - v) / (n + 1)`; the divisor is at least 1. */
  function MeanStep(v: real, r: real, n: nat): real
  {
    v + (r - v) / ((n + 1) as real)
  }

  /** The running total grows by the new sample: if v is the mean of n
      samples summing to n copies of v, the new estimate is the mean of n + 1
      samples summing to that plus r. */
  lemma MeanStepTotal(v: real, r: real, n: nat)
    ensures ArgMax.Times(n + 1, MeanStep(v, r, n)) == ArgMax.Times(n, v) + r
  {
    var m := (n + 1) as real;
    ArgMax.TimesIsProduct(n + 1, MeanStep(v, r, n));
    ArgMax.TimesIsProduct(n, v);
    calc {
      m * MeanStep(v, r, n);
      m * v + m * ((r - v) / m);
      m * v + (r - v);
      (n as real) * v + r;
    }
  }

  /** The first sample replaces whatever estimate was stored. */
  lemma MeanStepFirst(v: real, r: real)
    ensures MeanStep(v, r, 0) == r
  {
  }

  /** A sample equal to the current mean leaves it unchanged. */
  lemma MeanStepKeeps(r: real, n: nat)
    ensures MeanStep(r, r, n) == r
  {
  }

  /** The means (Q or V) and the visit counters (Nsa or Ns), keyed by
      `str_key`. */
  datatype Table = Table(mean: map<string, real>, count: map<string, nat>)

  /** The mean stored under k, 0 when never written. */
  function MeanAt(t: Table, k: string): real
  {
    if k in t.mean then t.mean[k] else 0.0
  }

  /** The count stored under k, 0 when never written. */
  function CountAt(t: Table, k: string): nat
  {
    if k in t.count then t.count[k] else 0
  }

  /** One sample: the arguments of the key and the reward. */
  type Sample = (seq<Arg>, real)

  /** One update: the count of the key goes up by one and its mean takes
      the sample in. */
  function Record(t: Table, x: Sample): Table
  {
    Table(SetDict(t.mean, MeanStep(GetDict(t.mean, 0.0, x.0), x.1, GetDict(t.count, 0, x.0)), x.0),
          SetDict(t.count, GetDict(t.count, 0, x.0) + 1, x.0))
  }

  /** The samples recorded in order. */
  function RecordAll(t: Table, xs: seq<Sample>): Table
  {
    if |xs| == 0 then t else Record(RecordAll(t, xs[..|xs| - 1]), xs[|xs| - 1])
  }

  /** How many samples land on key k. */
  function Hits(xs: seq<Sample>, k: string): nat
  {
    if |xs| == 0 then 0
    else Hits(xs[..|xs| - 1], k) + (if Key(xs[|xs| - 1].0) == k then 1 else 0)
  }

  /** The sum of the rewards of the samples that land on key k. */
  function RewardSum(xs: seq<Sample>, k: string): real
  {
    if |xs| == 0 then 0.0
    else RewardSum(xs[..|xs| - 1], k) + (if Key(xs[|xs| - 1].0) == k then xs[|xs| - 1].1 else 0.0)
  }

  /** Hits and reward sums split over a concatenation of samples. */
  lemma {:induction false} HitsAppend(xs: seq<Sample>, ys: seq<Sample>, k: string)
    ensures Hits(xs + ys, k) == Hits(xs, k) + Hits(ys, k)
    ensures RewardSum(xs + ys, k) == RewardSum(xs, k) + RewardSum(ys, k)
  {
    if |ys| == 0 {
      assert xs + ys == xs;
    } else {
      var n := |ys| - 1;
      assert (xs + ys)[..|xs + ys| - 1] == xs + ys[..n];
      assert (xs + ys)[|xs + ys| - 1] == ys[n];
      HitsAppend(xs, ys[..n], k);
    }
  }

  /** After one update the sampled key has one more sample and a mean moved
      toward the reward; every other key reads as before. */
  lemma RecordEffect(t: Table, x: Sample, k: string)
    ensures CountAt(Record(t, x), k) == CountAt(t, k) + (if Key(x.0) == k then 1 else 0)
    ensures MeanAt(Record(t, x), k)
            == if Key(x.0) == k then MeanStep(MeanAt(t, k), x.1, CountAt(t, k)) else MeanAt(t, k)
    ensures k in Record(t, x).mean <==> k in t.mean || Key(x.0) == k
  {
  }

  /** One update adds the reward to the running total (count copies of the
      mean) of its own key and to no other. */
  lemma RecordTotal(t: Table, x: Sample, k: string)
    ensures ArgMax.Times(CountAt(Record(t, x), k), MeanAt(Record(t, x), k))
            == ArgMax.Times(CountAt(t, k), MeanAt(t, k)) + (if Key(x.0) == k then x.1 else 0.0)
  {
    RecordEffect(t, x, k);
    if Key(x.0) == k {
      MeanStepTotal(MeanAt(t, k), x.1, CountAt(t, k));
    }
  }

  /** The count of k grows by exactly the number of samples of k. */
  lemma {:induction false} RecordAllCounts(t: Table, xs: seq<Sample>, k: string)
    ensures CountAt(RecordAll(t, xs), k) == CountAt(t, k) + Hits(xs, k)
  {
    if |xs| > 0 {
      RecordAllCounts(t, xs[..|xs| - 1], k);
      RecordEffect(RecordAll(t, xs[..|xs| - 1]), xs[|xs| - 1], k);
    }
  }

  /** The mean invariant: count copies of the mean add up to the rewards
      seen for the key, so the mean of a key first seen in xs is the mean of
      its rewards. */
  lemma {:induction false} RecordAllSums(t: Table, xs: seq<Sample>, k: string)
    ensures ArgMax.Times(CountAt(RecordAll(t, xs), k), MeanAt(RecordAll(t, xs), k))
            == ArgMax.Times(CountAt(t, k), MeanAt(t, k)) + RewardSum(xs, k)
  {
    if |xs| > 0 {
      RecordAllSums(t, xs[..|xs| - 1], k);
      RecordTotal(RecordAll(t, xs[..|xs| - 1]), xs[|xs| - 1], k);
    }
  }

  /** Keys no sample lands on keep their mean and their count, and gain no
      entry they did not have. */
  lemma {:induction false} RecordAllUntouched(t: Table, xs: seq<Sample>, k: string)
    requires Hits(xs, k) == 0
    ensures MeanAt(RecordAll(t, xs), k) == MeanAt(t, k)
    ensures CountAt(RecordAll(t, xs), k) == CountAt(t, k)
    ensures k in RecordAll(t, xs).mean <==> k in t.mean
  {
    if |xs| > 0 {
      RecordAllUntouched(t, xs[..|xs| - 1], k);
      RecordEffect(RecordAll(t, xs[..|xs| - 1]), xs[|xs| - 1], k);
    }
  }

  /** If every reward is r and k had no samples or mean r already, the mean
      of k is r once k has been sampled. */
  lemma {:induction false} RecordAllConstant(t: Table, xs: seq<Sample>, r: real, k: string)
    requires forall i :: 0 <= i < |xs| ==> xs[i].1 == r
    requires CountAt(t, k) == 0 || MeanAt(t, k) == r
    requires Hits(xs, k) > 0
    ensures MeanAt(RecordAll(t, xs), k) == r
  {
    var ys, x := xs[..|xs| - 1], xs[|xs| - 1];
    var before := RecordAll(t, ys);
    RecordEffect(before, x, k);
    assert x.1 == r;
    if Hits(ys, k) > 0 {
      RecordAllConstant(t, ys, r, k);
      if Key(x.0) == k {
        MeanStepKeeps(r, CountAt(before, k));
      }
    } else {
      RecordAllUntouched(t, ys, k);
      if CountAt(t, k) == 0 {
        MeanStepFirst(MeanAt(before, k), r);
      } else {
        MeanStepKeeps(r, CountAt(before, k));
      }
    }
  }

  /** Recording two runs of samples one after the other. */
  lemma {:induction false} RecordAllAppend(t: Table, xs: seq<Sample>, ys: seq<Sample>)
    ensures RecordAll(t, xs + ys) == RecordAll(RecordAll(t, xs), ys)
  {
    if |ys| == 0 {
      assert xs + ys == xs;
    } else {
      var n := |ys| - 1;
      assert (xs + ys)[..|xs + ys| - 1] == xs + ys[..n];
      assert (xs + ys)[|xs + ys| - 1] == ys[n];
      RecordAllAppend(t, xs, ys[..n]);
    }
  }

  /** Extending the recorded prefix by one sample. */
  lemma RecordAllSnoc(t: Table, xs: seq<Sample>, i: nat)
    requires i < |xs|
    ensures RecordAll(t, xs[..i + 1]) == Record(RecordAll(t, xs[..i]), xs[i])
  {
    assert xs[..i + 1][..i] == xs[..i];
  }

  /** One update written with the values a loop body reads first. */
  lemma RecordIs(t: Table, x: Sample, args: seq<Arg>, r: real, n: nat, v: real)
    requires x == (args, r)
    requires n == GetDict(t.count, 0, args)
    requires v == GetDict(t.mean, 0.0, args)
    ensures Record(t, x) == Table(SetDict(t.mean, v + (r - v) / ((n + 1) as real), args), SetDict(t.count, n + 1, args))
  {
  }
}
