/** One simulation run: a sequence of mergers applied to a freshly loaded
    lexicon, with summary statistics sampled before the first merger and
    after every merger whose zero-based index is a multiple of 500. */
module Simulation {
  import opened Lexicon
  import opened SoundChange

  /** Sampling interval of the run. */
  const SampleEvery: nat := 500

  /** The iteration numbers at which a run of `n` mergers samples: 0, then
      `m + 1` for every `m < n` with `m % SampleEvery == 0`. */
  function SamplePoints(n: nat): (xs: seq<nat>)
    ensures |xs| >= 1
  {
    if n == 0 then [0]
    else SamplePoints(n - 1) + (if (n - 1) % SampleEvery == 0 then [n] else [])
  }

  /** The `j`-th sample point in closed form: 0, 1, 501, 1001, ... */
  function SamplePoint(j: nat): nat
  {
    if j == 0 then 0 else (j - 1) * SampleEvery + 1
  }

  /** The number of samples of a run of `n` mergers: `1 + ceil(n / SampleEvery)`. */
  function SampleCount(n: nat): nat
  {
    1 + (n + SampleEvery - 1) / SampleEvery
  }

  /** The sample points are exactly 0 and the numbers `x` in 1..n with
      `x - 1` a multiple of the interval, in increasing order; there are
      `SampleCount(n)` of them and the `j`-th is `SamplePoint(j)`. */
  lemma SamplePointsSpec(n: nat)
    ensures SamplePoints(n)[0] == 0
    ensures forall x :: x in SamplePoints(n) <==> x == 0 || (1 <= x <= n && (x - 1) % SampleEvery == 0)
    ensures forall a, b :: 0 <= a < b < |SamplePoints(n)| ==> SamplePoints(n)[a] < SamplePoints(n)[b]
    ensures |SamplePoints(n)| == SampleCount(n)
    ensures forall j :: 0 <= j < |SamplePoints(n)| ==> SamplePoints(n)[j] == SamplePoint(j)
  {
    SamplePointsOrdered(n);
    SamplePointsClosed(n);
  }

  /** The sample points are 0 and the `x <= n` with `x - 1` a multiple of the
      interval, strictly increasing. */
  lemma {:induction false} SamplePointsOrdered(n: nat)
    ensures SamplePoints(n)[0] == 0
    ensures forall x :: x in SamplePoints(n) <==> x == 0 || (1 <= x <= n && (x - 1) % SampleEvery == 0)
    ensures forall a, b :: 0 <= a < b < |SamplePoints(n)| ==> SamplePoints(n)[a] < SamplePoints(n)[b]
  {
    if n > 0 {
      SamplePointsOrdered(n - 1);
      var prev := SamplePoints(n - 1);
      assert forall a :: 0 <= a < |prev| ==> prev[a] <= n - 1 by {
        forall a | 0 <= a < |prev| ensures prev[a] <= n - 1 {
          assert prev[a] in prev;
        }
      }
    }
  }

  /** There are `SampleCount(n)` sample points and the `j`-th is `SamplePoint(j)`. */
  lemma {:induction false} SamplePointsClosed(n: nat)
    ensures |SamplePoints(n)| == SampleCount(n)
    ensures forall j :: 0 <= j < |SamplePoints(n)| ==> SamplePoints(n)[j] == SamplePoint(j)
  {
    if n > 0 {
      SamplePointsClosed(n - 1);
      CeilingStep(n - 1);
    }
  }

  /** The number of multiples of the interval below `m + 1` grows by one
      exactly when `m` is itself a multiple. */
  lemma CeilingStep(m: nat)
    ensures SampleCount(m + 1) == SampleCount(m) + (if m % SampleEvery == 0 then 1 else 0)
    ensures m % SampleEvery == 0 ==> SamplePoint(SampleCount(m)) == m + 1
  {
    var q, r := m / SampleEvery, m % SampleEvery;
    assert m == q * SampleEvery + r;
    if r == 0 {
      assert (m + SampleEvery) / SampleEvery == q + 1;
      assert (m + SampleEvery - 1) / SampleEvery == q;
    } else {
      assert (m + SampleEvery) / SampleEvery == q + 1;
      assert (m + SampleEvery - 1) / SampleEvery == q + 1;
    }
  }

  /** The random draws of one merger. */
  datatype Step = Step(variant: Variant, i: nat, swap: bool, threshold: nat)

  /** The draws lie in the ranges the random choices are made from. */
  predicate ValidStep(s: Step)
  {
    s.i + 1 < ClassSize(s.variant.Target()) && s.threshold < ClassSize(s.variant.Condition())
  }

  /** The state after the merger `step` draws. */
  function ApplyStep(st: State, step: Step): State
    requires ValidStep(step)
  {
    Merge(st, step.variant, step.i, step.swap, step.threshold)
  }

  /** The state after the mergers `steps`, in order, starting from `st`. */
  function ApplySteps(st: State, steps: seq<Step>): State
    requires forall k :: 0 <= k < |steps| ==> ValidStep(steps[k])
    decreases |steps|
  {
    if steps == [] then st else ApplyStep(ApplySteps(st, steps[..|steps| - 1]), steps[|steps| - 1])
  }

  /** One sample: iteration number, phoneme count, and the distance sum and
      pair count whose quotient is the average distance. */
  datatype Sample = Sample(iteration: nat, phonemes: nat, distanceSum: nat, pairs: nat)

  /** The statistics of `lex` as recorded at `iteration`, computed from the
      lexicon itself. */
  function Snapshot(lex: seq<Word>, iteration: nat): Sample
  {
    Sample(iteration, PhonemeCount(lex), DistanceSum(lex), PairCount(|lex|))
  }

  /** Phoneme count from the cached sets, as the run computes it. */
  function CachedPhonemeCount(st: State): (c: nat)
    requires Consistent(st)
    ensures c == PhonemeCount(st.lexicon)
  {
    |st.onset + st.coda| + |st.nucleus|
  }

  /** Applies one merger, keeping only what the run needs to know. */
  method Advance(st: State, step: Step) returns (st': State)
    requires Consistent(st) && ValidStep(step)
    ensures st' == ApplyStep(st, step)
    ensures Consistent(st')
    ensures |st'.lexicon| == |st.lexicon|
    ensures AllInInventory(st.lexicon) ==> AllInInventory(st'.lexicon)
  {
    var rule;
    st', rule := Change(st, step.variant, step.i, step.swap, step.threshold);
  }

  /** `samples` were taken at the sample points of a run of `n` mergers over a
      lexicon of `pairs` pairs, each with a distance sum within its bound. */
  predicate Sampled(samples: seq<Sample>, n: nat, pairs: nat)
  {
    && |samples| == SampleCount(n)
    && (forall j :: 0 <= j < |samples| ==> samples[j].iteration == SamplePoint(j))
    && (forall j :: 0 <= j < |samples| ==> samples[j].pairs == pairs && samples[j].distanceSum <= 3 * pairs)
  }

  /** After merger `n`, a multiple of the interval, the run appends a sample. */
  lemma SampledTake(samples: seq<Sample>, n: nat, pairs: nat, s: Sample)
    requires Sampled(samples, n, pairs) && n % SampleEvery == 0
    requires s.iteration == n + 1 && s.pairs == pairs && s.distanceSum <= 3 * pairs
    ensures Sampled(samples + [s], n + 1, pairs)
  {
    CeilingStep(n);
  }

  /** After any other merger the samples stay as they are. */
  lemma SampledSkip(samples: seq<Sample>, n: nat, pairs: nat)
    requires Sampled(samples, n, pairs) && n % SampleEvery != 0
    ensures Sampled(samples, n + 1, pairs)
  {
    CeilingStep(n);
  }

  /** Sample `j` of `samples` holds the statistics of the lexicon after the
      first `SamplePoint(j)` mergers of `steps` from `start`, for a run that
      has applied `n` of them. */
  predicate Recorded(samples: seq<Sample>, start: State, steps: seq<Step>, n: nat)
  {
    && (forall k :: 0 <= k < |steps| ==> ValidStep(steps[k]))
    && n <= |steps|
    && |samples| == SampleCount(n)
    && forall j :: 0 <= j < |samples| ==>
         SamplePoint(j) <= n && samples[j] == Snapshot(ApplySteps(start, steps[..SamplePoint(j)]).lexicon, SamplePoint(j))
  }

  /** After merger `n`, a multiple of the interval, the snapshot of the new
      state is the sample for the next sample point. */
  lemma RecordedTake(samples: seq<Sample>, start: State, steps: seq<Step>, n: nat)
    requires Recorded(samples, start, steps, n) && n < |steps| && n % SampleEvery == 0
    ensures Recorded(samples + [Snapshot(ApplySteps(start, steps[..n + 1]).lexicon, n + 1)], start, steps, n + 1)
  {
    CeilingStep(n);
    var taken := samples + [Snapshot(ApplySteps(start, steps[..n + 1]).lexicon, n + 1)];
    forall j | 0 <= j < |taken|
      ensures SamplePoint(j) <= n + 1
      ensures taken[j] == Snapshot(ApplySteps(start, steps[..SamplePoint(j)]).lexicon, SamplePoint(j))
    {
      if j < |samples| {
        assert taken[j] == samples[j];
      } else {
        assert SamplePoint(j) == n + 1;
      }
    }
  }

  /** After any other merger the recorded samples stay as they are. */
  lemma RecordedSkip(samples: seq<Sample>, start: State, steps: seq<Step>, n: nat)
    requires Recorded(samples, start, steps, n) && n < |steps| && n % SampleEvery != 0
    ensures Recorded(samples, start, steps, n + 1)
  {
    CeilingStep(n);
  }

  /** The statistics of the current state, labelled with the iteration. */
  method Measure(st: State, iteration: nat) returns (s: Sample)
    requires Consistent(st)
    ensures s == Snapshot(st.lexicon, iteration)
    ensures s.distanceSum <= 3 * s.pairs
  {
    var sum, pairs := Average(st.lexicon);
    s := Sample(iteration, CachedPhonemeCount(st), sum, pairs);
  }

  /** Merger `n` of a run from `start`, followed by the sample taken after
      it when `n` is a multiple of the interval. */
  method Iterate(st: State, samples: seq<Sample>, start: State, steps: seq<Step>, n: nat) returns (st': State, samples': seq<Sample>)
    requires n < |steps| && (forall k :: 0 <= k < |steps| ==> ValidStep(steps[k]))
    requires Consistent(st) && st == ApplySteps(start, steps[..n])
    requires Recorded(samples, start, steps, n)
    requires Sampled(samples, n, PairCount(|start.lexicon|)) && |st.lexicon| == |start.lexicon|
    ensures samples' == if n % SampleEvery == 0 then samples + [Snapshot(st'.lexicon, n + 1)] else samples
    ensures Sampled(samples', n + 1, PairCount(|start.lexicon|))
    ensures AllInInventory(st.lexicon) ==> AllInInventory(st'.lexicon)
    ensures Consistent(st') && |st'.lexicon| == |start.lexicon|
    ensures st' == ApplySteps(start, steps[..n + 1])
    ensures Recorded(samples', start, steps, n + 1)
  {
    assert steps[..n + 1][..n] == steps[..n];
    st' := Advance(st, steps[n]);
    if n % SampleEvery == 0 {
      var s := Measure(st', n + 1);
      SampledTake(samples, n, PairCount(|start.lexicon|), s);
      RecordedTake(samples, start, steps, n);
      samples' := samples + [s];
    } else {
      SampledSkip(samples, n, PairCount(|start.lexicon|));
      RecordedSkip(samples, start, steps, n);
      samples' := samples;
    }
  }

  /** Runs the mergers `steps` in order on `lex` and samples the statistics. */
  method Run(lex: seq<Word>, steps: seq<Step>) returns (samples: seq<Sample>, final: State)
    requires forall k :: 0 <= k < |steps| ==> ValidStep(steps[k])
    ensures |samples| == SampleCount(|steps|)
    ensures samples[0] == Snapshot(lex, 0)
    ensures |final.lexicon| == |lex|
    ensures forall j :: 0 <= j < |samples| ==> samples[j].iteration == SamplePoint(j)
    ensures forall j :: 0 <= j < |samples| ==> samples[j].pairs == samples[0].pairs
    ensures forall j :: 0 <= j < |samples| ==> samples[j].distanceSum <= 3 * samples[j].pairs
    ensures |steps| == 0 ==> |samples| == 1 && final.lexicon == lex
    ensures AllInInventory(lex) ==> AllInInventory(final.lexicon)
    ensures Consistent(final)
    ensures final == ApplySteps(Init(lex), steps)
    ensures Recorded(samples, Init(lex), steps, |steps|)
  {
    var start := Init(lex);
    var st := start;
    var first := Measure(st, 0);
    samples := [first];
    assert steps[..0] == [];
    for n := 0 to |steps|
      invariant Consistent(st)
      invariant st == ApplySteps(start, steps[..n])
      invariant |st.lexicon| == |lex|
      invariant AllInInventory(lex) ==> AllInInventory(st.lexicon)
      invariant Recorded(samples, start, steps, n)
      invariant Sampled(samples, n, PairCount(|lex|))
      invariant samples[0] == Snapshot(lex, 0)
    {
      st, samples := Iterate(st, samples, start, steps, n);
    }
    assert steps[..|steps|] == steps;
    final := st;
    assert final == ApplySteps(Init(lex), steps);
    assert Recorded(samples, Init(lex), steps, |steps|);
  }
}
