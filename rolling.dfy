/**
 * `calc_rolling_power` (log_decode.py lines 21-45): bucket the zipped
 * (second, power) pairs, average each bucket, then smooth the bucket
 * averages over a retained list of at most about `window` of them.
 *
 * The method keeps the source's two loops and list updates; the functions
 * Chunks, Retained and Smoothed say what each loop has built after a prefix
 * of its input, and the lemmas state what the source promises about them.
 * Division is exact (`real`), not IEEE floating point.
 */
module Rolling {
  import opened Wrappers

  /** `chunks[-1]` on an empty list (line 31), raised as IndexError. */
  datatype RollingError = NoOpenChunk

  /** `last_second` is assigned once (line 25) and never updated. */
  const LAST_SECOND: int := 0

  function Min(a: int, b: int): int { if a <= b then a else b }

  /** `zip(seconds, powers)`: pairs up to the shorter of the two. */
  function Zip(seconds: seq<int>, powers: seq<int>): (pairs: seq<(int, int)>)
    ensures |pairs| == Min(|seconds|, |powers|)
    ensures forall k :: 0 <= k < |pairs| ==> pairs[k] == (seconds[k], powers[k])
  {
    seq(Min(|seconds|, |powers|), k requires 0 <= k < Min(|seconds|, |powers|) => (seconds[k], powers[k]))
  }

  /** The power column of the pairs. */
  function PowersOf(pairs: seq<(int, int)>): seq<int>
  {
    if pairs == [] then [] else PowersOf(pairs[..|pairs| - 1]) + [pairs[|pairs| - 1].1]
  }

  /** How many pairs open a new bucket. */
  function Openings(pairs: seq<(int, int)>): nat
  {
    if pairs == [] then 0
    else Openings(pairs[..|pairs| - 1]) + (if pairs[|pairs| - 1].0 > LAST_SECOND then 1 else 0)
  }

  function Flatten(chunks: seq<seq<int>>): seq<int>
  {
    if chunks == [] then [] else Flatten(chunks[..|chunks| - 1]) + chunks[|chunks| - 1]
  }

  /**
   * The buckets the first loop (lines 26-31) has built after the given
   * pairs: a pair whose second exceeds LAST_SECOND opens a new bucket, every
   * pair goes into the last bucket, and there being no bucket is the error.
   */
  function Chunks(pairs: seq<(int, int)>): (r: Result<seq<seq<int>>, RollingError>)
    ensures r.Success? ==> forall k :: 0 <= k < |r.value| ==> r.value[k] != []
    decreases |pairs|
  {
    if pairs == [] then Success([])
    else
      match Chunks(pairs[..|pairs| - 1])
      case Failure(e) => Failure(e)
      case Success(chunks) =>
        var (second, power) := pairs[|pairs| - 1];
        if second > LAST_SECOND then Success(chunks + [[power]])
        else if chunks == [] then Failure(NoOpenChunk)
        else Success(chunks[..|chunks| - 1] + [chunks[|chunks| - 1] + [power]])
  }

  lemma FlattenAppend(chunks: seq<seq<int>>, last: seq<int>, power: int)
    ensures Flatten(chunks + [last + [power]]) == Flatten(chunks + [last]) + [power]
  {
    assert (chunks + [last + [power]])[..|chunks|] == chunks;
    assert (chunks + [last])[..|chunks|] == chunks;
  }

  /**
   * Every zipped pair lands in exactly one bucket, in order, and no bucket
   * is empty; there is one bucket per opening pair; the loop fails exactly
   * when the first pair does not open a bucket.
   */
  lemma {:induction false} ChunksShape(pairs: seq<(int, int)>)
    ensures Chunks(pairs).Failure? <==> pairs != [] && pairs[0].0 <= LAST_SECOND
    ensures Chunks(pairs).Success? ==>
              Flatten(Chunks(pairs).value) == PowersOf(pairs) &&
              |Chunks(pairs).value| == Openings(pairs)
    ensures Chunks(pairs).Success? && pairs != [] ==> Chunks(pairs).value != []
    decreases |pairs|
  {
    if pairs != [] {
      var init := pairs[..|pairs| - 1];
      ChunksShape(init);
      assert init != [] ==> init[0] == pairs[0];
      match Chunks(init)
      case Failure(_) =>
      case Success(chunks) =>
        var (second, power) := pairs[|pairs| - 1];
        if second > LAST_SECOND {
          assert (chunks + [[power]])[..|chunks|] == chunks;
        } else if chunks != [] {
          var last := chunks[|chunks| - 1];
          assert chunks[..|chunks| - 1] + [last] == chunks;
          FlattenAppend(chunks[..|chunks| - 1], last, power);
        }
    }
  }

  /** At most one bucket per pair, and exactly one per pair when every second opens a bucket. */
  lemma {:induction false} OpeningsCount(pairs: seq<(int, int)>)
    ensures Openings(pairs) <= |pairs|
    ensures Openings(pairs) == |pairs| <==> forall k :: 0 <= k < |pairs| ==> pairs[k].0 > LAST_SECOND
  {
    if pairs != [] {
      var init := pairs[..|pairs| - 1];
      OpeningsCount(init);
      assert forall k :: 0 <= k < |init| ==> init[k] == pairs[k];
    }
  }

  /** One turn of the first loop. */
  lemma ChunksStep(pairs: seq<(int, int)>, i: nat, chunks: seq<seq<int>>)
    requires i < |pairs| && Chunks(pairs[..i]) == Success(chunks)
    ensures pairs[i].0 > LAST_SECOND ==> Chunks(pairs[..i + 1]) == Success(chunks + [[pairs[i].1]])
    ensures pairs[i].0 <= LAST_SECOND && chunks == [] ==> Chunks(pairs[..i + 1]).Failure?
    ensures pairs[i].0 <= LAST_SECOND && chunks != [] ==>
              Chunks(pairs[..i + 1]) == Success(chunks[..|chunks| - 1] + [chunks[|chunks| - 1] + [pairs[i].1]])
  {
    assert pairs[..i + 1][..i] == pairs[..i] && pairs[..i + 1][i] == pairs[i];
  }

  /** A failure of the first loop is never undone by later pairs. */
  lemma {:induction false} ChunksFailureStays(pairs: seq<(int, int)>, i: nat)
    requires i <= |pairs|
    requires Chunks(pairs[..i]).Failure?
    ensures Chunks(pairs) == Chunks(pairs[..i])
    decreases |pairs| - i
  {
    if i < |pairs| {
      assert pairs[..i + 1][..i] == pairs[..i];
      ChunksFailureStays(pairs, i + 1);
    } else {
      assert pairs[..i] == pairs;
    }
  }

  /** Because LAST_SECOND never moves, all-positive seconds give one bucket per pair. */
  lemma {:induction false} PositiveSecondsSingleBuckets(pairs: seq<(int, int)>)
    requires forall k :: 0 <= k < |pairs| ==> pairs[k].0 > 0
    ensures Chunks(pairs) == Success(seq(|pairs|, k requires 0 <= k < |pairs| => [pairs[k].1]))
    decreases |pairs|
  {
    if pairs != [] {
      var init := pairs[..|pairs| - 1];
      PositiveSecondsSingleBuckets(init);
      var singles := seq(|init|, k requires 0 <= k < |init| => [init[k].1]);
      var last := pairs[|pairs| - 1];
      assert Chunks(pairs) == Success(singles + [[last.1]]);
      assert seq(|pairs|, k requires 0 <= k < |pairs| => [pairs[k].1]) == singles + [[last.1]];
    } else {
      assert seq(|pairs|, k requires 0 <= k < |pairs| => [pairs[k].1]) == [];
    }
  }

  function Sum(xs: seq<real>): real
  {
    if xs == [] then 0.0 else Sum(xs[..|xs| - 1]) + xs[|xs| - 1]
  }

  function Mean(xs: seq<real>): real
    requires |xs| > 0
  {
    Sum(xs) / |xs| as real
  }

  function AsReals(xs: seq<int>): (r: seq<real>)
    ensures |r| == |xs| && forall k :: 0 <= k < |xs| ==> r[k] == xs[k] as real
  {
    seq(|xs|, k requires 0 <= k < |xs| => xs[k] as real)
  }

  /** `sum(chunk) / len(chunk)` (line 39). */
  function ChunkMean(chunk: seq<int>): real
    requires chunk != []
  {
    Mean(AsReals(chunk))
  }

  /** The bucket means, in bucket order (line 39). */
  function ChunkMeans(chunks: seq<seq<int>>): (means: seq<real>)
    requires forall k :: 0 <= k < |chunks| ==> chunks[k] != []
    ensures |means| == |chunks|
  {
    if chunks == [] then [] else ChunkMeans(chunks[..|chunks| - 1]) + [ChunkMean(chunks[|chunks| - 1])]
  }

  /** Python's `xs[k:]`: a negative start counts from the end, and both ends clamp. */
  function SliceFrom<T>(xs: seq<T>, k: int): (r: seq<T>)
    ensures |r| <= |xs| && r == xs[|xs| - |r|..]
    ensures |r| == if k >= 0 then (if k <= |xs| then |xs| - k else 0) else Min(|xs|, -k)
  {
    if k >= 0 then (if k <= |xs| then xs[k..] else [])
    else if -k <= |xs| then xs[|xs| + k..]
    else xs
  }

  /** Lines 40-41: once the list is longer than the window, keep `samples[window-1:]`. */
  function Trim(samples: seq<real>, window: int): seq<real>
  {
    if |samples| > window then SliceFrom(samples, window - 1) else samples
  }

  /**
   * The retained `samples` list after the bucket means `means` (lines 39-41).
   * It is always a non-empty suffix of the means seen so far, so the
   * division at line 43 is defined.
   */
  function Retained(means: seq<real>, window: int): (r: seq<real>)
    ensures means != [] ==> r != []
  {
    if means == [] then []
    else
      var init := means[..|means| - 1];
      var prev := Retained(init, window);
      var grown := prev + [means[|means| - 1]];
      assert |grown| > window ==> window - 1 < |grown|;
      Trim(grown, window)
  }

  /** The retained list is always a suffix of the bucket means: only the oldest are dropped. */
  lemma {:induction false} RetainedIsSuffix(means: seq<real>, window: int)
    ensures |Retained(means, window)| <= |means|
    ensures Retained(means, window) == means[|means| - |Retained(means, window)|..]
  {
    if means != [] {
      var init := means[..|means| - 1];
      RetainedIsSuffix(init, window);
      var grown := Retained(init, window) + [means[|means| - 1]];
      assert grown == means[|means| - |grown|..];
    }
  }

  /** The averages (line 43) after the bucket means `means`: one per bucket. */
  function Smoothed(means: seq<real>, window: int): (r: seq<real>)
    ensures |r| == |means|
  {
    if means == [] then [] else Smoothed(means[..|means| - 1], window) + [Mean(Retained(means, window))]
  }

  /** One turn of the second loop. */
  lemma SmoothedStep(means: seq<real>, x: real, window: int)
    ensures Retained(means + [x], window) == Trim(Retained(means, window) + [x], window)
    ensures Smoothed(means + [x], window) == Smoothed(means, window) + [Mean(Retained(means + [x], window))]
  {
    assert (means + [x])[..|means|] == means;
  }

  lemma ChunkMeansStep(chunks: seq<seq<int>>, i: nat)
    requires i < |chunks| && forall k :: 0 <= k < |chunks| ==> chunks[k] != []
    ensures ChunkMeans(chunks[..i + 1]) == ChunkMeans(chunks[..i]) + [ChunkMean(chunks[i])]
  {
    assert chunks[..i + 1][..i] == chunks[..i];
  }

  /** What calc_rolling_power returns, or the exception it raises. */
  function RollingPower(powers: seq<int>, seconds: seq<int>, window: int): Result<seq<real>, RollingError>
  {
    match Chunks(Zip(seconds, powers))
    case Failure(e) => Failure(e)
    case Success(chunks) => Success(Smoothed(ChunkMeans(chunks), window))
  }

  /** The first loop of calc_rolling_power (lines 24-31). */
  method BucketBySecond(pairs: seq<(int, int)>) returns (r: Result<seq<seq<int>>, RollingError>)
    ensures r == Chunks(pairs)
  {
    var chunks: seq<seq<int>> := [];
    for i := 0 to |pairs|
      invariant Chunks(pairs[..i]) == Success(chunks)
    {
      var (second, power) := pairs[i];
      ChunksStep(pairs, i, chunks);
      ghost var before := chunks;
      if second > LAST_SECOND {
        chunks := chunks + [[]];
        assert chunks[..|chunks| - 1] == before && chunks[|chunks| - 1] + [power] == [power];
      }
      if chunks == [] {
        ChunksFailureStays(pairs, i + 1);
        return Failure(NoOpenChunk);
      }
      chunks := chunks[..|chunks| - 1] + [chunks[|chunks| - 1] + [power]];
      assert second > LAST_SECOND ==> chunks == before + [[power]];
    }
    assert pairs[..|pairs|] == pairs;
    return Success(chunks);
  }

  /** One turn of the second loop, from the loop's own variables. */
  lemma AverageStep(chunks: seq<seq<int>>, i: nat, samples: seq<real>, averages: seq<real>, window: int)
    requires i < |chunks| && forall k :: 0 <= k < |chunks| ==> chunks[k] != []
    requires samples == Retained(ChunkMeans(chunks[..i]), window)
    requires averages == Smoothed(ChunkMeans(chunks[..i]), window)
    ensures Trim(samples + [ChunkMean(chunks[i])], window) == Retained(ChunkMeans(chunks[..i + 1]), window)
    ensures averages + [Mean(Trim(samples + [ChunkMean(chunks[i])], window))] == Smoothed(ChunkMeans(chunks[..i + 1]), window)
  {
    ChunkMeansStep(chunks, i);
    SmoothedStep(ChunkMeans(chunks[..i]), ChunkMean(chunks[i]), window);
  }

  /** The second loop of calc_rolling_power (lines 33-45). */
  method AverageBuckets(chunks: seq<seq<int>>, window: int) returns (averages: seq<real>)
    requires forall k :: 0 <= k < |chunks| ==> chunks[k] != []
    ensures averages == Smoothed(ChunkMeans(chunks), window)
  {
    averages := [];
    var samples: seq<real> := [];
    for i := 0 to |chunks|
      invariant samples == Retained(ChunkMeans(chunks[..i]), window)
      invariant averages == Smoothed(ChunkMeans(chunks[..i]), window)
    {
      var chunk := chunks[i];
      AverageStep(chunks, i, samples, averages, window);
      samples := samples + [ChunkMean(chunk)];
      if |samples| > window {
        samples := SliceFrom(samples, window - 1);
      }
      averages := averages + [Mean(samples)];
    }
    assert chunks[..|chunks|] == chunks;
  }

  /** calc_rolling_power (lines 21-45): bucket, then average. */
  method CalcRollingPower(powers: seq<int>, seconds: seq<int>, window: int) returns (r: Result<seq<real>, RollingError>)
    ensures r == RollingPower(powers, seconds, window)
  {
    var bucketed := BucketBySecond(Zip(seconds, powers));
    if bucketed.Failure? {
      return Failure(bucketed.error);
    }
    var averages := AverageBuckets(bucketed.value, window);
    return Success(averages);
  }

  // ----- What the two loops promise -----

  /** With a window of at least two, at most `window` bucket means are ever averaged (line 42). */
  lemma {:induction false} RetainedWithinWindow(means: seq<real>, window: int)
    requires window >= 2
    ensures |Retained(means, window)| <= window
  {
    if means != [] {
      RetainedWithinWindow(means[..|means| - 1], window);
    }
  }

  /** One turn of the second loop while its list is shorter than the window: the new mean is appended. */
  lemma RetainedGrows(means: seq<real>, window: int)
    requires means != []
    requires |Retained(means[..|means| - 1], window)| < window
    ensures Retained(means, window) == Retained(means[..|means| - 1], window) + [means[|means| - 1]]
  {
  }

  /**
   * One turn of the second loop when its list already holds `window` means:
   * `samples[window-1:]` keeps only the two newest means, not the newest `window`.
   */
  lemma RetainedOverflows(means: seq<real>, window: int)
    requires means != [] && window >= 2
    requires |Retained(means[..|means| - 1], window)| == window
    ensures Retained(means, window) == means[|means| - 2..]
  {
    var init := means[..|means| - 1];
    var prev := Retained(init, window);
    RetainedIsSuffix(init, window);
    TrimFull(prev, means[|means| - 1], window);
    assert prev[window - 1] == means[|means| - 2];
    assert means[|means| - 2..] == [means[|means| - 2], means[|means| - 1]];
  }

  lemma TrimFull(prev: seq<real>, x: real, window: int)
    requires window >= 2 && |prev| == window
    ensures Trim(prev + [x], window) == [prev[window - 1], x]
  {
    assert (prev + [x])[window - 1..] == [prev[window - 1], x];
  }

  /** Until more than `window` buckets have been seen, nothing is dropped. */
  lemma {:induction false} NoTrimWhileShort(means: seq<real>, window: int)
    requires |means| <= window
    ensures Retained(means, window) == means
  {
    if means != [] {
      var init := means[..|means| - 1];
      NoTrimWhileShort(init, window);
      assert init + [means[|means| - 1]] == means;
    }
  }

  /** With a window of one, `samples[0:]` is the whole list: every bucket mean is kept. */
  lemma {:induction false} WindowOneKeepsAll(means: seq<real>)
    ensures Retained(means, 1) == means
  {
    if means != [] {
      var init := means[..|means| - 1];
      WindowOneKeepsAll(init);
      assert init + [means[|means| - 1]] == means;
    }
  }

  /** Output k is the mean of what was retained after bucket k. */
  lemma {:induction false} SmoothedAt(means: seq<real>, window: int, k: nat)
    requires k < |means|
    ensures Retained(means[..k + 1], window) != []
    ensures Smoothed(means, window)[k] == Mean(Retained(means[..k + 1], window))
  {
    if k == |means| - 1 {
      assert means[..k + 1] == means;
    } else {
      var init := means[..|means| - 1];
      SmoothedAt(init, window, k);
      assert init[..k + 1] == means[..k + 1];
    }
  }

  /** Until the window fills, output k is the cumulative mean of the first k+1 bucket means. */
  lemma CumulativeWhileShort(means: seq<real>, window: int, k: nat)
    requires k < |means| && k < window
    ensures Smoothed(means, window)[k] == Mean(means[..k + 1])
  {
    SmoothedAt(means, window, k);
    NoTrimWhileShort(means[..k + 1], window);
  }

  lemma {:induction false} SumBounds(xs: seq<real>, lo: real, hi: real)
    requires forall i :: 0 <= i < |xs| ==> lo <= xs[i] <= hi
    ensures lo * |xs| as real <= Sum(xs) <= hi * |xs| as real
  {
    if xs != [] {
      SumBounds(xs[..|xs| - 1], lo, hi);
    }
  }

  /** A mean lies between the least and the greatest of its terms. */
  lemma MeanWithin(xs: seq<real>, lo: real, hi: real)
    requires |xs| > 0
    requires forall i :: 0 <= i < |xs| ==> lo <= xs[i] <= hi
    ensures lo <= Mean(xs) <= hi
  {
    SumBounds(xs, lo, hi);
    var n := |xs| as real;
    assert Mean(xs) * n == Sum(xs);
  }

  lemma SuffixWithin(xs: seq<real>, n: nat, lo: real, hi: real)
    requires n <= |xs|
    requires forall i :: 0 <= i < |xs| ==> lo <= xs[i] <= hi
    ensures forall i :: 0 <= i < |xs[n..]| ==> lo <= xs[n..][i] <= hi
  {
    assert forall i :: 0 <= i < |xs[n..]| ==> xs[n..][i] == xs[n + i];
  }

  /** Output k lies within the range of the bucket means. */
  lemma SmoothedAtWithin(means: seq<real>, window: int, lo: real, hi: real, k: nat)
    requires k < |means|
    requires forall i :: 0 <= i < |means| ==> lo <= means[i] <= hi
    ensures lo <= Smoothed(means, window)[k] <= hi
  {
    SmoothedAt(means, window, k);
    var seen := means[..k + 1];
    assert forall i :: 0 <= i < |seen| ==> seen[i] == means[i];
    RetainedIsSuffix(seen, window);
    var kept := Retained(seen, window);
    SuffixWithin(seen, |seen| - |kept|, lo, hi);
    MeanWithin(kept, lo, hi);
  }

  /** Smoothing never leaves the range of the bucket means. */
  lemma SmoothedWithin(means: seq<real>, window: int, lo: real, hi: real)
    requires forall i :: 0 <= i < |means| ==> lo <= means[i] <= hi
    ensures forall k :: 0 <= k < |means| ==> lo <= Smoothed(means, window)[k] <= hi
  {
    forall k | 0 <= k < |means|
      ensures lo <= Smoothed(means, window)[k] <= hi
    {
      SmoothedAtWithin(means, window, lo, hi, k);
    }
  }

  lemma {:induction false} ChunkMeansAt(chunks: seq<seq<int>>, k: nat)
    requires k < |chunks| && forall j :: 0 <= j < |chunks| ==> chunks[j] != []
    ensures ChunkMeans(chunks)[k] == ChunkMean(chunks[k])
  {
    if k < |chunks| - 1 {
      ChunkMeansAt(chunks[..|chunks| - 1], k);
    }
  }

  lemma {:induction false} FlattenHas(chunks: seq<seq<int>>, k: nat, j: nat)
    requires k < |chunks| && j < |chunks[k]|
    ensures chunks[k][j] in Flatten(chunks)
  {
    if k < |chunks| - 1 {
      FlattenHas(chunks[..|chunks| - 1], k, j);
    }
  }

  lemma {:induction false} PowersOfZip(seconds: seq<int>, powers: seq<int>, n: nat)
    requires n <= Min(|seconds|, |powers|)
    ensures PowersOf(Zip(seconds, powers)[..n]) == powers[..n]
  {
    if n > 0 {
      PowersOfZip(seconds, powers, n - 1);
      assert Zip(seconds, powers)[..n][..n - 1] == Zip(seconds, powers)[..n - 1];
      assert powers[..n] == powers[..n - 1] + [powers[n - 1]];
    }
  }

  /** Bucket means lie between the least and the greatest bucketed power. */
  lemma ChunkMeansWithin(chunks: seq<seq<int>>, lo: int, hi: int)
    requires forall k :: 0 <= k < |chunks| ==> chunks[k] != []
    requires forall x :: x in Flatten(chunks) ==> lo <= x <= hi
    ensures forall k :: 0 <= k < |chunks| ==> lo as real <= ChunkMeans(chunks)[k] <= hi as real
  {
    forall k | 0 <= k < |chunks|
      ensures lo as real <= ChunkMeans(chunks)[k] <= hi as real
    {
      ChunkMeansAt(chunks, k);
      forall j | 0 <= j < |chunks[k]|
        ensures lo <= chunks[k][j] <= hi
      {
        FlattenHas(chunks, k, j);
      }
      MeanWithin(AsReals(chunks[k]), lo as real, hi as real);
    }
  }

  /** Every output lies between the least and the greatest zipped power. */
  lemma RollingPowerBounds(powers: seq<int>, seconds: seq<int>, window: int, lo: int, hi: int)
    requires forall k :: 0 <= k < |powers| && k < |seconds| ==> lo <= powers[k] <= hi
    ensures RollingPower(powers, seconds, window).Success? ==>
              forall k :: 0 <= k < |RollingPower(powers, seconds, window).value| ==>
                lo as real <= RollingPower(powers, seconds, window).value[k] <= hi as real
  {
    var pairs := Zip(seconds, powers);
    ChunksShape(pairs);
    if Chunks(pairs).Success? {
      var chunks := Chunks(pairs).value;
      var m := Min(|seconds|, |powers|);
      PowersOfZip(seconds, powers, m);
      assert pairs[..m] == pairs;
      assert Flatten(chunks) == powers[..m];
      ChunkMeansWithin(chunks, lo, hi);
      SmoothedWithin(ChunkMeans(chunks), window, lo as real, hi as real);
    }
  }

  /**
   * One output per bucket; no input at all gives no output; the function fails exactly
   * when the first zipped second does not open a bucket (the IndexError at line 31).
   */
  lemma RollingPowerShape(powers: seq<int>, seconds: seq<int>, window: int)
    ensures RollingPower(powers, seconds, window).Failure? <==>
              |seconds| > 0 && |powers| > 0 && seconds[0] <= LAST_SECOND
    ensures RollingPower(powers, seconds, window).Success? ==>
              |RollingPower(powers, seconds, window).value| == Openings(Zip(seconds, powers))
    ensures |seconds| == 0 || |powers| == 0 ==> RollingPower(powers, seconds, window) == Success([])
  {
    ChunksShape(Zip(seconds, powers));
  }

  lemma {:induction false} SinglesMeans(powers: seq<int>)
    ensures ChunkMeans(seq(|powers|, k requires 0 <= k < |powers| => [powers[k]])) == AsReals(powers)
  {
    var singles := seq(|powers|, k requires 0 <= k < |powers| => [powers[k]]);
    forall k | 0 <= k < |powers|
      ensures ChunkMeans(singles)[k] == powers[k] as real
    {
      ChunkMeansAt(singles, k);
      assert AsReals(singles[k]) == [powers[k] as real];
      assert [powers[k] as real][..0] == [];
      assert Sum([powers[k] as real]) == powers[k] as real;
    }
  }

  /**
   * When every zipped second is positive each power is its own bucket, so the result is
   * the smoothing of the zipped powers themselves.
   */
  lemma AllPositiveSeconds(powers: seq<int>, seconds: seq<int>, window: int)
    requires forall k :: 0 <= k < |seconds| && k < |powers| ==> seconds[k] > 0
    ensures RollingPower(powers, seconds, window) ==
              Success(Smoothed(AsReals(powers[..Min(|seconds|, |powers|)]), window))
  {
    var pairs := Zip(seconds, powers);
    var m := Min(|seconds|, |powers|);
    PositiveSecondsSingleBuckets(pairs);
    var ps := powers[..m];
    assert seq(|pairs|, k requires 0 <= k < |pairs| => [pairs[k].1]) ==
           seq(|ps|, k requires 0 <= k < |ps| => [ps[k]]);
    SinglesMeans(ps);
  }

  // ----- Concrete runs -----

  /** Until the window fills, the outputs are the running means. */
  lemma RunningMeansOfThree()
    ensures Smoothed([10.0, 20.0, 30.0], 3) == [10.0, 15.0, 20.0]
  {
    var m := [10.0, 20.0, 30.0];
    assert m[..1] == [10.0] && m[..2] == [10.0, 20.0] && m[..2][..1] == m[..1] && m[..1][..0] == [];
    NoTrimWhileShort(m, 3);
    NoTrimWhileShort(m[..2], 3);
    NoTrimWhileShort(m[..1], 3);
    assert Sum(m[..1]) == 10.0 && Sum(m[..2]) == 30.0 && Sum(m) == 60.0;
  }

  /** Repeated seconds do not share a bucket: only a non-positive second extends the last one. */
  lemma RepeatedSecondsStaySeparate()
    ensures RollingPower([10, 20, 30], [1, 1, 2], 3) == Success([10.0, 15.0, 20.0])
  {
    AllPositiveSeconds([10, 20, 30], [1, 1, 2], 3);
    assert [10, 20, 30][..Min(3, 3)] == [10, 20, 30];
    assert AsReals([10, 20, 30]) == [10.0, 20.0, 30.0];
    RunningMeansOfThree();
  }

  /** A zero second is added to the bucket before it. */
  lemma ZeroSecondJoinsPreviousBucket()
    ensures Chunks(Zip([1, 0, 2], [10, 20, 30])) == Success([[10, 20], [30]])
  {
    var pairs := Zip([1, 0, 2], [10, 20, 30]);
    assert pairs == [(1, 10), (0, 20), (2, 30)];
    assert pairs[..0] == [] && pairs[..3] == pairs;
    ChunksStep(pairs, 0, []);
    assert [] + [[10]] == [[10]];
    ChunksStep(pairs, 1, [[10]]);
    assert [10] + [20] == [10, 20];
    assert [[10]][..0] + [[10] + [20]] == [[10, 20]];
    ChunksStep(pairs, 2, [[10, 20]]);
    assert [[10, 20]] + [[30]] == [[10, 20], [30]];
  }

  lemma TwoBucketMeans()
    ensures ChunkMeans([[10, 20], [30]]) == [15.0, 30.0]
  {
    var chunks: seq<seq<int>> := [[10, 20], [30]];
    assert chunks[..1] == [[10, 20]] && chunks[..1][..0] == [];
    assert AsReals([10, 20]) == [10.0, 20.0] && AsReals([30]) == [30.0];
    assert Sum([10.0, 20.0]) == 30.0 && Sum([30.0]) == 30.0;
  }

  /**
   * With that zero second, the two buckets average to 15 and 30, and the
   * window of three gives the running means 15 and 22.5.
   */
  lemma ZeroSecondAverages()
    ensures RollingPower([10, 20, 30], [1, 0, 2], 3) == Success([15.0, 22.5])
  {
    ZeroSecondJoinsPreviousBucket();
    TwoBucketMeans();
    var m := [15.0, 30.0];
    assert m[..1] == [15.0] && m[..1][..0] == [];
    NoTrimWhileShort(m, 3);
    NoTrimWhileShort(m[..1], 3);
    assert Sum(m[..1]) == 15.0 && Sum(m) == 45.0;
    assert Smoothed(m[..1], 3) == [15.0];
    assert Smoothed(m, 3) == [15.0, 22.5];
  }

  /** With window 3 the fourth bucket leaves only two means behind: `samples[2:]` of four. */
  lemma WindowThreeKeepsTwo()
    ensures Retained([10.0, 20.0, 30.0, 40.0], 3) == [30.0, 40.0]
  {
    var means := [10.0, 20.0, 30.0, 40.0];
    NoTrimWhileShort(means[..3], 3);
    RetainedOverflows(means, 3);
    assert means[2..] == [30.0, 40.0];
  }
}
