/**
 * The end of the main block of log_decode.py (lines 94-106): cut the lists
 * to a common length and smooth the powers over 3, 10 and 60 buckets. The
 * plotting itself is not modelled; Report holds the series it is given.
 */
module Pipeline {
  import opened Wrappers
  import opened Hex
  import opened Rolling
  import opened Assemble

  /** Python's `xs[:n]` for a non-negative `n`: the first `n` items, or all of them. */
  function Prefix<T>(xs: seq<T>, n: nat): (r: seq<T>)
    ensures |r| == Min(|xs|, n) && r <= xs
  {
    if n <= |xs| then xs[..n] else xs
  }

  /**
   * Lines 95-106: every list cut to `new_length = min(len(seconds), len(powers))`.
   * The cut leaves `seconds` and `powers` the same length and keeps the oldest
   * entries; `forces` and `cadence` are as long as `powers` whenever they were
   * before.
   */
  function Truncated(s: Series): (t: Series)
    ensures |t.seconds| == Min(|s.seconds|, |s.powers|) && |t.powers| == Min(|s.seconds|, |s.powers|)
    ensures t.seconds <= s.seconds && t.forces <= s.forces && t.cadence <= s.cadence && t.powers <= s.powers
    ensures |s.forces| == |s.powers| && |s.cadence| == |s.powers| ==>
              |t.forces| == |t.powers| && |t.cadence| == |t.powers|
  {
    var n := Min(|s.seconds|, |s.powers|);
    Series(Prefix(s.seconds, n), Prefix(s.forces, n), Prefix(s.cadence, n), Prefix(s.powers, n))
  }

  /** The series the main block plots against `seconds[:new_length]`. */
  datatype Report = Report(
    seconds: seq<nat>,
    threeSecond: seq<real>,
    tenSecond: seq<real>,
    minute: seq<real>,
    cadence: seq<nat>,
    forces: seq<real>)

  /** The two exceptions that end a run: a payload that does not decode, or no first bucket. */
  datatype RunError = Undecodable(decode: DecodeError) | NoFirstBucket(rolling: RollingError)

  /** What the main block computes from the lines of the log. */
  function Analyse(lines: seq<string>): Result<Report, RunError>
  {
    match Assembled(lines)
    case Failure(e) => Failure(Undecodable(e))
    case Success(series) =>
      var t := Truncated(series);
      match RollingPower(t.powers, t.seconds, 3)
      case Failure(e) => Failure(NoFirstBucket(e))
      case Success(three) =>
        match RollingPower(t.powers, t.seconds, 10)
        case Failure(e) => Failure(NoFirstBucket(e))
        case Success(ten) =>
          match RollingPower(t.powers, t.seconds, 60)
          case Failure(e) => Failure(NoFirstBucket(e))
          case Success(minute) => Success(Report(t.seconds, three, ten, minute, t.cadence, t.forces))
  }

  /**
   * A run fails on the first line that does not decode, or, when the log
   * decodes, exactly when the first kept second does not open a bucket.
   * After a successful run the plotted x values, cadence and force series
   * all have `new_length` entries, the three smoothed series have one entry
   * per bucket, and they line up with the x values exactly when every kept
   * second is positive.
   */
  lemma AnalyseShape(lines: seq<string>)
    ensures Assembled(lines).Failure? ==> Analyse(lines) == Failure(Undecodable(Assembled(lines).error))
    ensures Assembled(lines).Success? ==>
              var t := Truncated(Assembled(lines).value);
              (Analyse(lines).Failure? <==> |t.seconds| > 0 && t.seconds[0] <= LAST_SECOND)
    ensures Analyse(lines).Success? ==>
              var r := Analyse(lines).value;
              |r.cadence| == |r.seconds| && |r.forces| == |r.seconds| &&
              |r.threeSecond| == |r.tenSecond| == |r.minute| <= |r.seconds| &&
              (|r.threeSecond| == |r.seconds| <==> forall k :: 0 <= k < |r.seconds| ==> r.seconds[k] > 0)
  {
    if Assembled(lines).Success? {
      var series := Assembled(lines).value;
      var ss := Samples(lines).value;
      ColumnsAreRows(ss);
      var t := Truncated(series);
      RollingPowerShape(t.powers, t.seconds, 3);
      RollingPowerShape(t.powers, t.seconds, 10);
      RollingPowerShape(t.powers, t.seconds, 60);
      var pairs := Zip(t.seconds, t.powers);
      OpeningsCount(pairs);
      assert forall k :: 0 <= k < |pairs| ==> pairs[k].0 == t.seconds[k];
    }
  }

  /** Lines 54-99: decode the log, cut the lists, smooth the powers three times. */
  method Run(lines: seq<string>) returns (r: Result<Report, RunError>)
    ensures r == Analyse(lines)
  {
    var decoded := DecodeLog(lines);
    if decoded.Failure? {
      return Failure(Undecodable(decoded.error));
    }
    var series := decoded.value;
    var newLength := Min(|series.seconds|, |series.powers|);
    var seconds := Prefix(series.seconds, newLength);
    var powers := Prefix(series.powers, newLength);
    var threeSec := CalcRollingPower(powers, seconds, 3);
    if threeSec.Failure? {
      return Failure(NoFirstBucket(threeSec.error));
    }
    var tenSec := CalcRollingPower(powers, seconds, 10);
    if tenSec.Failure? {
      return Failure(NoFirstBucket(tenSec.error));
    }
    var minute := CalcRollingPower(powers, seconds, 60);
    if minute.Failure? {
      return Failure(NoFirstBucket(minute.error));
    }
    var cadence := Prefix(series.cadence, newLength);
    var forces := Prefix(series.forces, newLength);
    return Success(Report(seconds, threeSec.value, tenSec.value, minute.value, cadence, forces));
  }
}
