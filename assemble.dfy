/**
 * The main block of log_decode.py (lines 54-82): read the log line by
 * line, decode the payload of every qualifying line and append what its
 * message carries to the four lists `seconds`, `forces`, `cadence` and
 * `powers`.
 *
 * The method DecodeLog keeps the source's loop and list appends; the
 * functions Samples and Project say what the loop has read and built after a
 * prefix of the log, and the lemmas state what the lists hold.
 */
module Assemble {
  import opened Wrappers
  import opened Text
  import opened Hex
  import opened LineFilter
  import opened Payload

  /** The four lists of lines 55-58, filled in log order. */
  datatype Series = Series(seconds: seq<nat>, forces: seq<real>, cadence: seq<nat>, powers: seq<int>)

  /**
   * What one log line contributes (lines 65-82): nothing when it is not a
   * notification of the logger handle, otherwise the classified text of its
   * payload, or the error `bytearray.fromhex(...).decode()` raises at line 69.
   */
  function LineSample(line: string): Result<Option<Sample>, DecodeError>
  {
    if !Qualifies(line) then Success(None)
    else
      match DecodeText(GetVal(line))
      case Failure(e) => Failure(e)
      case Success(msg) => Success(Some(Classify(msg)))
  }

  /** What each line of the log contributes, line by line. */
  function Outcomes(lines: seq<string>): (rs: seq<Result<Option<Sample>, DecodeError>>)
    ensures |rs| == |lines| && forall i :: 0 <= i < |lines| ==> rs[i] == LineSample(lines[i])
  {
    seq(|lines|, i requires 0 <= i < |lines| => LineSample(lines[i]))
  }

  /**
   * The samples of a run of line outcomes, in order. The exception of line 69
   * is not caught, so the first line that fails to decode ends the whole run.
   */
  function Collect(rs: seq<Result<Option<Sample>, DecodeError>>): Result<seq<Sample>, DecodeError>
  {
    if rs == [] then Success([])
    else
      match Collect(rs[..|rs| - 1])
      case Failure(e) => Failure(e)
      case Success(ss) =>
        match rs[|rs| - 1]
        case Failure(e) => Failure(e)
        case Success(None) => Success(ss)
        case Success(Some(s)) => Success(ss + [s])
  }

  /** The samples of the log, in order, or the error of the line that stopped it. */
  function Samples(lines: seq<string>): Result<seq<Sample>, DecodeError>
  {
    Collect(Outcomes(lines))
  }

  /** What one sample appends (lines 73-82); poll and unrecognised messages append nothing. */
  function Record(acc: Series, s: Sample): Series
  {
    match s
    case PowerSample(force, cadence, power) =>
      acc.(forces := acc.forces + [force], cadence := acc.cadence + [cadence], powers := acc.powers + [power])
    case TimeSample(elapsed) => acc.(seconds := acc.seconds + [elapsed])
    case PollSample => acc
    case Unrecognized(_) => acc
  }

  /** The four lists after the given samples. */
  function Project(ss: seq<Sample>): Series
  {
    if ss == [] then Series([], [], [], []) else Record(Project(ss[..|ss| - 1]), ss[|ss| - 1])
  }

  /** The four lists after the whole log, or the decode error that stopped it. */
  function Assembled(lines: seq<string>): Result<Series, DecodeError>
  {
    match Samples(lines)
    case Failure(e) => Failure(e)
    case Success(ss) => Success(Project(ss))
  }

  /** The power samples, in order: the rows behind `forces`, `cadence` and `powers`. */
  function PowerRows(ss: seq<Sample>): (rows: seq<Sample>)
    ensures forall k :: 0 <= k < |rows| ==> rows[k].PowerSample?
  {
    if ss == [] then []
    else PowerRows(ss[..|ss| - 1]) + (if ss[|ss| - 1].PowerSample? then [ss[|ss| - 1]] else [])
  }

  /** The time samples, in order: the rows behind `seconds`. */
  function TimeRows(ss: seq<Sample>): (rows: seq<Sample>)
    ensures forall k :: 0 <= k < |rows| ==> rows[k].TimeSample?
  {
    if ss == [] then []
    else TimeRows(ss[..|ss| - 1]) + (if ss[|ss| - 1].TimeSample? then [ss[|ss| - 1]] else [])
  }

  /**
   * The columns are the rows: `forces`, `cadence` and `powers` always have
   * one entry per power message, taken from that message, and `seconds` one
   * per time message.
   */
  lemma {:induction false} ColumnsAreRows(ss: seq<Sample>)
    ensures |Project(ss).forces| == |PowerRows(ss)|
    ensures |Project(ss).cadence| == |PowerRows(ss)|
    ensures |Project(ss).powers| == |PowerRows(ss)|
    ensures |Project(ss).seconds| == |TimeRows(ss)|
    ensures forall k :: 0 <= k < |PowerRows(ss)| ==>
              Project(ss).forces[k] == PowerRows(ss)[k].force &&
              Project(ss).cadence[k] == PowerRows(ss)[k].cadence &&
              Project(ss).powers[k] == PowerRows(ss)[k].power
    ensures forall k :: 0 <= k < |TimeRows(ss)| ==> Project(ss).seconds[k] == TimeRows(ss)[k].elapsed
  {
    if ss != [] {
      ColumnsAreRows(ss[..|ss| - 1]);
    }
  }

  /** The lists are only ever appended to: an earlier state is a prefix of a later one. */
  lemma {:induction false} ProjectGrows(ss: seq<Sample>, j: nat)
    requires j <= |ss|
    ensures Project(ss[..j]).seconds <= Project(ss).seconds
    ensures Project(ss[..j]).forces <= Project(ss).forces
    ensures Project(ss[..j]).cadence <= Project(ss).cadence
    ensures Project(ss[..j]).powers <= Project(ss).powers
    decreases |ss|
  {
    if j < |ss| {
      ProjectGrows(ss[..|ss| - 1], j);
      assert ss[..|ss| - 1][..j] == ss[..j];
    } else {
      assert ss[..j] == ss;
    }
  }

  /** A decode failure is never undone by later lines. */
  lemma {:induction false} CollectFailureStays(rs: seq<Result<Option<Sample>, DecodeError>>, i: nat)
    requires i <= |rs|
    requires Collect(rs[..i]).Failure?
    ensures Collect(rs) == Collect(rs[..i])
    decreases |rs| - i
  {
    if i < |rs| {
      assert rs[..i + 1][..i] == rs[..i];
      CollectFailureStays(rs, i + 1);
    } else {
      assert rs[..i] == rs;
    }
  }

  lemma {:induction false} CollectSucceeds(rs: seq<Result<Option<Sample>, DecodeError>>)
    ensures Collect(rs).Success? <==> forall i :: 0 <= i < |rs| ==> rs[i].Success?
  {
    if rs != [] {
      var init := rs[..|rs| - 1];
      CollectSucceeds(init);
      assert forall i :: 0 <= i < |init| ==> init[i] == rs[i];
    }
  }

  lemma {:induction false} CollectFirstFailure(rs: seq<Result<Option<Sample>, DecodeError>>)
    requires Collect(rs).Failure?
    ensures exists i :: 0 <= i < |rs| && rs[i] == Failure(Collect(rs).error) &&
                        forall j :: 0 <= j < i ==> rs[j].Success?
  {
    var init := rs[..|rs| - 1];
    assert forall i :: 0 <= i < |init| ==> init[i] == rs[i];
    if Collect(init).Failure? {
      CollectFirstFailure(init);
      var i :| 0 <= i < |init| && init[i] == Failure(Collect(init).error) &&
               forall j :: 0 <= j < i ==> init[j].Success?;
      assert rs[i] == Failure(Collect(rs).error);
    } else {
      CollectSucceeds(init);
      assert rs[|rs| - 1] == Failure(Collect(rs).error);
    }
  }

  /**
   * The log is read to the end exactly when every line decodes; otherwise it
   * fails with the error of its first line that does not.
   */
  lemma SamplesFailure(lines: seq<string>)
    ensures Samples(lines).Success? <==> forall i :: 0 <= i < |lines| ==> LineSample(lines[i]).Success?
    ensures Samples(lines).Failure? ==>
              exists i :: 0 <= i < |lines| && LineSample(lines[i]) == Failure(Samples(lines).error) &&
                          forall j :: 0 <= j < i ==> LineSample(lines[j]).Success?
  {
    CollectSucceeds(Outcomes(lines));
    if Samples(lines).Failure? {
      CollectFirstFailure(Outcomes(lines));
    }
  }

  /** A line that is not a notification of the logger handle changes nothing. */
  lemma OtherLinesIgnored(lines: seq<string>, line: string)
    requires !Qualifies(line)
    ensures Assembled(lines + [line]) == Assembled(lines)
  {
    assert Outcomes(lines + [line]) == Outcomes(lines) + [Success(None)];
    assert (Outcomes(lines) + [Success(None)])[..|lines|] == Outcomes(lines);
  }

  /** A run of spaces, the only whitespace the payload class `[a-f 0-9]` admits. */
  predicate Spaces(w: string) { forall i :: 0 <= i < |w| ==> w[i] == ' ' }

  lemma PayloadConcat(a: string, b: string)
    requires AllPayload(a) && AllPayload(b)
    ensures AllPayload(a + b)
  {
    assert forall i :: 0 <= i < |a + b| ==> (a + b)[i] == if i < |a| then a[i] else b[i - |a|];
  }

  /**
   * A lower-case dump with runs of spaces in front and after each byte lies
   * in the payload class, and is non-empty when there are bytes.
   */
  lemma {:induction false} DumpIsPayload(bs: seq<byte>, lead: string, seps: seq<string>)
    requires |seps| == |bs| && Spaces(lead)
    requires forall i :: 0 <= i < |seps| ==> Spaces(seps[i])
    ensures AllPayload(lead + Dump(bs, seps))
    ensures bs != [] ==> lead + Dump(bs, seps) != []
    decreases |bs|
  {
    if bs == [] {
      assert lead + Dump(bs, seps) == lead;
    } else {
      var pair := [HexChar(bs[0] / 16), HexChar(bs[0] % 16)];
      var tail := Dump(bs[1..], seps[1..]);
      assert Dump(bs, seps) == pair + (seps[0] + tail);
      assert AllPayload(pair);
      DumpIsPayload(bs[1..], seps[0], seps[1..]);
      PayloadConcat(pair, seps[0] + tail);
      PayloadConcat(lead, Dump(bs, seps));
    }
  }

  /** The special case of one space after every byte. */
  lemma ToHexIsPayload(bs: seq<byte>)
    ensures AllPayload(ToHex(bs, " "))
    ensures bs != [] ==> ToHex(bs, " ") != []
  {
    ToHexIsDump(bs, " ");
    DumpIsPayload(bs, "", seq(|bs|, _ => " "));
    assert "" + ToHex(bs, " ") == ToHex(bs, " ");
  }

  lemma SpacesAreHexSpace(lead: string, seps: seq<string>)
    requires Spaces(lead) && forall i :: 0 <= i < |seps| ==> Spaces(seps[i])
    ensures AllHexSpace(lead) && forall i :: 0 <= i < |seps| ==> AllHexSpace(seps[i])
  {
  }

  lemma AsciiConcat(a: string, b: string)
    requires IsAscii(a) && IsAscii(b)
    ensures IsAscii(a + b)
  {
    assert forall i :: 0 <= i < |a + b| ==> (a + b)[i] == if i < |a| then a[i] else b[i - |a|];
  }

  lemma DigitsAscii(n: nat)
    ensures IsAscii(NatToDigits(n))
  {
  }

  lemma FormatPowerAscii(force: Reading, speed: Reading, cadence: nat, power: int)
    ensures IsAscii(FormatPower(force, speed, cadence, power))
  {
    DigitsAscii(force.whole);
    DigitsAscii(speed.whole);
    DigitsAscii(cadence);
    DigitsAscii(if power < 0 then -power else power);
    var p := SignedDigits(power);
    if power < 0 {
      AsciiConcat("-", NatToDigits(-power));
    }
    AsciiConcat("=", p);
    AsciiConcat(NatToDigits(cadence), "=" + p);
    var q := NatToDigits(cadence) + ("=" + p);
    AsciiConcat("|", q);
    AsciiConcat(".", [DigitChar(speed.tenth)]);
    AsciiConcat(NatToDigits(speed.whole), "." + [DigitChar(speed.tenth)]);
    AsciiConcat(OneDecimal(speed), "|" + q);
    AsciiConcat(" ", OneDecimal(speed) + ("|" + q));
    AsciiConcat(".", [DigitChar(force.tenth)]);
    AsciiConcat(NatToDigits(force.whole), "." + [DigitChar(force.tenth)]);
    AsciiConcat(OneDecimal(force), " " + (OneDecimal(speed) + ("|" + q)));
  }

  lemma ContainsExtends(pre: string, needle: string, post: string)
    requires exists i :: 0 <= i <= |pre| && OccursAt(pre, needle, i)
    ensures exists i :: 0 <= i <= |pre + post| && OccursAt(pre + post, needle, i)
  {
    var i :| 0 <= i <= |pre| && OccursAt(pre, needle, i);
    assert (pre + post)[i..i + |needle|] == pre[i..i + |needle|];
    assert OccursAt(pre + post, needle, i);
  }

  /** Text after a qualifying prefix does not stop the line from qualifying. */
  lemma QualifiesExtends(pre: string, post: string)
    requires Qualifies(pre)
    ensures Qualifies(pre + post)
  {
    ContainsExtends(pre, NOTIFIED, post);
    ContainsExtends(pre, HANDLE, post);
  }

  /** A log line that carries `payload` in angle brackets, with `pre` before and `post` after. */
  function NotifyLine(pre: string, payload: string, post: string): string
  {
    pre + "<" + payload + ">" + post
  }

  /**
   * A notification line of the logger handle with a payload in `<...>`, no
   * `<` before it: the payload is decoded, and the line yields its
   * classification or the decode error.
   */
  lemma PayloadLine(pre: string, payload: string, post: string)
    requires Qualifies(pre)
    requires forall i :: 0 <= i < |pre| ==> pre[i] != '<'
    requires payload != [] && AllPayload(payload)
    ensures LineSample(NotifyLine(pre, payload, post)) ==
              match DecodeText(payload)
              case Failure(e) => Failure(e)
              case Success(msg) => Success(Some(Classify(msg)))
  {
    var line := NotifyLine(pre, payload, post);
    assert line == pre + ("<" + payload + ">" + post);
    QualifiesExtends(pre, "<" + payload + ">" + post);
    GetValFinds(pre, payload, post);
  }

  /**
   * A notification line of the logger handle whose payload is a hex dump of
   * an ASCII message, spaces laid out anyhow between the pairs, yields the
   * classification of that message.
   */
  lemma HexLineSample(pre: string, post: string, msg: string, lead: string, seps: seq<string>)
    requires Qualifies(pre)
    requires forall i :: 0 <= i < |pre| ==> pre[i] != '<'
    requires IsAscii(msg) && msg != []
    requires |seps| == |msg| && Spaces(lead) && forall i :: 0 <= i < |seps| ==> Spaces(seps[i])
    ensures LineSample(NotifyLine(pre, lead + Dump(AsciiEncode(msg), seps), post)) == Success(Some(Classify(msg)))
  {
    var payload := lead + Dump(AsciiEncode(msg), seps);
    DumpIsPayload(AsciiEncode(msg), lead, seps);
    SpacesAreHexSpace(lead, seps);
    DecodeTextDump(msg, lead, seps);
    PayloadLine(pre, payload, post);
  }

  /**
   * A payload whose digit pair is split by a space, such as `3 32e`, passes
   * the line filter but makes line 69 raise, ending the run.
   */
  lemma SplitPairLine(pre: string, post: string)
    requires Qualifies(pre)
    requires forall i :: 0 <= i < |pre| ==> pre[i] != '<'
    ensures LineSample(NotifyLine(pre, "3 32e", post)) == Failure(InvalidHex)
  {
    var payload := "3 32e";
    assert AllPayload(payload);
    SplitPairExample();
    PayloadLine(pre, payload, post);
  }

  /**
   * End to end: a notification line of the logger handle whose payload is a
   * force message of the firmware, written out in hex, yields that message's
   * power sample.
   */
  lemma LineRoundTrip(pre: string, post: string, force: Reading, speed: Reading, cadence: nat, power: int,
                      lead: string, seps: seq<string>)
    requires Qualifies(pre)
    requires forall i :: 0 <= i < |pre| ==> pre[i] != '<'
    requires |seps| == |FormatPower(force, speed, cadence, power)|
    requires Spaces(lead) && forall i :: 0 <= i < |seps| ==> Spaces(seps[i])
    ensures IsAscii(FormatPower(force, speed, cadence, power))
    ensures LineSample(NotifyLine(pre, lead + Dump(AsciiEncode(FormatPower(force, speed, cadence, power)), seps), post))
            == Success(Some(PowerSample(force.Value(), cadence, power)))
  {
    var msg := FormatPower(force, speed, cadence, power);
    FormatPowerAscii(force, speed, cadence, power);
    HexLineSample(pre, post, msg, lead, seps);
    PowerMessageRoundTrip(force, speed, cadence, power);
  }

  lemma FormatTimeAscii(seconds: nat, polls: nat)
    ensures IsAscii(FormatTime(seconds, polls))
  {
    DigitsAscii(seconds);
    DigitsAscii(polls);
    AsciiConcat(NatToDigits(polls), " polls");
    AsciiConcat(": ", NatToDigits(polls) + " polls");
    AsciiConcat(NatToDigits(seconds), ": " + (NatToDigits(polls) + " polls"));
  }

  /** End to end for a time message: the line yields its elapsed seconds. */
  lemma TimeLineRoundTrip(pre: string, post: string, seconds: nat, polls: nat, lead: string, seps: seq<string>)
    requires Qualifies(pre)
    requires forall i :: 0 <= i < |pre| ==> pre[i] != '<'
    requires |seps| == |FormatTime(seconds, polls)|
    requires Spaces(lead) && forall i :: 0 <= i < |seps| ==> Spaces(seps[i])
    ensures IsAscii(FormatTime(seconds, polls))
    ensures LineSample(NotifyLine(pre, lead + Dump(AsciiEncode(FormatTime(seconds, polls)), seps), post))
            == Success(Some(TimeSample(seconds)))
  {
    var msg := FormatTime(seconds, polls);
    FormatTimeAscii(seconds, polls);
    HexLineSample(pre, post, msg, lead, seps);
    TimeMessageRoundTrip(seconds, polls);
  }

  /** One more outcome after a successful prefix of the run. */
  lemma CollectStep(rs: seq<Result<Option<Sample>, DecodeError>>, i: nat, ss: seq<Sample>)
    requires i < |rs| && Collect(rs[..i]) == Success(ss)
    ensures rs[i].Failure? ==> Collect(rs) == Failure(rs[i].error)
    ensures rs[i] == Success(None) ==> Collect(rs[..i + 1]) == Success(ss)
    ensures rs[i].Success? && rs[i].value.Some? ==> Collect(rs[..i + 1]) == Success(ss + [rs[i].value.value])
  {
    var ts := rs[..i + 1];
    assert ts[..|ts| - 1] == rs[..i] && ts[|ts| - 1] == rs[i];
    if rs[i].Failure? {
      CollectFailureStays(rs, i + 1);
    }
  }

  lemma OutcomesPrefix(lines: seq<string>, n: nat)
    requires n <= |lines|
    ensures Outcomes(lines)[..n] == Outcomes(lines[..n])
  {
  }

  /** One turn of the main loop, in terms of the line's outcome. */
  lemma SamplesStep(lines: seq<string>, i: nat, ss: seq<Sample>)
    requires i < |lines| && Samples(lines[..i]) == Success(ss)
    ensures LineSample(lines[i]).Failure? ==> Samples(lines) == Failure(LineSample(lines[i]).error)
    ensures LineSample(lines[i]) == Success(None) ==> Samples(lines[..i + 1]) == Success(ss)
    ensures LineSample(lines[i]).Success? && LineSample(lines[i]).value.Some? ==>
              Samples(lines[..i + 1]) == Success(ss + [LineSample(lines[i]).value.value])
  {
    var rs := Outcomes(lines);
    OutcomesPrefix(lines, i);
    OutcomesPrefix(lines, i + 1);
    CollectStep(rs, i, ss);
  }

  /** One turn of the main loop, in terms of the line's own tests and decode. */
  lemma DecodeStep(lines: seq<string>, i: nat, ss: seq<Sample>)
    requires i < |lines| && Samples(lines[..i]) == Success(ss)
    ensures !Qualifies(lines[i]) ==> Samples(lines[..i + 1]) == Success(ss)
    ensures Qualifies(lines[i]) && DecodeText(GetVal(lines[i])).Failure? ==>
              Samples(lines) == Failure(DecodeText(GetVal(lines[i])).error)
    ensures Qualifies(lines[i]) && DecodeText(GetVal(lines[i])).Success? ==>
              Samples(lines[..i + 1]) == Success(ss + [Classify(DecodeText(GetVal(lines[i])).value)])
  {
    SamplesStep(lines, i, ss);
  }

  lemma ProjectStep(ss: seq<Sample>, s: Sample)
    ensures Project(ss + [s]) == Record(Project(ss), s)
  {
    assert (ss + [s])[..|ss|] == ss;
  }

  /** The main loop of lines 64-82. */
  method DecodeLog(lines: seq<string>) returns (r: Result<Series, DecodeError>)
    ensures r == Assembled(lines)
  {
    var seconds: seq<nat> := [];
    var forces: seq<real> := [];
    var cadence: seq<nat> := [];
    var powers: seq<int> := [];
    ghost var ss: seq<Sample> := [];
    for i := 0 to |lines|
      invariant Samples(lines[..i]) == Success(ss)
      invariant Series(seconds, forces, cadence, powers) == Project(ss)
    {
      var line := lines[i];
      DecodeStep(lines, i, ss);
      if Contains(line, NOTIFIED) && Contains(line, HANDLE) {
        var decoded := DecodeText(GetVal(line));
        if decoded.Failure? {
          return Failure(decoded.error);
        }
        var sample := Classify(decoded.value);
        ProjectStep(ss, sample);
        match sample {
          case PowerSample(force, cad, power) =>
            forces := forces + [force];
            cadence := cadence + [cad];
            powers := powers + [power];
          case TimeSample(elapsed) =>
            seconds := seconds + [elapsed];
          case PollSample =>
          case Unrecognized(_) =>
        }
        ss := ss + [sample];
      }
    }
    assert lines[..|lines|] == lines;
    return Success(Series(seconds, forces, cadence, powers));
  }
}
