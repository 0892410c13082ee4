/**
 * Classification of a decoded payload text (log_decode.py lines 61-63 and
 * 70-82). The three regular expressions are hand-written matchers built from
 * greedy token parsers; each returns the tagged sample it recognises.
 *
 * A token parser takes the text and returns the token's value and the rest
 * of the text. Greedy `[0-9]+` never needs to give characters back in these
 * patterns, because what follows each run ('.', '=', '|', ':', or the end of
 * the pattern) is never a digit; so matching is deterministic.
 */
module Payload {
  import opened Wrappers
  import opened Text

  datatype Sample =
    | PowerSample(force: real, cadence: nat, power: int)
    | TimeSample(elapsed: nat)
    | PollSample
    | Unrecognized(text: string)

  predicate ProperSuffix(rest: string, s: string) {
    |rest| < |s| && s[|s| - |rest|..] == rest
  }

  /** `[0-9]+`, taken greedily, with int() of the digits. */
  function Number(s: string): Option<(nat, string)>
  {
    var k := DigitRun(s);
    if k == 0 then None else Some((DigitsValue(s[..k]), s[k..]))
  }

  /**
   * Number matches exactly when the text starts with a digit; it consumes
   * the whole leading run of digits and reads it as a decimal number.
   */
  lemma NumberIsGreedy(s: string)
    ensures Number(s).None? <==> s == [] || !IsDigit(s[0])
    ensures Number(s).Some? ==>
              var (n, rest) := Number(s).value;
              ProperSuffix(rest, s) && (rest == [] || !IsDigit(rest[0])) &&
              AllDigits(s[..|s| - |rest|]) && n == DigitsValue(s[..|s| - |rest|])
  {
    var k := DigitRun(s);
    assert |s| - |s[k..]| == k;
  }

  /** `[0-9]+\.[0-9]`, with float() of the text matched. */
  function Decimal(s: string): (r: Option<(real, string)>)
  {
    match Number(s)
    case None => None
    case Some((whole, rest)) =>
      if |rest| >= 2 && rest[0] == '.' && IsDigit(rest[1]) then
        Some((whole as real + DigitValue(rest[1]) as real / 10.0, rest[2..]))
      else
        None
  }

  /** `-?[0-9]+`, with int() of the text matched. */
  function Signed(s: string): (r: Option<(int, string)>)
  {
    if |s| > 0 && s[0] == '-' then
      match Number(s[1..])
      case None => None
      case Some((n, rest)) => Some((-(n as int), rest))
    else
      match Number(s)
      case None => None
      case Some((n, rest)) => Some((n, rest))
  }

  /** `force_line` anchored at the start of `s`: `([0-9]+\.[0-9])\s[0-9]+\.[0-9]\|([0-9]+)=(-?[0-9]+)`. */
  function MatchForce(s: string): (r: Option<Sample>)
    ensures r.Some? ==> r.value.PowerSample?
  {
    match Decimal(s)
    case None => None
    case Some((force, rest)) =>
      match SpeedAndRest(rest)
      case None => None
      case Some((cadence, power)) => Some(PowerSample(force, cadence, power))
  }

  /** `\s[0-9]+\.[0-9]` (the speed, not kept) then `\|([0-9]+)=(-?[0-9]+)`. */
  function SpeedAndRest(s: string): Option<(nat, int)>
  {
    if s == [] || !IsRegexSpace(s[0]) then None
    else
      match Decimal(s[1..])
      case None => None
      case Some((_, rest)) => CadenceAndPower(rest)
  }

  /** `\|([0-9]+)=(-?[0-9]+)`: cadence and power. */
  function CadenceAndPower(s: string): Option<(nat, int)>
  {
    if s == [] || s[0] != '|' then None
    else
      match Number(s[1..])
      case None => None
      case Some((cadence, rest)) =>
        if rest == [] || rest[0] != '=' then None
        else
          match Signed(rest[1..])
          case None => None
          case Some((power, _)) => Some((cadence, power))
  }

  /** The force pattern cannot match a text without a '.'. */
  lemma ForceNeedsDot(s: string)
    requires MatchForce(s).Some?
    ensures '.' in s
  {
    NumberIsGreedy(s);
    var (_, rest) := Number(s).value;
    assert s[|s| - |rest|] == rest[0] == '.';
  }

  /** `time_line` anchored at the start of `s`: `([0-9]+):\s([0-9]+)`. */
  function MatchTime(s: string): (r: Option<Sample>)
    ensures r.Some? ==> r.value.TimeSample? && ':' in s
  {
    match Number(s)
    case None => None
    case Some((seconds, rest)) =>
      if |rest| >= 2 && rest[0] == ':' && IsRegexSpace(rest[1]) && Number(rest[2..]).Some? then
        NumberIsGreedy(s);
        assert s[|s| - |rest|] == ':';
        Some(TimeSample(seconds))
      else
        None
  }

  /** `poll_line`, `^F`: without MULTILINE, `^` matches only at the start of the text. */
  predicate IsPoll(msg: string) { |msg| > 0 && msg[0] == 'F' }

  ghost predicate HasForce(msg: string) { exists k :: 0 <= k <= |msg| && MatchForce(msg[k..]).Some? }

  ghost predicate HasTime(msg: string) { exists k :: 0 <= k <= |msg| && MatchTime(msg[k..]).Some? }

  /**
   * The if/elif chain of lines 73-82: the force pattern wins over the time
   * pattern, which wins over the poll pattern; anything else is reported
   * (the warning text is the message itself) and dropped. A sample carries
   * the values of the LEFTMOST match of its pattern, as `re.search` returns.
   */
  function Classify(msg: string): (r: Sample)
    ensures r.PowerSample? <==> HasForce(msg)
    ensures r.TimeSample? <==> !HasForce(msg) && HasTime(msg)
    ensures r.PollSample? <==> !HasForce(msg) && !HasTime(msg) && IsPoll(msg)
    ensures r.Unrecognized? <==> !HasForce(msg) && !HasTime(msg) && !IsPoll(msg)
    ensures r.Unrecognized? ==> r.text == msg
    ensures r.PowerSample? ==>
              exists k :: 0 <= k <= |msg| && MatchForce(msg[k..]) == Some(r) &&
                          forall j :: 0 <= j < k ==> MatchForce(msg[j..]).None?
    ensures r.TimeSample? ==>
              exists k :: 0 <= k <= |msg| && MatchTime(msg[k..]) == Some(r) &&
                          forall j :: 0 <= j < k ==> MatchTime(msg[j..]).None?
  {
    match FirstMatch(msg, MatchForce)
    case Some(power) => power
    case None =>
      match FirstMatch(msg, MatchTime)
      case Some(time) => time
      case None => if IsPoll(msg) then PollSample else Unrecognized(msg)
  }

  type Digit = d: nat | d < 10

  /** A non-negative reading with one decimal, `whole + tenth / 10`. */
  datatype Reading = Reading(whole: nat, tenth: Digit) {
    function Value(): real { whole as real + tenth as real / 10.0 }
  }

  // The two messages the firmware publishes, in its printf formats
  // "%.1f %.1f|%d=%d" (force, speed, cadence, power) and "%d: %d polls".

  /** "%.1f" of the non-negative value `whole + tenth / 10`. */
  function OneDecimal(r: Reading): string
  {
    NatToDigits(r.whole) + ("." + [DigitChar(r.tenth)])
  }

  /** "%d" of an integer. */
  function SignedDigits(n: int): string
  {
    if n < 0 then "-" + NatToDigits(-n) else NatToDigits(n)
  }

  function FormatPower(force: Reading, speed: Reading, cadence: nat, power: int): string
  {
    OneDecimal(force) + (" " + (OneDecimal(speed) + ("|" + (NatToDigits(cadence) + ("=" + SignedDigits(power))))))
  }

  function FormatTime(seconds: nat, polls: nat): string
  {
    NatToDigits(seconds) + (": " + (NatToDigits(polls) + " polls"))
  }

  /** A run of digits followed by a non-digit (or the end) is one `[0-9]+` token. */
  lemma NumberOfRun(ds: string, rest: string)
    requires ds != [] && AllDigits(ds)
    requires rest == [] || !IsDigit(rest[0])
    ensures Number(ds + rest) == Some((DigitsValue(ds), rest))
  {
    DigitRunOf(ds, rest);
    assert (ds + rest)[..|ds|] == ds && (ds + rest)[|ds|..] == rest;
  }

  lemma NumberOf(n: nat, rest: string)
    requires rest == [] || !IsDigit(rest[0])
    ensures Number(NatToDigits(n) + rest) == Some((n, rest))
  {
    NumberOfRun(NatToDigits(n), rest);
  }

  /** float() of the digits `ds`, a '.' and the digit `d`. */
  function DecimalValue(ds: string, d: char): real
    requires AllDigits(ds) && IsDigit(d)
  {
    DigitsValue(ds) as real + DigitValue(d) as real / 10.0
  }

  /** int() of the digits `ds`, with a '-' in front when `negative`. */
  function SignedValue(negative: bool, ds: string): int
    requires AllDigits(ds)
  {
    if negative then -(DigitsValue(ds) as int) else DigitsValue(ds)
  }

  /** Digits, a '.', one digit: one `[0-9]+\.[0-9]` token, whatever follows. */
  lemma DecimalStep(ds: string, d: char, rest: string)
    requires ds != [] && AllDigits(ds) && IsDigit(d)
    ensures Decimal(ds + (['.', d] + rest)) == Some((DecimalValue(ds, d), rest))
  {
    NumberOfRun(ds, ['.', d] + rest);
    assert (['.', d] + rest)[2..] == rest;
  }

  lemma DecimalOf(x: Reading, rest: string)
    ensures Decimal(OneDecimal(x) + rest) == Some((x.Value(), rest))
  {
    var d := DigitChar(x.tenth);
    DecimalStep(NatToDigits(x.whole), d, rest);
    assert OneDecimal(x) + rest == NatToDigits(x.whole) + (['.', d] + rest);
  }

  lemma SignedNegativeStep(q: string, m: nat, rest: string)
    requires Number(q) == Some((m, rest))
    ensures Signed("-" + q) == Some((-(m as int), rest))
  {
    assert ("-" + q)[1..] == q;
  }

  lemma SignedPositiveStep(q: string, m: nat, rest: string)
    requires q != [] && IsDigit(q[0])
    requires Number(q) == Some((m, rest))
    ensures Signed(q) == Some((m as int, rest))
  {
  }

  lemma SignedOf(n: int, rest: string)
    requires rest == [] || !IsDigit(rest[0])
    ensures Signed(SignedDigits(n) + rest) == Some((n, rest))
  {
    if n < 0 {
      var m: nat := -n;
      NumberOf(m, rest);
      assert SignedDigits(n) + rest == "-" + (NatToDigits(m) + rest);
      SignedNegativeStep(NatToDigits(m) + rest, m, rest);
    } else {
      var q := NatToDigits(n) + rest;
      NumberOf(n, rest);
      assert q[0] == NatToDigits(n)[0];
      SignedPositiveStep(q, n, rest);
    }
  }

  lemma CadenceAndPowerStep(q: string, cadence: nat, p4: string, power: int, rest: string)
    requires Number(q) == Some((cadence, "=" + p4))
    requires Signed(p4) == Some((power, rest))
    ensures CadenceAndPower("|" + q) == Some((cadence, power))
  {
    assert ("|" + q)[1..] == q;
    assert ("=" + p4)[1..] == p4;
  }

  lemma CadenceAndPowerOf(cadence: nat, power: int)
    ensures CadenceAndPower("|" + (NatToDigits(cadence) + ("=" + SignedDigits(power)))) == Some((cadence, power))
  {
    var p4 := SignedDigits(power);
    NumberOf(cadence, "=" + p4);
    SignedOf(power, []);
    assert p4 + [] == p4;
    CadenceAndPowerStep(NatToDigits(cadence) + ("=" + p4), cadence, p4, power, []);
  }

  lemma SpeedAndRestStep(w: char, q: string, speed: real, rest: string)
    requires IsRegexSpace(w)
    requires Decimal(q) == Some((speed, rest))
    ensures SpeedAndRest([w] + q) == CadenceAndPower(rest)
  {
    assert ([w] + q)[1..] == q;
  }

  lemma SpeedAndRestOf(speed: Reading, rest: string, cadence: nat, power: int)
    requires CadenceAndPower(rest) == Some((cadence, power))
    ensures SpeedAndRest(" " + (OneDecimal(speed) + rest)) == Some((cadence, power))
  {
    DecimalOf(speed, rest);
    SpeedAndRestStep(' ', OneDecimal(speed) + rest, speed.Value(), rest);
  }

  lemma MatchForceStep(q: string, force: real, rest: string, cadence: nat, power: int)
    requires Decimal(q) == Some((force, rest))
    requires SpeedAndRest(rest) == Some((cadence, power))
    ensures MatchForce(q) == Some(PowerSample(force, cadence, power))
  {
  }

  lemma MatchForceOf(force: Reading, speed: Reading, cadence: nat, power: int)
    ensures MatchForce(FormatPower(force, speed, cadence, power)) == Some(PowerSample(force.Value(), cadence, power))
  {
    var p3 := "|" + (NatToDigits(cadence) + ("=" + SignedDigits(power)));
    CadenceAndPowerOf(cadence, power);
    SpeedAndRestOf(speed, p3, cadence, power);
    var p2 := " " + (OneDecimal(speed) + p3);
    DecimalOf(force, p2);
    MatchForceStep(OneDecimal(force) + p2, force.Value(), p2, cadence, power);
  }

  /** A force/cadence/power message reads back as the sample it was written from. */
  lemma PowerMessageRoundTrip(force: Reading, speed: Reading, cadence: nat, power: int)
    ensures Classify(FormatPower(force, speed, cadence, power)) == PowerSample(force.Value(), cadence, power)
  {
    var msg := FormatPower(force, speed, cadence, power);
    MatchForceOf(force, speed, cadence, power);
    assert msg[0..] == msg;
  }

  lemma MatchTimeOf(seconds: nat, polls: nat)
    ensures MatchTime(FormatTime(seconds, polls)) == Some(TimeSample(seconds))
  {
    var t := TimeFields(NatToDigits(seconds), ' ');
    var tail := NatToDigits(polls) + " polls";
    assert FormatTime(seconds, polls) == t.Text() + tail;
    MatchTimeComplete(t, tail);
  }

  lemma NoDotInTime(seconds: nat, polls: nat)
    ensures '.' !in FormatTime(seconds, polls)
  {
    var a, b := NatToDigits(seconds), NatToDigits(polls);
    assert '.' !in a && '.' !in b;
    assert FormatTime(seconds, polls) == a + ": " + b + " polls";
  }

  /** A time message reads back as its elapsed seconds; the poll count is dropped. */
  lemma TimeMessageRoundTrip(seconds: nat, polls: nat)
    ensures Classify(FormatTime(seconds, polls)) == TimeSample(seconds)
  {
    var msg := FormatTime(seconds, polls);
    MatchTimeOf(seconds, polls);
    assert msg[0..] == msg;
    NoDotInTime(seconds, polls);
    forall k | 0 <= k <= |msg| ensures MatchForce(msg[k..]).None? {
      assert '.' !in msg[k..];
      if MatchForce(msg[k..]).Some? { ForceNeedsDot(msg[k..]); }
    }
  }

  // ----- The patterns as grammars -----
  //
  // The round trips above read back what the firmware prints. The lemmas
  // below say, for ANY text, which texts the two anchored patterns match and
  // which values the groups then carry: a match is complete (every text of
  // the shape matches, with the values of its fields) and sound (every match
  // has that shape).

  /** The optional '-' of `-?[0-9]+`. */
  function Sign(negative: bool): string { if negative then "-" else "" }

  /**
   * The pieces of a text matched by `([0-9]+\.[0-9])\s[0-9]+\.[0-9]\|([0-9]+)=(-?[0-9]+)`:
   * force digits and tenth, the `\s` character, speed digits and tenth,
   * cadence digits, the sign and the power digits.
   */
  datatype ForceFields = ForceFields(whole: string, tenth: char, space: char, speed: string, speedTenth: char,
                                     cadence: string, negative: bool, power: string)
  {
    predicate Valid() {
      whole != [] && AllDigits(whole) && IsDigit(tenth) && IsRegexSpace(space) &&
      speed != [] && AllDigits(speed) && IsDigit(speedTenth) &&
      cadence != [] && AllDigits(cadence) && power != [] && AllDigits(power)
    }

    /** The text of the whole match (group 0). */
    function Text(): string {
      whole + (['.', tenth] + ([space] + (speed + (['.', speedTenth] + (['|'] + (cadence + (['='] + (Sign(negative) + power))))))))
    }

    /** Groups 1, 2 and 3 read by float() and int(). */
    function Value(): Sample
      requires Valid()
    {
      PowerSample(DecimalValue(whole, tenth), DigitsValue(cadence), SignedValue(negative, power))
    }
  }

  /** The pieces of a text matched by `([0-9]+):\s` in front of the first digit of group 2. */
  datatype TimeFields = TimeFields(seconds: string, space: char)
  {
    predicate Valid() { seconds != [] && AllDigits(seconds) && IsRegexSpace(space) }

    function Text(): string { seconds + [':', space] }

    function Value(): Sample
      requires Valid()
    {
      TimeSample(DigitsValue(seconds))
    }
  }

  lemma SignedStep(negative: bool, ds: string, rest: string)
    requires ds != [] && AllDigits(ds)
    requires rest == [] || !IsDigit(rest[0])
    ensures Signed(Sign(negative) + (ds + rest)) == Some((SignedValue(negative, ds), rest))
  {
    NumberOfRun(ds, rest);
    if negative {
      SignedNegativeStep(ds + rest, DigitsValue(ds), rest);
    } else {
      assert Sign(negative) + (ds + rest) == ds + rest;
      SignedPositiveStep(ds + rest, DigitsValue(ds), rest);
    }
  }

  /** `\|([0-9]+)=(-?[0-9]+)` on a text of that shape. */
  lemma CadenceAndPowerComplete(c: string, negative: bool, e: string, rest: string)
    requires c != [] && AllDigits(c) && e != [] && AllDigits(e)
    requires rest == [] || !IsDigit(rest[0])
    ensures CadenceAndPower(['|'] + (c + (['='] + (Sign(negative) + (e + rest))))) ==
            Some((DigitsValue(c), SignedValue(negative, e)))
  {
    var p4 := Sign(negative) + (e + rest);
    var pv := SignedValue(negative, e);
    assert Signed(p4) == Some((pv, rest)) by { SignedStep(negative, e, rest); }
    assert Number(c + ("=" + p4)) == Some((DigitsValue(c), "=" + p4)) by { NumberOfRun(c, "=" + p4); }
    CadenceAndPowerStep(c + ("=" + p4), DigitsValue(c), p4, pv, rest);
  }

  /** `\s[0-9]+\.[0-9]` in front of the cadence and power. */
  lemma SpeedAndRestComplete(w: char, b: string, d: char, p3: string)
    requires IsRegexSpace(w) && b != [] && AllDigits(b) && IsDigit(d)
    ensures SpeedAndRest([w] + (b + (['.', d] + p3))) == CadenceAndPower(p3)
  {
    DecimalStep(b, d, p3);
    SpeedAndRestStep(w, b + (['.', d] + p3), DecimalValue(b, d), p3);
  }

  lemma ForceTextThen(f: ForceFields, rest: string)
    ensures f.Text() + rest ==
            f.whole + (['.', f.tenth] + ([f.space] + (f.speed + (['.', f.speedTenth] +
              (['|'] + (f.cadence + (['='] + (Sign(f.negative) + (f.power + rest)))))))))
  {
  }

  lemma DecimalThen(q: string, whole: string, tenth: char, p2: string, fv: real, cv: nat, pv: int)
    requires q == whole + (['.', tenth] + p2)
    requires whole != [] && AllDigits(whole) && IsDigit(tenth)
    requires fv == DecimalValue(whole, tenth)
    requires SpeedAndRest(p2) == Some((cv, pv))
    ensures MatchForce(q) == Some(PowerSample(fv, cv, pv))
  {
    DecimalValueStep(whole, tenth, p2, fv);
    MatchForceStep(q, fv, p2, cv, pv);
  }

  lemma DecimalValueStep(whole: string, tenth: char, p2: string, fv: real)
    requires whole != [] && AllDigits(whole) && IsDigit(tenth)
    requires fv == DecimalValue(whole, tenth)
    ensures Decimal(whole + (['.', tenth] + p2)) == Some((fv, p2))
  {
    DecimalStep(whole, tenth, p2);
  }

  /**
   * Completeness of the force pattern: every text of its shape, followed by
   * anything that does not extend the power's digits, matches with the
   * values of its fields.
   */
  lemma MatchForceComplete(f: ForceFields, rest: string)
    requires f.Valid()
    requires rest == [] || !IsDigit(rest[0])
    ensures MatchForce(f.Text() + rest) == Some(f.Value())
  {
    var v := f.Value();
    var p3 := ['|'] + (f.cadence + (['='] + (Sign(f.negative) + (f.power + rest))));
    var p2 := [f.space] + (f.speed + (['.', f.speedTenth] + p3));
    CadenceAndPowerComplete(f.cadence, f.negative, f.power, rest);
    SpeedAndRestComplete(f.space, f.speed, f.speedTenth, p3);
    ForceTextThen(f, rest);
    DecimalThen(f.Text() + rest, f.whole, f.tenth, p2, v.force, v.cadence, v.power);
  }

  /** `p` is a prefix of `s`. */
  predicate Begins(p: string, s: string) { |p| <= |s| && s[..|p|] == p }

  lemma BeginsConcat(p: string, tail: string)
    ensures Begins(p, p + tail) && (p + tail)[|p|..] == tail
  {
    assert (p + tail)[..|p|] == p;
  }

  lemma NumberStarts(s: string)
    requires Number(s).Some?
    ensures s != [] && IsDigit(s[0])
  {
  }

  lemma NumberParts(s: string) returns (ds: string, rest: string)
    requires Number(s).Some?
    ensures ds != [] && AllDigits(ds) && (rest == [] || !IsDigit(rest[0]))
    ensures s == ds + rest && Number(s) == Some((DigitsValue(ds), rest))
  {
    var k := DigitRun(s);
    ds, rest := s[..k], s[k..];
    assert s == ds + rest;
  }

  lemma DecimalParts(s: string) returns (ds: string, d: char, rest: string)
    requires Decimal(s).Some?
    ensures ds != [] && AllDigits(ds) && IsDigit(d)
    ensures s == ds + (['.', d] + rest) && Decimal(s).value.1 == rest
  {
    var r;
    ds, r := NumberParts(s);
    d, rest := r[1], r[2..];
    assert r == ['.', d] + rest;
  }

  lemma SignedParts(s: string) returns (negative: bool, ds: string, rest: string)
    requires Signed(s).Some?
    ensures ds != [] && AllDigits(ds) && (rest == [] || !IsDigit(rest[0]))
    ensures s == Sign(negative) + (ds + rest) && Signed(s).value.1 == rest
  {
    if |s| > 0 && s[0] == '-' {
      negative := true;
      ds, rest := NumberParts(s[1..]);
      assert s == "-" + s[1..];
    } else {
      negative := false;
      ds, rest := NumberParts(s);
      assert Sign(negative) + (ds + rest) == ds + rest;
    }
  }

  lemma CadenceAndPowerParts(s: string) returns (c: string, negative: bool, e: string, rest: string)
    requires CadenceAndPower(s).Some?
    ensures c != [] && AllDigits(c) && e != [] && AllDigits(e) && (rest == [] || !IsDigit(rest[0]))
    ensures s == ['|'] + (c + (['='] + (Sign(negative) + (e + rest))))
  {
    var t, r := s[1..], [];
    assert s == ['|'] + t;
    c, r := NumberParts(t);
    var u := r[1..];
    assert r == ['='] + u;
    negative, e, rest := SignedParts(u);
  }

  lemma SpeedAndRestParts(s: string) returns (w: char, b: string, d: char, c: string, negative: bool, e: string, rest: string)
    requires SpeedAndRest(s).Some?
    ensures IsRegexSpace(w) && b != [] && AllDigits(b) && IsDigit(d)
    ensures c != [] && AllDigits(c) && e != [] && AllDigits(e) && (rest == [] || !IsDigit(rest[0]))
    ensures s == [w] + (b + (['.', d] + (['|'] + (c + (['='] + (Sign(negative) + (e + rest)))))))
  {
    w := s[0];
    var t := s[1..];
    assert s == [w] + t;
    b, d, c, negative, e, rest := SpeedParts(t);
  }

  lemma SpeedParts(t: string) returns (b: string, d: char, c: string, negative: bool, e: string, rest: string)
    requires Decimal(t).Some? && CadenceAndPower(Decimal(t).value.1).Some?
    ensures b != [] && AllDigits(b) && IsDigit(d)
    ensures c != [] && AllDigits(c) && e != [] && AllDigits(e) && (rest == [] || !IsDigit(rest[0]))
    ensures t == b + (['.', d] + (['|'] + (c + (['='] + (Sign(negative) + (e + rest))))))
  {
    var r;
    b, d, r := DecimalParts(t);
    c, negative, e, rest := CadenceAndPowerParts(r);
  }

  /**
   * Soundness of the force pattern: a match starts with a text of the
   * pattern's shape, not followed by a further digit, and carries the values
   * of its fields. With MatchForceComplete, the force, cadence and power of a
   * match are exactly the values of groups 1, 2 and 3.
   */
  lemma MatchForceSound(s: string)
    requires MatchForce(s).Some?
    ensures exists f: ForceFields :: f.Valid() && Begins(f.Text(), s) &&
                                     (|f.Text()| == |s| || !IsDigit(s[|f.Text()|])) && MatchForce(s) == Some(f.Value())
  {
    var whole, tenth, r1 := DecimalParts(s);
    var w, b, d, c, negative, e, rest := SpeedAndRestParts(r1);
    var f := ForceFields(whole, tenth, w, b, d, c, negative, e);
    assert s == f.Text() + rest by { ForceTextThen(f, rest); }
    MatchForceComplete(f, rest);
    BeginsConcat(f.Text(), rest);
    assert f.Valid() && Begins(f.Text(), s) && (|f.Text()| == |s| || !IsDigit(s[|f.Text()|])) &&
           MatchForce(s) == Some(f.Value());
  }

  /**
   * Completeness of the time pattern: digits, ':', one `\s` character and a
   * digit match, and the elapsed seconds are group 1's value.
   */
  lemma MatchTimeComplete(t: TimeFields, tail: string)
    requires t.Valid()
    requires tail != [] && IsDigit(tail[0])
    ensures MatchTime(t.Text() + tail) == Some(t.Value())
  {
    var r := [':', t.space] + tail;
    NumberOfRun(t.seconds, r);
    assert r[2..] == tail;
    assert Number(tail).Some?;
    assert t.Text() + tail == t.seconds + r;
  }

  /** Soundness of the time pattern: a match has that shape and carries group 1's value. */
  lemma MatchTimeSound(s: string)
    requires MatchTime(s).Some?
    ensures exists t: TimeFields :: t.Valid() && Begins(t.Text(), s) && |t.Text()| < |s| &&
                                    IsDigit(s[|t.Text()|]) && MatchTime(s) == Some(t.Value())
  {
    var ds, w, tail := TimeParts(s);
    var t := TimeFields(ds, w);
    assert s == t.Text() + tail;
    TimeShape(s, t, tail);
  }

  lemma TimeParts(s: string) returns (ds: string, w: char, tail: string)
    requires MatchTime(s).Some?
    ensures ds != [] && AllDigits(ds) && IsRegexSpace(w) && tail != [] && IsDigit(tail[0])
    ensures s == ds + ([':', w] + tail)
  {
    var rest;
    ds, rest := NumberParts(s);
    w, tail := rest[1], rest[2..];
    NumberStarts(tail);
    assert rest == [':', w] + tail;
  }

  lemma TimeShape(s: string, t: TimeFields, tail: string)
    requires t.Valid() && tail != [] && IsDigit(tail[0]) && s == t.Text() + tail
    ensures t.Valid() && Begins(t.Text(), s) && |t.Text()| < |s| && IsDigit(s[|t.Text()|]) &&
            MatchTime(s) == Some(t.Value())
  {
    MatchTimeComplete(t, tail);
    BeginsConcat(t.Text(), tail);
  }

  /**
   * A power sample carries groups 1-3 of the leftmost force match: the
   * force digits and tenth, the cadence digits and the signed power digits
   * of a text of the pattern's shape starting at that position.
   */
  lemma ClassifiedPower(msg: string)
    requires Classify(msg).PowerSample?
    ensures exists k: nat, f: ForceFields :: k <= |msg| && (forall j :: 0 <= j < k ==> MatchForce(msg[j..]).None?) &&
                                             f.Valid() && Begins(f.Text(), msg[k..]) &&
                                             (|f.Text()| == |msg[k..]| || !IsDigit(msg[k..][|f.Text()|])) &&
                                             Classify(msg) == f.Value()
  {
    var k :| 0 <= k <= |msg| && MatchForce(msg[k..]) == Some(Classify(msg)) &&
             forall j :: 0 <= j < k ==> MatchForce(msg[j..]).None?;
    MatchForceSound(msg[k..]);
    var f: ForceFields :| f.Valid() && Begins(f.Text(), msg[k..]) &&
                          (|f.Text()| == |msg[k..]| || !IsDigit(msg[k..][|f.Text()|])) &&
                          MatchForce(msg[k..]) == Some(f.Value());
    assert f.Value() == Classify(msg);
  }

  /** A time sample carries group 1 of the leftmost time match, the digits before its ':'. */
  lemma ClassifiedTime(msg: string)
    requires Classify(msg).TimeSample?
    ensures exists k: nat, t: TimeFields :: k <= |msg| && (forall j :: 0 <= j < k ==> MatchTime(msg[j..]).None?) &&
                                            t.Valid() && Begins(t.Text(), msg[k..]) &&
                                            |t.Text()| < |msg[k..]| && IsDigit(msg[k..][|t.Text()|]) &&
                                            Classify(msg) == t.Value()
  {
    var k :| 0 <= k <= |msg| && MatchTime(msg[k..]) == Some(Classify(msg)) &&
             forall j :: 0 <= j < k ==> MatchTime(msg[j..]).None?;
    MatchTimeSound(msg[k..]);
    var t: TimeFields :| t.Valid() && Begins(t.Text(), msg[k..]) &&
                         |t.Text()| < |msg[k..]| && IsDigit(msg[k..][|t.Text()|]) &&
                         MatchTime(msg[k..]) == Some(t.Value());
    assert t.Value() == Classify(msg);
  }

  // ----- Concrete messages -----

  lemma ExampleDigits()
    ensures NatToDigits(150) == "150" && NatToDigits(80) == "80"
  {
    assert NatToDigits(1) == "1" && NatToDigits(15) == "15" && NatToDigits(8) == "8";
  }

  lemma ExampleReadings()
    ensures OneDecimal(Reading(3, 5)) == "3.5" && OneDecimal(Reading(90, 0)) == "90.0"
    ensures OneDecimal(Reading(1, 5)) == "1.5" && OneDecimal(Reading(2, 0)) == "2.0"
  {
    assert NatToDigits(3) == "3" && NatToDigits(90) == "90" && NatToDigits(1) == "1" && NatToDigits(2) == "2";
  }

  lemma ExamplePowerText()
    ensures FormatPower(Reading(3, 5), Reading(90, 0), 80, 150) == "3.5 90.0|80=150"
  {
    ExampleDigits();
    ExampleReadings();
    var a := OneDecimal(Reading(3, 5));
    var b := OneDecimal(Reading(90, 0));
    var c := "|" + (NatToDigits(80) + ("=" + SignedDigits(150)));
    assert c == "|80=150";
    assert a + (" " + (b + c)) == "3.5 90.0|80=150";
  }

  /** The example message of the logger's format string. */
  lemma ExamplePowerMessage()
    ensures Classify("3.5 90.0|80=150") == PowerSample(3.5, 80, 150)
  {
    ExamplePowerText();
    PowerMessageRoundTrip(Reading(3, 5), Reading(90, 0), 80, 150);
  }

  lemma ExampleTimeMessage()
    ensures Classify("12: 45 polls") == TimeSample(12)
  {
    assert NatToDigits(12) == "12" && NatToDigits(45) == "45";
    assert FormatTime(12, 45) == "12: 45 polls";
    TimeMessageRoundTrip(12, 45);
  }

  lemma NegativeExampleText()
    ensures FormatPower(Reading(1, 5), Reading(2, 0), 80, 150) == "1.5 2.0|80=150"
  {
    ExampleDigits();
    ExampleReadings();
    var a := OneDecimal(Reading(1, 5));
    var b := OneDecimal(Reading(2, 0));
    var c := "|" + (NatToDigits(80) + ("=" + SignedDigits(150)));
    assert c == "|80=150";
    assert a + (" " + (b + c)) == "1.5 2.0|80=150";
  }

  /**
   * The force pattern has no sign, so a negative force is read from the
   * first digit on: the leftmost match starts after the '-', and the sample
   * carries the force's magnitude.
   */
  lemma NegativeForceReadsMagnitude(force: Reading, speed: Reading, cadence: nat, power: int)
    ensures Classify("-" + FormatPower(force, speed, cadence, power)) == PowerSample(force.Value(), cadence, power)
  {
    var body := FormatPower(force, speed, cadence, power);
    var msg := "-" + body;
    assert msg[1..] == body;
    NumberIsGreedy(msg);
    MatchForceOf(force, speed, cadence, power);
  }

  lemma NegativeForceLosesSign()
    ensures Classify("-1.5 2.0|80=150") == PowerSample(1.5, 80, 150)
  {
    var msg := "-1.5 2.0|80=150";
    assert msg == "-" + FormatPower(Reading(1, 5), Reading(2, 0), 80, 150) by {
      NegativeExampleText();
    }
    assert Reading(1, 5).Value() == 1.5;
    NegativeForceReadsMagnitude(Reading(1, 5), Reading(2, 0), 80, 150);
  }
}
