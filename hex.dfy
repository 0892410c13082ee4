/**
 * The byte decoding applied to a payload at log_decode.py line 69:
 * `bytearray.fromhex(payload).decode()`, with the text decode restricted to ASCII.
 */
module Hex {
  import opened Wrappers

  type byte = x: int | 0 <= x < 256

  /** The two exceptions line 69 can raise; neither is caught in the source. */
  datatype DecodeError =
    | InvalidHex  // ValueError from fromhex: a non-hex character, or a lone final digit
    | NonAscii    // a byte of 128 or more (UnicodeDecodeError in the ASCII restriction)

  predicate IsHexDigit(c: char) { '0' <= c <= '9' || 'a' <= c <= 'f' || 'A' <= c <= 'F' }

  function HexValue(c: char): (v: nat)
    requires IsHexDigit(c)
    ensures v < 16
  {
    if '0' <= c <= '9' then c as int - '0' as int
    else if 'a' <= c <= 'f' then c as int - 'a' as int + 10
    else c as int - 'A' as int + 10
  }

  /** The whitespace fromhex skips in front of a pair of digits: tab, newline, vertical tab, form feed, return, space. */
  predicate IsHexSpace(c: char) { 9 <= c as int <= 13 || c == ' ' }

  /**
   * bytearray.fromhex: two hex digits per byte, either case, high digit first;
   * whitespace is skipped between pairs but not inside one.
   */
  function FromHex(s: string): Result<seq<byte>, DecodeError>
    decreases |s|
  {
    if s == [] then Success([])
    else if IsHexSpace(s[0]) then FromHex(s[1..])
    else if !IsHexDigit(s[0]) || |s| == 1 || !IsHexDigit(s[1]) then Failure(InvalidHex)
    else
      match FromHex(s[2..])
      case Failure(e) => Failure(e)
      case Success(bs) => Success([16 * HexValue(s[0]) + HexValue(s[1])] + bs)
  }

  function CountHexDigits(s: string): nat
  {
    if s == [] then 0 else (if IsHexDigit(s[0]) then 1 else 0) + CountHexDigits(s[1..])
  }

  /**
   * What a successful decode says about its input: every character is a hex
   * digit or whitespace, and there are exactly two digits per byte. Hence an
   * odd number of digits, or any other character, is an InvalidHex failure.
   */
  lemma {:induction false} FromHexShape(s: string)
    ensures FromHex(s).Success? ==>
              2 * |FromHex(s).value| == CountHexDigits(s) &&
              forall i :: 0 <= i < |s| ==> IsHexDigit(s[i]) || IsHexSpace(s[i])
    ensures CountHexDigits(s) % 2 == 1 ==> FromHex(s) == Failure(InvalidHex)
    ensures (exists i :: 0 <= i < |s| && !IsHexDigit(s[i]) && !IsHexSpace(s[i])) ==> FromHex(s) == Failure(InvalidHex)
    decreases |s|
  {
    if s == [] {
    } else if IsHexSpace(s[0]) {
      FromHexShape(s[1..]);
      assert forall i :: 1 <= i < |s| ==> s[i] == s[1..][i - 1];
    } else if !IsHexDigit(s[0]) || |s| == 1 || !IsHexDigit(s[1]) {
      if |s| == 1 { assert CountHexDigits(s[1..]) == 0; }
    } else {
      FromHexShape(s[2..]);
      assert s[1..][1..] == s[2..];
      assert CountHexDigits(s) == 2 + CountHexDigits(s[2..]);
      assert forall i :: 2 <= i < |s| ==> s[i] == s[2..][i - 2];
    }
  }

  function HexChar(v: nat): (c: char)
    requires v < 16
    ensures IsHexDigit(c) && HexValue(c) == v
  {
    if v < 10 then ('0' as int + v) as char else ('a' as int + v - 10) as char
  }

  /**
   * The inverse direction with one layout: each byte as two lower-case
   * digits followed by `sep`, the last byte included.
   */
  function ToHex(bs: seq<byte>, sep: string): string
  {
    if bs == [] then "" else [HexChar(bs[0] / 16), HexChar(bs[0] % 16)] + sep + ToHex(bs[1..], sep)
  }

  lemma {:induction false} SkipSpaces(sep: string, rest: string)
    requires forall i :: 0 <= i < |sep| ==> IsHexSpace(sep[i])
    ensures FromHex(sep + rest) == FromHex(rest)
    decreases |sep|
  {
    if sep != [] {
      var s := sep + rest;
      assert s != [] && IsHexSpace(s[0]);
      assert s[1..] == sep[1..] + rest;
      assert FromHex(s) == FromHex(s[1..]);
      SkipSpaces(sep[1..], rest);
    } else {
      assert sep + rest == rest;
    }
  }

  predicate AllHexSpace(s: string) { forall i :: 0 <= i < |s| ==> IsHexSpace(s[i]) }

  /**
   * Any lower-case hex dump: each byte as two digits followed by its own
   * run of whitespace, `seps[i]` after byte i (possibly empty).
   */
  function Dump(bs: seq<byte>, seps: seq<string>): string
    requires |seps| == |bs|
  {
    if bs == [] then "" else [HexChar(bs[0] / 16), HexChar(bs[0] % 16)] + seps[0] + Dump(bs[1..], seps[1..])
  }

  /**
   * fromhex over a dump followed by more text: the dump's bytes come first,
   * and what follows decides the outcome, its error included.
   */
  lemma {:induction false} FromHexAppend(bs: seq<byte>, lead: string, seps: seq<string>, rest: string)
    requires |seps| == |bs|
    requires AllHexSpace(lead)
    requires forall i :: 0 <= i < |seps| ==> AllHexSpace(seps[i])
    ensures FromHex(lead + Dump(bs, seps) + rest) ==
              match FromHex(rest)
              case Failure(e) => Failure(e)
              case Success(cs) => Success(bs + cs)
    decreases |bs|
  {
    var x := Dump(bs, seps) + rest;
    assert lead + Dump(bs, seps) + rest == lead + x;
    SkipSpaces(lead, x);
    if bs != [] {
      var tail := Dump(bs[1..], seps[1..]);
      assert x[2..] == seps[0] + tail + rest;
      FromHexAppend(bs[1..], seps[0], seps[1..], rest);
      if FromHex(rest).Success? {
        assert [bs[0]] + (bs[1..] + FromHex(rest).value) == bs + FromHex(rest).value;
      }
    } else {
      assert x == rest;
      if FromHex(rest).Success? {
        assert bs + FromHex(rest).value == FromHex(rest).value;
      }
    }
  }

  /** fromhex reads back the bytes of any such dump, whatever whitespace leads it or follows each byte. */
  lemma FromHexDump(bs: seq<byte>, lead: string, seps: seq<string>)
    requires |seps| == |bs|
    requires AllHexSpace(lead)
    requires forall i :: 0 <= i < |seps| ==> AllHexSpace(seps[i])
    ensures FromHex(lead + Dump(bs, seps)) == Success(bs)
  {
    FromHexAppend(bs, lead, seps, "");
    assert lead + Dump(bs, seps) + "" == lead + Dump(bs, seps);
    assert bs + [] == bs;
  }

  /**
   * A pair of digits split by whitespace, or by any other character that is
   * not a hex digit, is an InvalidHex failure, however well-formed the dump
   * before it: `3 32e` fails although every character is a digit or a space.
   */
  lemma SplitPairFails(bs: seq<byte>, lead: string, seps: seq<string>, d: char, c: char, rest: string)
    requires |seps| == |bs|
    requires AllHexSpace(lead)
    requires forall i :: 0 <= i < |seps| ==> AllHexSpace(seps[i])
    requires IsHexDigit(d) && !IsHexDigit(c)
    ensures FromHex(lead + Dump(bs, seps) + ([d, c] + rest)) == Failure(InvalidHex)
  {
    FromHexAppend(bs, lead, seps, [d, c] + rest);
  }

  lemma SplitPairExample()
    ensures FromHex("3 32e") == Failure(InvalidHex)
  {
    SplitPairFails([], "", [], '3', ' ', "32e");
    assert "" + Dump([], []) + (['3', ' '] + "32e") == "3 32e";
  }

  /** `c` with an upper-case hex digit replaced by its lower-case form. */
  function LowerHex(c: char): char
  {
    if 'A' <= c <= 'F' then (c as int - 'A' as int + 'a' as int) as char else c
  }

  /** `s` with its upper-case hex digits lowered. */
  function Lowered(s: string): (r: string)
    ensures |r| == |s|
  {
    if s == [] then "" else [LowerHex(s[0])] + Lowered(s[1..])
  }

  lemma LoweredAt(s: string)
    requires |s| >= 2
    ensures Lowered(s) == [LowerHex(s[0]), LowerHex(s[1])] + Lowered(s[2..])
  {
    var t := s[1..];
    assert t[0] == s[1] && t[1..] == s[2..];
    assert Lowered(t) == [LowerHex(s[1])] + Lowered(s[2..]);
    assert Lowered(s) == [LowerHex(s[0])] + Lowered(t);
  }

  /** Case does not matter to fromhex. */
  lemma {:induction false} FromHexLowered(s: string)
    ensures FromHex(Lowered(s)) == FromHex(s)
    decreases |s|
  {
    if s != [] {
      var l := Lowered(s);
      assert l[0] == LowerHex(s[0]) && l[1..] == Lowered(s[1..]);
      if IsHexSpace(s[0]) {
        FromHexLowered(s[1..]);
      } else if |s| >= 2 && IsHexDigit(s[0]) && IsHexDigit(s[1]) {
        LoweredAt(s);
        assert l[2..] == Lowered(s[2..]);
        FromHexLowered(s[2..]);
      } else if |s| >= 2 {
        LoweredAt(s);
      }
    }
  }

  /**
   * The sound direction of FromHexDump: whatever fromhex accepts is, up to
   * the case of its digits, leading whitespace and a dump of the bytes it
   * returns, each byte followed by its own whitespace.
   */
  lemma {:induction false} FromHexParts(s: string) returns (lead: string, seps: seq<string>)
    requires FromHex(s).Success?
    ensures |seps| == |FromHex(s).value| && AllHexSpace(lead)
    ensures forall i :: 0 <= i < |seps| ==> AllHexSpace(seps[i])
    ensures Lowered(s) == lead + Dump(FromHex(s).value, seps)
    decreases |s|
  {
    if s == [] {
      lead, seps := "", [];
    } else if IsHexSpace(s[0]) {
      var l, ss := FromHexParts(s[1..]);
      lead, seps := SpaceParts(s, l, ss);
    } else {
      var l, ss := FromHexParts(s[2..]);
      lead, seps := PairParts(s, l, ss);
    }
  }

  /** FromHexParts for input that starts with whitespace, from its parts after that character. */
  lemma SpaceParts(s: string, l: string, ss: seq<string>) returns (lead: string, seps: seq<string>)
    requires s != [] && IsHexSpace(s[0]) && FromHex(s[1..]).Success?
    requires |ss| == |FromHex(s[1..]).value| && AllHexSpace(l)
    requires forall i :: 0 <= i < |ss| ==> AllHexSpace(ss[i])
    requires Lowered(s[1..]) == l + Dump(FromHex(s[1..]).value, ss)
    ensures FromHex(s).Success? && |seps| == |FromHex(s).value| && AllHexSpace(lead)
    ensures forall i :: 0 <= i < |seps| ==> AllHexSpace(seps[i])
    ensures Lowered(s) == lead + Dump(FromHex(s).value, seps)
  {
    assert FromHex(s) == FromHex(s[1..]);
    lead, seps := [s[0]] + l, ss;
    SpaceDump(s[0], s[1..], l, FromHex(s).value, ss);
    assert s == [s[0]] + s[1..];
  }

  /** FromHexParts for input that starts with a pair of digits, from its parts after the pair. */
  lemma PairParts(s: string, l: string, ss: seq<string>) returns (lead: string, seps: seq<string>)
    requires FromHex(s).Success? && s != [] && !IsHexSpace(s[0])
    requires |s| >= 2 && FromHex(s[2..]).Success?
    requires |ss| == |FromHex(s[2..]).value| && AllHexSpace(l)
    requires forall i :: 0 <= i < |ss| ==> AllHexSpace(ss[i])
    requires Lowered(s[2..]) == l + Dump(FromHex(s[2..]).value, ss)
    ensures |seps| == |FromHex(s).value| && AllHexSpace(lead)
    ensures forall i :: 0 <= i < |seps| ==> AllHexSpace(seps[i])
    ensures Lowered(s) == lead + Dump(FromHex(s).value, seps)
  {
    assert IsHexDigit(s[0]) && IsHexDigit(s[1]);
    var b: byte := 16 * HexValue(s[0]) + HexValue(s[1]);
    var bs := FromHex(s[2..]).value;
    PairHead(s, b);
    PairDump(s, b, bs, l, ss);
    lead, seps := "", [l] + ss;
    assert Lowered(s) == lead + Dump([b] + bs, seps);
    forall i | 0 <= i < |seps| ensures AllHexSpace(seps[i]) {
      if i > 0 { assert seps[i] == ss[i - 1]; }
    }
  }

  /** A successful decode that does not start with whitespace starts with a pair of digits, byte `b`. */
  lemma PairHead(s: string, b: byte)
    requires FromHex(s).Success? && s != [] && !IsHexSpace(s[0])
    requires |s| >= 2 && IsHexDigit(s[0]) && IsHexDigit(s[1]) && b == 16 * HexValue(s[0]) + HexValue(s[1])
    ensures FromHex(s[2..]).Success? && FromHex(s).value == [b] + FromHex(s[2..]).value
  {
  }

  /** A whitespace character in front of a lowered dump joins its leading whitespace. */
  lemma SpaceDump(c: char, rest: string, l: string, bs: seq<byte>, ss: seq<string>)
    requires IsHexSpace(c) && |ss| == |bs| && Lowered(rest) == l + Dump(bs, ss)
    ensures Lowered([c] + rest) == ([c] + l) + Dump(bs, ss)
  {
    assert ([c] + rest)[1..] == rest;
  }

  lemma HexCharOfDigit(c: char)
    requires IsHexDigit(c)
    ensures HexChar(HexValue(c)) == LowerHex(c)
  {
  }

  /** One pair of digits in front of a lowered dump gives a dump with one more byte. */
  lemma PairDump(s: string, b: byte, bs: seq<byte>, l: string, ss: seq<string>)
    requires |s| >= 2 && IsHexDigit(s[0]) && IsHexDigit(s[1]) && b == 16 * HexValue(s[0]) + HexValue(s[1])
    requires |ss| == |bs| && Lowered(s[2..]) == l + Dump(bs, ss)
    ensures Lowered(s) == Dump([b] + bs, [l] + ss)
  {
    ByteDigits(HexValue(s[0]), HexValue(s[1]));
    assert b / 16 == HexValue(s[0]) && b % 16 == HexValue(s[1]);
    HexCharOfDigit(s[0]);
    HexCharOfDigit(s[1]);
    DumpCons(b, bs, l, ss);
    LoweredAt(s);
  }

  lemma DumpCons(b: byte, bs: seq<byte>, l: string, ss: seq<string>)
    requires |ss| == |bs|
    ensures Dump([b] + bs, [l] + ss) == [HexChar(b / 16), HexChar(b % 16)] + (l + Dump(bs, ss))
  {
    assert ([b] + bs)[1..] == bs && ([l] + ss)[1..] == ss;
  }

  lemma ByteDigits(h: nat, lo: nat)
    requires h < 16 && lo < 16
    ensures 16 * h + lo < 256 && (16 * h + lo) / 16 == h && (16 * h + lo) % 16 == lo
  {
  }

  /** fromhex succeeds exactly on the lowered forms of such dumps, and returns the dumped bytes. */
  lemma FromHexSound(s: string)
    ensures FromHex(s).Success? ==>
              exists lead: string, seps: seq<string> ::
                |seps| == |FromHex(s).value| && AllHexSpace(lead) &&
                (forall i :: 0 <= i < |seps| ==> AllHexSpace(seps[i])) &&
                Lowered(s) == lead + Dump(FromHex(s).value, seps)
  {
    if FromHex(s).Success? {
      var lead, seps := FromHexParts(s);
    }
  }

  lemma FromHexComplete(s: string, bs: seq<byte>, lead: string, seps: seq<string>)
    requires |seps| == |bs| && AllHexSpace(lead)
    requires forall i :: 0 <= i < |seps| ==> AllHexSpace(seps[i])
    requires Lowered(s) == lead + Dump(bs, seps)
    ensures FromHex(s) == Success(bs)
  {
    FromHexLowered(s);
    FromHexDump(bs, lead, seps);
  }

  /** `ToHex` is the special case of one separator after every byte. */
  lemma {:induction false} ToHexIsDump(bs: seq<byte>, sep: string)
    ensures ToHex(bs, sep) == Dump(bs, seq(|bs|, _ => sep))
    decreases |bs|
  {
    if bs != [] {
      ToHexIsDump(bs[1..], sep);
      assert seq(|bs|, _ => sep)[1..] == seq(|bs| - 1, _ => sep);
    }
  }

  /** fromhex undoes ToHex when the separator is whitespace. */
  lemma FromHexToHex(bs: seq<byte>, sep: string)
    requires forall i :: 0 <= i < |sep| ==> IsHexSpace(sep[i])
    ensures FromHex(ToHex(bs, sep)) == Success(bs)
  {
    ToHexIsDump(bs, sep);
    FromHexDump(bs, "", seq(|bs|, _ => sep));
    assert "" + ToHex(bs, sep) == ToHex(bs, sep);
  }

  predicate IsAscii(t: string) { forall i :: 0 <= i < |t| ==> t[i] as int < 128 }

  /** `bytes.decode()` restricted to ASCII: one character per byte. */
  function AsciiDecode(bs: seq<byte>): (r: Result<string, DecodeError>)
    ensures r.Success? <==> forall i :: 0 <= i < |bs| ==> bs[i] < 128
    ensures r.Failure? ==> r.error == NonAscii
    ensures r.Success? ==> |r.value| == |bs| && forall i :: 0 <= i < |bs| ==> r.value[i] as int == bs[i]
  {
    if forall i :: 0 <= i < |bs| ==> bs[i] < 128 then
      Success(seq(|bs|, i requires 0 <= i < |bs| => bs[i] as char))
    else
      Failure(NonAscii)
  }

  /** The bytes of an ASCII string. */
  function AsciiEncode(t: string): (bs: seq<byte>)
    requires IsAscii(t)
    ensures |bs| == |t| && forall i :: 0 <= i < |t| ==> bs[i] == t[i] as int
  {
    seq(|t|, i requires 0 <= i < |t| => t[i] as int)
  }

  lemma AsciiRoundTrip(t: string)
    requires IsAscii(t)
    ensures AsciiDecode(AsciiEncode(t)) == Success(t)
  {
    var r := AsciiDecode(AsciiEncode(t));
    assert r.value == t;
  }

  /** The text of a payload, as line 69 computes it. */
  function DecodeText(payload: string): Result<string, DecodeError>
  {
    match FromHex(payload)
    case Failure(e) => Failure(e)
    case Success(bs) => AsciiDecode(bs)
  }

  /** An ASCII text written out as any lower-case dump decodes back to itself. */
  lemma DecodeTextDump(t: string, lead: string, seps: seq<string>)
    requires IsAscii(t) && |seps| == |t|
    requires AllHexSpace(lead)
    requires forall i :: 0 <= i < |seps| ==> AllHexSpace(seps[i])
    ensures DecodeText(lead + Dump(AsciiEncode(t), seps)) == Success(t)
  {
    FromHexDump(AsciiEncode(t), lead, seps);
    AsciiRoundTrip(t);
  }

  /** An ASCII text written out in hex with one separator after every byte decodes back to itself. */
  lemma DecodeTextRoundTrip(t: string, sep: string)
    requires IsAscii(t)
    requires forall i :: 0 <= i < |sep| ==> IsHexSpace(sep[i])
    ensures DecodeText(ToHex(AsciiEncode(t), sep)) == Success(t)
  {
    FromHexToHex(AsciiEncode(t), sep);
    AsciiRoundTrip(t);
  }
}
