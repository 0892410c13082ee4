/**
 * Recognising a notification line of the logger characteristic and pulling
 * its hex payload out (log_decode.py `get_val` and lines 65-67).
 */
module LineFilter {
  import opened Wrappers
  import opened Text

  const NOTIFIED := "notified"
  /** The handle of the characteristic the firmware publishes its log lines on. */
  const HANDLE := "(1234)"

  /** A line is decoded when it mentions both the notification and the handle, anywhere. */
  predicate Qualifies(line: string)
    ensures Qualifies(line) <==>
              (exists i :: 0 <= i <= |line| && OccursAt(line, NOTIFIED, i)) &&
              (exists j :: 0 <= j <= |line| && OccursAt(line, HANDLE, j))
  {
    Contains(line, NOTIFIED) && Contains(line, HANDLE)
  }

  /** The character class `[a-f 0-9]` of the payload group. */
  predicate IsPayloadChar(c: char) { 'a' <= c <= 'f' || c == ' ' || '0' <= c <= '9' }

  predicate AllPayload(s: string) { forall i :: 0 <= i < |s| ==> IsPayloadChar(s[i]) }

  /** Length of the longest prefix of `s` inside the payload class. */
  function PayloadRun(s: string): (n: nat)
    ensures n <= |s| && AllPayload(s[..n])
    ensures n == |s| || !IsPayloadChar(s[n])
  {
    if s == [] || !IsPayloadChar(s[0]) then 0
    else
      var n := 1 + PayloadRun(s[1..]);
      assert s[..n] == [s[0]] + s[1..][..n - 1];
      n
  }

  /**
   * The pattern `<([a-f 0-9]+)>` anchored at the start of `s`: the group when
   * `s` begins with '<', a non-empty run of payload characters and '>'.
   */
  function GroupAt(s: string): (r: Option<string>)
    ensures r.Some? ==>
              |r.value| > 0 && AllPayload(r.value) &&
              |r.value| + 2 <= |s| && s[..|r.value| + 2] == "<" + r.value + ">"
  {
    if s == [] || s[0] != '<' then None
    else
      var n := PayloadRun(s[1..]);
      if 0 < n && n + 1 < |s| && s[n + 1] == '>' then
        assert s[1..n + 1] == s[1..][..n];
        Some(s[1..n + 1])
      else
        None
  }

  /** Conversely, every such prefix matches, with that group. */
  lemma GroupAtComplete(g: string, rest: string)
    requires |g| > 0 && AllPayload(g)
    ensures GroupAt("<" + g + ">" + rest) == Some(g)
  {
    var s := "<" + g + ">" + rest;
    var t := s[1..];
    assert t == g + (">" + rest);
    assert t[..|g|] == g && t[|g|] == '>';
    assert PayloadRun(t) == |g|;
    assert s[1..|g| + 1] == g;
  }

  /**
   * get_val: the group of the first `<...>` match in the line, or '' when
   * there is none (the diagnostic print is not modelled).
   */
  function GetVal(line: string): (r: string)
    ensures r == "" <==> forall k :: 0 <= k <= |line| ==> GroupAt(line[k..]).None?
    ensures r != "" ==>
              exists k :: 0 <= k <= |line| && GroupAt(line[k..]) == Some(r) &&
                          forall j :: 0 <= j < k ==> GroupAt(line[j..]).None?
  {
    match FirstMatch(line, GroupAt)
    case Some(g) => g
    case None => ""
  }

  /** A payload after a prefix without '<' is what get_val returns. */
  lemma GetValFinds(pre: string, g: string, post: string)
    requires forall i :: 0 <= i < |pre| ==> pre[i] != '<'
    requires |g| > 0 && AllPayload(g)
    ensures GetVal(pre + "<" + g + ">" + post) == g
  {
    var line := pre + "<" + g + ">" + post;
    assert line[|pre|..] == "<" + g + ">" + post;
    GroupAtComplete(g, post);
    forall k | 0 <= k < |pre|
      ensures GroupAt(line[k..]).None?
    {
      assert line[k..][0] == pre[k];
    }
    FirstMatchAt(line, GroupAt, |pre|);
  }
}
