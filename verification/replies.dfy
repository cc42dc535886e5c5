/** Post-processing of the model's replies: the speaker prefix the model
    sometimes echoes, and the `Completed:` summary replies that extend the
    campaign progress. */
module Replies {
  import opened Wrappers
  import opened Text

  /** `startswith`: `p` is a prefix of `s`. */
  predicate StartsWith(s: string, p: string)
  {
    p <= s
  }

  /** What the bot's own turns start with in the chat history. */
  function SpeakerPrefix(name: string): string
  {
    name + ": "
  }

  /** `k` copies of `p` in a row. */
  function Repeat(p: string, k: nat): string
  {
    if k == 0 then "" else p + Repeat(p, k - 1)
  }

  /** The loop that drops every leading `name: ` from a reply: what is
      left is a tail of the reply and does not start with the prefix. */
  function StripNamePrefix(reply: string, name: string): (r: string)
    decreases |reply|
    ensures IsSuffix(r, reply)
    ensures !StartsWith(r, SpeakerPrefix(name))
  {
    if StartsWith(reply, SpeakerPrefix(name)) then StripNamePrefix(reply[|name| + 2..], name)
    else reply
  }

  /** How many times the loop runs. */
  function PrefixCopies(reply: string, name: string): nat
    decreases |reply|
  {
    if StartsWith(reply, SpeakerPrefix(name)) then 1 + PrefixCopies(reply[|name| + 2..], name)
    else 0
  }

  /** What the loop removes is a whole number of copies of the prefix. */
  lemma {:induction false} StripNamePrefixRemovesCopies(reply: string, name: string)
    decreases |reply|
    ensures reply == Repeat(SpeakerPrefix(name), PrefixCopies(reply, name)) + StripNamePrefix(reply, name)
  {
    var p := SpeakerPrefix(name);
    if StartsWith(reply, p) {
      var rest := reply[|name| + 2..];
      StripNamePrefixRemovesCopies(rest, name);
      assert reply == p + rest;
      assert Repeat(p, PrefixCopies(reply, name)) == p + Repeat(p, PrefixCopies(rest, name));
    }
  }

  /** Prefixes put in front of a reply that does not start with one are
      exactly what the loop takes off again. */
  lemma {:induction false} StripNamePrefixRepeat(name: string, k: nat, rest: string)
    requires !StartsWith(rest, SpeakerPrefix(name))
    decreases k
    ensures StripNamePrefix(Repeat(SpeakerPrefix(name), k) + rest, name) == rest
  {
    var p := SpeakerPrefix(name);
    if k > 0 {
      var reply := Repeat(p, k) + rest;
      assert reply == p + (Repeat(p, k - 1) + rest);
      assert StartsWith(reply, p);
      assert reply[|name| + 2..] == Repeat(p, k - 1) + rest;
      StripNamePrefixRepeat(name, k - 1, rest);
    }
  }

  /** Stripping twice strips nothing more. */
  lemma StripNamePrefixIdempotent(reply: string, name: string)
    ensures StripNamePrefix(StripNamePrefix(reply, name), name) == StripNamePrefix(reply, name)
  {
    StripNamePrefixRepeat(name, 0, StripNamePrefix(reply, name));
  }

  /** The reply as `call_openai_api` returns it: whitespace stripped, then
      every echoed `name: ` removed. It ends in non-whitespace, and its
      front is free of the prefix. */
  function CleanReply(raw: string, name: string): (r: string)
    ensures IsSuffix(r, Strip(raw))
    ensures exists k: nat :: Strip(raw) == Repeat(SpeakerPrefix(name), k) + r
    ensures !StartsWith(r, SpeakerPrefix(name))
    ensures |r| > 0 ==> !IsSpace(r[|r| - 1])
  {
    var t := Strip(raw);
    StripSlice(raw);
    var r := StripNamePrefix(t, name);
    StripNamePrefixRemovesCopies(t, name);
    assert t == Repeat(SpeakerPrefix(name), PrefixCopies(t, name)) + r;
    SuffixLast(r, t);
    r
  }

  /** A non-empty suffix ends where the whole sequence does. */
  lemma SuffixLast(r: string, t: string)
    requires IsSuffix(r, t)
    ensures |r| > 0 ==> r[|r| - 1] == t[|t| - 1]
  {
  }

  const CompletedMarker := "Completed:"
  const EventSeparator := ", "

  /** The events a summary reply reports: the text after the marker,
      stripped and split at `, `; `None` when the reply has no marker. */
  function CompletedEvents(reply: string): (r: Option<seq<string>>)
    ensures r.None? <==> !StartsWith(reply, CompletedMarker)
    ensures r.Some? ==> |r.value| >= 1
    ensures r.Some? ==> Join(EventSeparator, r.value) == Strip(reply[|CompletedMarker|..])
    ensures r.Some? ==> forall i :: 0 <= i < |r.value| ==> !Contains(r.value[i], EventSeparator)
  {
    if StartsWith(reply, CompletedMarker) then
      var events := SplitOn(Strip(reply[|CompletedMarker|..]), EventSeparator);
      JoinSplitOn(Strip(reply[|CompletedMarker|..]), EventSeparator);
      Some(events)
    else None
  }

  /** The progress summary after a summary reply: the reported events are
      appended when the reply starts with the marker; otherwise it stays
      as it was. Nothing already in the summary changes. */
  function ApplySummaryReply(summary: seq<string>, reply: string): (r: seq<string>)
    ensures !StartsWith(reply, CompletedMarker) ==> r == summary
    ensures StartsWith(reply, CompletedMarker) ==>
      && summary <= r
      && |r| > |summary|
      && Join(EventSeparator, r[|summary|..]) == Strip(reply[|CompletedMarker|..])
      && forall i :: |summary| <= i < |r| ==> !Contains(r[i], EventSeparator)
  {
    match CompletedEvents(reply)
    case None => summary
    case Some(events) =>
      assert (summary + events)[|summary|..] == events;
      summary + events
  }

  lemma EventSeparatorBorderFree()
    ensures BorderFree(EventSeparator)
  {
    forall d | 0 < d < |EventSeparator|
      ensures EventSeparator[d..] != EventSeparator[..|EventSeparator| - d]
    {
      assert EventSeparator[d..][0] == ' ';
    }
  }

  /** A reply `Completed: e1, e2, ...` appends exactly `e1, e2, ...` when
      no event holds `, ` and the list has no whitespace at its ends. */
  lemma {:induction false} ApplySummaryReplyRoundTrip(summary: seq<string>, pad: string, events: seq<string>)
    requires forall k :: 0 <= k < |pad| ==> IsSpace(pad[k])
    requires |events| > 0
    requires forall i :: 0 <= i < |events| ==> !Contains(events[i], EventSeparator)
    requires var text := Join(EventSeparator, events);
      |text| > 0 && !IsSpace(text[0]) && !IsSpace(text[|text| - 1])
    ensures ApplySummaryReply(summary, CompletedMarker + pad + Join(EventSeparator, events)) == summary + events
  {
    var text := Join(EventSeparator, events);
    var reply := CompletedMarker + pad + text;
    assert StartsWith(reply, CompletedMarker);
    assert reply[|CompletedMarker|..] == pad + text + "";
    StripPadded(pad, text, "");
    EventSeparatorBorderFree();
    SplitOnJoin(EventSeparator, events);
  }

  /** A bare `Completed:` still appends one line, an empty one. */
  lemma ApplySummaryReplyEmpty(summary: seq<string>, pad: string)
    requires forall k :: 0 <= k < |pad| ==> IsSpace(pad[k])
    ensures ApplySummaryReply(summary, CompletedMarker + pad) == summary + [""]
  {
    var reply := CompletedMarker + pad;
    assert StartsWith(reply, CompletedMarker);
    assert reply[|CompletedMarker|..] == pad;
    var s := Strip(pad);
    StripSlice(pad);
    var i :| StripsTo(pad, s, i);
    assert IndexOf("", EventSeparator).None?;
  }
}
