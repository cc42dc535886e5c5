/** Transport chunking (DungeonMasterGPT.py, `send_split_message`): a reply
    is cut into consecutive slices of at most 2000 characters, the chat
    transport's per-message limit. */
module Chunking {
  import opened Text

  const PartLimit: nat := 2000

  function Min(a: int, b: int): int
  {
    if a <= b then a else b
  }

  /** Number of slices `range(0, len(message), 2000)` produces. */
  function PartCount(length: nat): nat
  {
    (length + PartLimit - 1) / PartLimit
  }

  /** `[message[i:i + 2000] for i in range(0, len(message), 2000)]`; Python's
      slice clamps the end at the length of the message. */
  function SplitMessage(message: string): (parts: seq<string>)
    ensures |parts| == PartCount(|message|)
    ensures |message| == 0 <==> |parts| == 0
    ensures forall i :: 0 <= i < |parts| ==> 0 < |parts[i]| <= PartLimit
    ensures forall i :: 0 <= i < |parts| - 1 ==> |parts[i]| == PartLimit
  {
    var n := PartCount(|message|);
    seq(n, i requires 0 <= i < n =>
      message[i * PartLimit .. Min((i + 1) * PartLimit, |message|)])
  }

  /** A message longer than one slice is its first 2000 characters followed
      by the slices of the rest. */
  lemma SplitMessageUnfold(message: string)
    requires |message| > PartLimit
    ensures SplitMessage(message) == [message[..PartLimit]] + SplitMessage(message[PartLimit..])
  {
    var parts := SplitMessage(message);
    var tail := message[PartLimit..];
    var rest := SplitMessage(tail);
    assert |parts| == 1 + |rest|;
    forall i | 1 <= i < |parts|
      ensures parts[i] == rest[i - 1]
    {
      var lo := (i - 1) * PartLimit;
      var hi := Min(i * PartLimit, |tail|);
      assert rest[i - 1] == tail[lo..hi];
      assert PartLimit + lo == i * PartLimit;
      assert PartLimit + hi == Min((i + 1) * PartLimit, |message|);
      assert tail[lo..hi] == message[PartLimit + lo .. PartLimit + hi];
      assert parts[i] == message[PartLimit + lo .. PartLimit + hi];
    }
  }

  /** Sending the slices one after another delivers the whole message:
      concatenating them gives it back. */
  lemma {:induction false} SplitMessageRoundTrip(message: string)
    decreases |message|
    ensures Join("", SplitMessage(message)) == message
  {
    if |message| == 0 {
    } else if |message| <= PartLimit {
      assert SplitMessage(message)[0] == message;
    } else {
      var tail := message[PartLimit..];
      SplitMessageUnfold(message);
      SplitMessageRoundTrip(tail);
      JoinCons("", message[..PartLimit], SplitMessage(tail));
      assert message == message[..PartLimit] + "" + tail;
    }
  }
}
