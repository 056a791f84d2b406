/** Channel names (backend/internal/redis/subscriber.go). */
module Channels {
  import opened Common

  const PREFIX := "poll:"
  const SUFFIX := ":updates"

  function ChannelOf(poll: string): string {
    PREFIX + poll + SUFFIX
  }

  predicate HasPrefix(s: string, prefix: string) {
    |prefix| <= |s| && s[..|prefix|] == prefix
  }

  predicate HasSuffix(s: string, suffix: string) {
    |suffix| <= |s| && s[|s| - |suffix|..] == suffix
  }

  /** The slice between prefix and suffix; None is a slice whose bounds are out of
      order, which ends the process. */
  function PollIdFromChannel(channel: string): Option<string> {
    if !HasPrefix(channel, PREFIX) || !HasSuffix(channel, SUFFIX) then Some("")
    else if |channel| < |PREFIX| + |SUFFIX| then None
    else Some(channel[|PREFIX|..|channel| - |SUFFIX|])
  }

  /** The name round-trips, and a non-empty answer is given exactly for the channels of
      the subscribed pattern that carry an ID. */
  lemma ChannelRoundTrip(channel: string, poll: string)
    ensures PollIdFromChannel(ChannelOf(poll)) == Some(poll)
    ensures poll != "" ==> (PollIdFromChannel(channel) == Some(poll) <==> channel == ChannelOf(poll))
  {
    var c := ChannelOf(poll);
    assert c[..|PREFIX|] == PREFIX;
    assert c[|c| - |SUFFIX|..] == SUFFIX;
    assert c[|PREFIX|..|c| - |SUFFIX|] == poll;
    if poll != "" && PollIdFromChannel(channel) == Some(poll) {
      assert channel == channel[..|PREFIX|] + channel[|PREFIX|..|channel| - |SUFFIX|] + channel[|channel| - |SUFFIX|..];
    }
  }

  /** The one name on which prefix and suffix overlap; the subscription's pattern never
      delivers it. */
  lemma OnlyTheOverlapFails(channel: string)
    ensures PollIdFromChannel(channel).None? <==> channel == "poll:updates"
    ensures (exists poll :: channel == ChannelOf(poll)) ==> PollIdFromChannel(channel).Some?
  {
    if PollIdFromChannel(channel).None? {
      var n := |channel|;
      assert forall i :: 0 <= i < 5 ==> channel[i] == channel[..5][i] == PREFIX[i];
      assert forall i :: 0 <= i < 8 ==> channel[n - 8 + i] == channel[n - 8..][i] == SUFFIX[i];
      assert channel[n - 8 + (12 - n)] == SUFFIX[12 - n];
      assert channel == channel[..4] + channel[n - 8..];
    }
    var overlap := "poll:updates";
    assert overlap[..5] == PREFIX && overlap[4..] == SUFFIX;
  }
}
