/** The poll document (backend/internal/models/poll.go). */
module Polls {
  import opened Common

  datatype Status = Active | Closed

  datatype PollOption = PollOption(id: OptionId, text: string)

  datatype Poll = Poll(
    id: PollId,
    owner: UserId,
    question: string,
    options: seq<PollOption>,
    status: Status,
    expiresAt: Option<Time>)
  {
    predicate IsExpired(now: Time) {
      expiresAt.Some? && now >= expiresAt.value
    }

    predicate AcceptsVotes(now: Time) {
      status == Active && !IsExpired(now)
    }

    function EffectiveStatus(now: Time): Status {
      if status == Active && IsExpired(now) then Closed else status
    }
  }

  /** What a poll promises: votes at every instant before its expiry, if it has one, while
      nobody has closed it. */
  ghost predicate TakesVotesAt(poll: Poll, t: Time) {
    poll.status == Active && forall end :: poll.expiresAt == Some(end) ==> t < end
  }

  function Ids(options: seq<PollOption>): (r: seq<OptionId>)
    ensures |r| == |options| && forall i :: 0 <= i < |r| ==> r[i] == options[i].id
  {
    Map((o: PollOption) => o.id, options)
  }

  function Texts(options: seq<PollOption>): (r: seq<string>)
    ensures |r| == |options| && forall i :: 0 <= i < |r| ==> r[i] == options[i].text
  {
    Map((o: PollOption) => o.text, options)
  }

  predicate HasId(options: seq<PollOption>, id: OptionId) {
    exists i :: 0 <= i < |options| && options[i].id == id
  }

  function IdSet(options: seq<PollOption>): (r: set<OptionId>)
    ensures forall id :: id in r <==> HasId(options, id)
  {
    set i | 0 <= i < |options| :: options[i].id
  }

  method HasOption(poll: Poll, id: OptionId) returns (r: bool)
    ensures r <==> HasId(poll.options, id)
  {
    for i := 0 to |poll.options|
      invariant forall j :: 0 <= j < i ==> poll.options[j].id != id
    {
      if poll.options[i].id == id {
        return true;
      }
    }
    return false;
  }
}
