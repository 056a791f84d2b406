/** Reading a poll's standing through the counter cache
    (backend/internal/services/result_service.go). */
module ResultService {
  import opened Common
  import opened Polls
  import opened Votes
  import opened Counters

  datatype OptionResult = OptionResult(id: OptionId, text: string, count: int)

  datatype Results = Results(
    poll: PollId,
    options: seq<OptionResult>,
    total: int,
    status: Status,
    computedAt: Time)

  /** What the remote stores do during one read of a standing: the counter read,
      the aggregation and the counter replacement. */
  datatype ReadFaults = ReadFaults(read: Link, aggregate: bool, replace: Link)

  // ---- What a standing is -------------------------------------------------------

  function Lookup(counts: map<OptionId, int>, o: OptionId): int {
    if o in counts then counts[o] else 0
  }

  /** Every option in declared order, with its text and its count. */
  function StandingOf(poll: Poll, counts: map<OptionId, int>, now: Time): Results {
    Results(poll.id,
            Map((o: PollOption) => OptionResult(o.id, o.text, Lookup(counts, o.id)), poll.options),
            Sum(Ids(poll.options), o => Lookup(counts, o)),
            poll.EffectiveStatus(now),
            now)
  }

  /** The authoritative counts: every declared option, zeroes included. */
  function TallyMap(votes: seq<Vote>, poll: Poll): map<OptionId, int> {
    map o | o in IdSet(poll.options) :: Tally(votes, poll.id, o)
  }

  function TrueStanding(votes: seq<Vote>, poll: Poll, now: Time): Results {
    StandingOf(poll, TallyMap(votes, poll), now)
  }

  // ---- What the calls do to one poll's hash, and what they answer ------------------

  function AfterRebuild(votes: seq<Vote>, h: Hash, poll: Poll, aggregate: bool, replace: Link): Hash {
    if aggregate && Applied(replace) then ToHash(TallyMap(votes, poll)) else h
  }

  function RebuildAnswer(votes: seq<Vote>, poll: Poll, aggregate: bool, now: Time): Result<Results> {
    if aggregate then Ok(TrueStanding(votes, poll, now)) else Err(Internal)
  }

  predicate ServedFromCache(h: Hash, f: ReadFaults) {
    f.read == Up && Readable(h)
  }

  function AfterForPoll(votes: seq<Vote>, h: Hash, poll: Poll, f: ReadFaults): Hash {
    if ServedFromCache(h, f) then h else AfterRebuild(votes, h, poll, f.aggregate, f.replace)
  }

  function ForPollAnswer(votes: seq<Vote>, h: Hash, poll: Poll, f: ReadFaults, now: Time): Result<Results> {
    if ServedFromCache(h, f) then Ok(StandingOf(poll, FromHash(h), now))
    else RebuildAnswer(votes, poll, f.aggregate, now)
  }

  function AfterRecordVote(votes: seq<Vote>, h: Hash, poll: Poll, o: OptionId,
                           increment: Link, aggregate: bool, replace: Link): Hash
  {
    if !Applied(increment) then h
    else
      var (h', reply) := Script(h, o);
      if increment == Up && reply == Reply(COLD_KEY) then AfterRebuild(votes, h', poll, aggregate, replace) else h'
  }

  class ResultReader {
    const votes: VoteCollection
    const counters: CounterStore

    constructor (votes: VoteCollection, counters: CounterStore)
      ensures this.votes == votes && this.counters == counters
    {
      this.votes := votes;
      this.counters := counters;
    }

    method Assemble(poll: Poll, counts: map<OptionId, int>, now: Time) returns (r: Results)
      ensures r == StandingOf(poll, counts, now)
    {
      var options: seq<OptionResult> := [];
      var total := 0;
      for i := 0 to |poll.options|
        invariant |options| == i
        invariant forall j :: 0 <= j < i ==>
          options[j] == OptionResult(poll.options[j].id, poll.options[j].text, Lookup(counts, poll.options[j].id))
        invariant total == Sum(Ids(poll.options)[..i], o => Lookup(counts, o))
      {
        var option := poll.options[i];
        var count := Lookup(counts, option.id);
        assert Ids(poll.options)[..i + 1][..i] == Ids(poll.options)[..i];
        total := total + count;
        options := options + [OptionResult(option.id, option.text, count)];
      }
      assert Ids(poll.options)[..|poll.options|] == Ids(poll.options);
      r := Results(poll.id, options, total, poll.EffectiveStatus(now), now);
      assert r.options == StandingOf(poll, counts, now).options;
    }

    /** Seeds every option at zero, overlays the aggregated rows, drops rows for
        options the poll does not have. */
    method Rebuild(poll: Poll, aggregate: bool, replace: Link, now: Time) returns (r: Result<Results>)
      modifies counters
      ensures counters.hashes == if aggregate && Applied(replace)
                                 then Put(old(counters.hashes), poll.id, ToHash(TallyMap(votes.docs, poll)))
                                 else old(counters.hashes)
      ensures r == RebuildAnswer(votes.docs, poll, aggregate, now)
    {
      var counted := votes.CountsByPoll(poll.id, aggregate);
      if counted.Err? {
        return Err(counted.code);
      }
      var rows := counted.value;
      var byOption: map<OptionId, int> := map[];
      for i := 0 to |poll.options|
        invariant forall o :: o in byOption <==> exists j :: 0 <= j < i && poll.options[j].id == o
        invariant forall o :: o in byOption ==> byOption[o] == 0
      {
        byOption := byOption[poll.options[i].id := 0];
      }
      for i := 0 to |rows|
        invariant byOption.Keys == IdSet(poll.options)
        invariant forall o :: o in byOption ==>
          byOption[o] == if exists j :: 0 <= j < i && rows[j].option == o then Tally(votes.docs, poll.id, o) else 0
      {
        if rows[i].option in byOption {
          byOption := byOption[rows[i].option := rows[i].count];
        }
      }
      assert byOption == TallyMap(votes.docs, poll);
      var _ := counters.ReplaceResults(poll.id, byOption, replace);
      var standing := Assemble(poll, byOption, now);
      return Ok(standing);
    }

    method ForPoll(poll: Poll, f: ReadFaults, now: Time) returns (r: Result<Results>)
      modifies counters
      ensures SameBut(old(counters.hashes), counters.hashes, poll.id,
                      AfterForPoll(votes.docs, HashOf(old(counters.hashes), poll.id), poll, f))
      ensures r == ForPollAnswer(votes.docs, HashOf(old(counters.hashes), poll.id), poll, f, now)
    {
      var cached := counters.Results(poll.id, f.read);
      if cached.Ok? && cached.value.Some? {
        var standing := Assemble(poll, cached.value.value, now);
        return Ok(standing);
      }
      r := Rebuild(poll, f.aggregate, f.replace, now);
    }

    method RecordVote(poll: Poll, o: OptionId, increment: Link, aggregate: bool, replace: Link, now: Time)
      modifies counters
      ensures SameBut(old(counters.hashes), counters.hashes, poll.id,
                      AfterRecordVote(votes.docs, HashOf(old(counters.hashes), poll.id), poll, o, increment,
                                      aggregate, replace))
    {
      var warm := counters.IncrementOption(poll.id, o, increment);
      if warm.Err? {
        return;
      }
      if !warm.value {
        var _ := Rebuild(poll, aggregate, replace, now);
      }
    }
  }

  /** One poll's hash became `h`; every other poll's hash is what it was. */
  ghost predicate SameBut(before: map<PollId, Hash>, after: map<PollId, Hash>, p: PollId, h: Hash) {
    && HashOf(after, p) == h
    && forall q :: q != p ==> HashOf(after, q) == HashOf(before, q)
  }
}
