/** The cache against the truth, over runs of calls that do not overlap. */
module Exactness {
  import opened Common
  import opened Polls
  import opened Votes
  import opened Counters
  import opened ResultService
  import opened Validation
  import opened Calls
  import opened Lifecycle

  // ---- One hash -------------------------------------------------------------------------

  /** A hash that can be read agrees with the stored votes for every option ID there
      could be. */
  ghost predicate Agrees(h: Hash, votes: seq<Vote>, p: PollId) {
    Readable(h) ==> forall o :: CountOf(h, o) == Tally(votes, p, o)
  }

  /** A hash that can be read never shows more votes than are stored. */
  ghost predicate Under(h: Hash, votes: seq<Vote>, p: PollId) {
    Readable(h) ==> forall o :: 0 <= CountOf(h, o) <= Tally(votes, p, o)
  }

  ghost predicate Refers(votes: seq<Vote>, poll: Poll) {
    forall v :: v in votes && v.poll == poll.id ==> HasId(poll.options, v.option)
  }

  /** A carried-out rebuild is exact whatever the hash held before, and leaves the
      hash readable for any poll that has options. */
  lemma RebuildIsExact(votes: seq<Vote>, h: Hash, poll: Poll, replace: Link)
    requires Refers(votes, poll) && Applied(replace)
    ensures var h' := AfterRebuild(votes, h, poll, true, replace);
            && (forall o :: CountOf(h', o) == Tally(votes, poll.id, o))
            && (|poll.options| > 0 ==> Readable(h'))
  {
    var counts := TallyMap(votes, poll);
    forall o ensures CountOf(ToHash(counts), o) == Tally(votes, poll.id, o) {
      TallyPositiveIff(votes, poll.id, o);
      if Tally(votes, poll.id, o) > 0 {
        var i :| 0 <= i < |votes| && votes[i].poll == poll.id && votes[i].option == o;
        assert votes[i] in votes && HasId(poll.options, o);
      }
    }
    if |poll.options| > 0 {
      assert HasId(poll.options, poll.options[0].id);
      assert poll.options[0].id in counts;
    }
  }

  lemma ForPollKeeps(votes: seq<Vote>, h: Hash, poll: Poll, f: ReadFaults)
    requires Refers(votes, poll)
    ensures Agrees(h, votes, poll.id) ==> Agrees(AfterForPoll(votes, h, poll, f), votes, poll.id)
    ensures Under(h, votes, poll.id) ==> Under(AfterForPoll(votes, h, poll, f), votes, poll.id)
  {
    if Applied(f.replace) {
      RebuildIsExact(votes, h, poll, f.replace);
    }
  }

  /** The increment of a stored vote keeps an exact hash exact unless it never reached a
      hash that could be read. */
  lemma RecordKeepsAgrees(votes: seq<Vote>, h: Hash, poll: Poll, v: Vote, increment: Link, aggregate: bool,
                          replace: Link)
    requires v.poll == poll.id && Refers(votes + [v], poll)
    requires Agrees(h, votes, poll.id) && (Applied(increment) || !Readable(h))
    ensures Agrees(AfterRecordVote(votes + [v], h, poll, v.option, increment, aggregate, replace), votes + [v], poll.id)
  {
    forall o { TallyAppend(votes, v, poll.id, o); }
    ScriptKeepsReadability(h, v.option);
    ColdReplyMeaning(h, v.option);
    if Applied(replace) {
      RebuildIsExact(votes + [v], Script(h, v.option).0, poll, replace);
    }
  }

  /** A vote that finds no hash does not start one of its own: it has the whole tally
      written, its own vote included. */
  lemma ColdVoteWritesTheWholeTally(votes: seq<Vote>, poll: Poll, v: Vote, replace: Link)
    requires v.poll == poll.id && Refers(votes + [v], poll) && Applied(replace) && |poll.options| > 0
    ensures var h := AfterRecordVote(votes + [v], map[], poll, v.option, Up, true, replace);
            Readable(h) && forall o :: CountOf(h, o) == Tally(votes + [v], poll.id, o)
  {
    RebuildIsExact(votes + [v], map[], poll, replace);
  }

  /** Reached or not, it never makes a counter too high. */
  lemma RecordKeepsUnder(votes: seq<Vote>, h: Hash, poll: Poll, v: Vote, increment: Link, aggregate: bool,
                         replace: Link)
    requires v.poll == poll.id && Refers(votes + [v], poll) && Under(h, votes, poll.id)
    ensures Under(AfterRecordVote(votes + [v], h, poll, v.option, increment, aggregate, replace), votes + [v], poll.id)
  {
    forall o { TallyAppend(votes, v, poll.id, o); }
    ScriptKeepsReadability(h, v.option);
    ColdReplyMeaning(h, v.option);
    if Applied(replace) {
      RebuildIsExact(votes + [v], Script(h, v.option).0, poll, replace);
    }
    assert Readable(h) ==> CountOf(h, v.option) >= 0;
  }

  /** Nothing a viewer can be told differs from the truth while the hash agrees. */
  lemma AgreeingHashAnswersTruly(votes: seq<Vote>, h: Hash, poll: Poll, f: ReadFaults, now: Time)
    requires Agrees(h, votes, poll.id)
    ensures ForPollAnswer(votes, h, poll, f, now) ==
      if ServedFromCache(h, f) || f.aggregate then Ok(TrueStanding(votes, poll, now)) else Err(Internal)
  {
    if ServedFromCache(h, f) {
      var a, b := FromHash(h), TallyMap(votes, poll);
      forall i | 0 <= i < |poll.options| ensures Lookup(a, poll.options[i].id) == Lookup(b, poll.options[i].id) {
        assert HasId(poll.options, poll.options[i].id);
        assert CountOf(h, poll.options[i].id) == Tally(votes, poll.id, poll.options[i].id);
      }
      SumOfEqual(Ids(poll.options), o => Lookup(a, o), o => Lookup(b, o));
      assert StandingOf(poll, a, now).options == StandingOf(poll, b, now).options;
    }
  }

  /** A viewer is told the truth if and only if the hash the answer was read from agrees,
      or the answer went through the votes collection. */
  lemma AnswerIsTrueIff(votes: seq<Vote>, h: Hash, poll: Poll, f: ReadFaults, now: Time)
    requires Refers(votes, poll) && Under(h, votes, poll.id)
    ensures ForPollAnswer(votes, h, poll, f, now) == Ok(TrueStanding(votes, poll, now))
       <==> if ServedFromCache(h, f) then Agrees(h, votes, poll.id) else f.aggregate
  {
    if Agrees(h, votes, poll.id) {
      AgreeingHashAnswersTruly(votes, h, poll, f, now);
    } else if ServedFromCache(h, f) {
      var o :| CountOf(h, o) != Tally(votes, poll.id, o);
      TallyPositiveIff(votes, poll.id, o);
      var v :| 0 <= v < |votes| && votes[v].poll == poll.id && votes[v].option == o;
      assert votes[v] in votes;
      var i :| 0 <= i < |poll.options| && poll.options[i].id == o;
      assert StandingOf(poll, FromHash(h), now).options[i].count == CountOf(h, o);
      assert TrueStanding(votes, poll, now).options[i].count == Tally(votes, poll.id, o);
    }
  }

  // ---- Runs ----------------------------------------------------------------------------------

  ghost predicate ExactAt(w: World, p: PollId) {
    Agrees(HashOf(w.hashes, p), w.votes, p)
  }

  ghost predicate Exact(w: World) {
    forall p :: p in w.polls ==> ExactAt(w, p)
  }

  ghost predicate NeverOver(w: World) {
    forall p :: p in w.polls ==> Under(HashOf(w.hashes, p), w.votes, p)
  }

  lemma LivePollRefers(w: World, p: PollId)
    requires WellFormed(w) && p in w.polls
    ensures w.polls[p].id == p && Refers(w.votes, w.polls[p])
  {
    assert GoodPoll(w, p);
    forall v | v in w.votes && v.poll == p ensures HasId(w.polls[p].options, v.option) {
      assert GoodVote(w, v);
    }
  }

  /** The increment of this call's vote is owed to a hash that can be read, and it
      does not arrive. */
  predicate MissesIncrement(w: World, p: PollId, o: OptionId, voter: VoterId, now: Time, f: CastFaults) {
    && Stores(w, p, o, voter, now, f)
    && Readable(HashOf(w.hashes, p))
    && (f.insert != Up || !Applied(f.increment))
  }

  /** The same call then also rebuilds the hash. */
  predicate Repairs(f: CastFaults) {
    f.insert == Up && f.read.read != Up && f.read.aggregate && Applied(f.read.replace)
  }

  lemma CastVotes(w: World, p: PollId, o: OptionId, voter: VoterId, now: Time, f: CastFaults)
    ensures var w' := CastStep(w, p, o, voter, now, f);
            && w'.polls == w.polls
            && w'.votes == if Stores(w, p, o, voter, now, f) then w.votes + [Vote(p, o, voter)] else w.votes
  {}

  /** The hash of a call that stores its vote and hears back. */
  function AfterCast(w: World, p: PollId, v: Vote, f: CastFaults): Hash
    requires p in w.polls
  {
    var votes := w.votes + [v];
    AfterForPoll(votes,
                 AfterRecordVote(votes, HashOf(w.hashes, p), w.polls[p], v.option, f.increment, f.coldAggregate,
                                 f.coldReplace),
                 w.polls[p], f.read)
  }

  lemma CastHash(w: World, p: PollId, o: OptionId, voter: VoterId, now: Time, f: CastFaults)
    requires WellFormed(w) && p in w.polls
    ensures HashOf(CastStep(w, p, o, voter, now, f).hashes, p) ==
      if Stores(w, p, o, voter, now, f) && f.insert == Up then AfterCast(w, p, Vote(p, o, voter), f)
      else HashOf(w.hashes, p)
  {
    assert GoodPoll(w, p);
  }

  lemma StoredVoteRefers(w: World, p: PollId, o: OptionId, voter: VoterId, now: Time, f: CastFaults)
    requires WellFormed(w) && Stores(w, p, o, voter, now, f)
    ensures p in w.polls && w.polls[p].id == p
    ensures Refers(w.votes, w.polls[p]) && Refers(w.votes + [Vote(p, o, voter)], w.polls[p])
  {
    LivePollRefers(w, p);
  }

  /** A Cast leaves an exact poll exact unless it misses its increment and does not
      repair the hash on the way out; then it leaves the poll one vote short. */
  lemma CastKeepsExactIff(w: World, p: PollId, o: OptionId, voter: VoterId, now: Time, f: CastFaults)
    requires WellFormed(w) && p in w.polls && ExactAt(w, p)
    ensures ExactAt(CastStep(w, p, o, voter, now, f), p)
       <==> !(MissesIncrement(w, p, o, voter, now, f) && !Repairs(f))
  {
    CastVotes(w, p, o, voter, now, f);
    CastHash(w, p, o, voter, now, f);
    if Stores(w, p, o, voter, now, f) {
      var h, v := HashOf(w.hashes, p), Vote(p, o, voter);
      StoredVoteRefers(w, p, o, voter, now, f);
      TallyAppend(w.votes, v, p, o);
      if f.insert == Up {
        if Applied(f.increment) || !Readable(h) {
          RecordKeepsAgrees(w.votes, h, w.polls[p], v, f.increment, f.coldAggregate, f.coldReplace);
        }
        ForPollKeeps(w.votes + [v],
                     AfterRecordVote(w.votes + [v], h, w.polls[p], o, f.increment, f.coldAggregate, f.coldReplace),
                     w.polls[p], f.read);
        if Applied(f.read.replace) {
          RebuildIsExact(w.votes + [v], h, w.polls[p], f.read.replace);
        }
      }
    }
  }

  lemma CastKeepsUnder(w: World, p: PollId, o: OptionId, voter: VoterId, now: Time, f: CastFaults)
    requires WellFormed(w) && p in w.polls && Under(HashOf(w.hashes, p), w.votes, p)
    ensures Under(HashOf(CastStep(w, p, o, voter, now, f).hashes, p), CastStep(w, p, o, voter, now, f).votes, p)
  {
    CastVotes(w, p, o, voter, now, f);
    CastHash(w, p, o, voter, now, f);
    if Stores(w, p, o, voter, now, f) {
      var h, v := HashOf(w.hashes, p), Vote(p, o, voter);
      StoredVoteRefers(w, p, o, voter, now, f);
      forall x { TallyAppend(w.votes, v, p, x); }
      if f.insert == Up {
        RecordKeepsUnder(w.votes, h, w.polls[p], v, f.increment, f.coldAggregate, f.coldReplace);
        ForPollKeeps(w.votes + [v],
                     AfterRecordVote(w.votes + [v], h, w.polls[p], o, f.increment, f.coldAggregate, f.coldReplace),
                     w.polls[p], f.read);
      }
    }
  }

  predicate Drifts(w: World, op: Op) {
    op.Cast? && MissesIncrement(w, op.p, op.o, op.voter, op.now, op.cast) && !Repairs(op.cast)
  }

  /** Whether a Close gets as far as reading the standing it announces. */
  predicate CloseReads(w: World, owner: UserId, p: PollId, find: bool, link: Link) {
    var found := FindOwned(w.polls, owner, p, find);
    found.Ok? && found.value.status == Active && link == Up
  }

  lemma ReadHash(w: World, p: PollId, find: bool, f: ReadFaults)
    requires p in w.polls && w.polls[p].id == p
    ensures var w' := ReadStep(w, p, find, f);
            && w'.votes == w.votes
            && HashOf(w'.hashes, p) == if find then AfterForPoll(w.votes, HashOf(w.hashes, p), w.polls[p], f)
                                       else HashOf(w.hashes, p)
  {}

  lemma CloseHash(w: World, owner: UserId, p: PollId, now: Time, find: bool, link: Link, f: ReadFaults, publish: bool)
    requires p in w.polls && w.polls[p].id == p
    ensures var w' := CloseStep(w, owner, p, now, find, link, f, publish);
            && w'.votes == w.votes
            && HashOf(w'.hashes, p) == if CloseReads(w, owner, p, find, link)
                                       then AfterForPoll(w.votes, HashOf(w.hashes, p), w.polls[p], f)
                                       else HashOf(w.hashes, p)
  {}

  /** What a call other than a Cast makes of one poll's hash: the votes are the same, and
      the hash is unchanged, what a read or a rebuild leaves, empty or junk. */
  lemma OtherStepHash(w: World, op: Op, lower: Folding, p: PollId)
    requires WellFormed(w) && Legal(w, op) && !op.Cast? && p == Subject(w, op)
    requires p in w.polls && p in Step(w, op, lower).polls
    ensures var h, h' := HashOf(w.hashes, p), HashOf(Step(w, op, lower).hashes, p);
            && Step(w, op, lower).votes == w.votes
            && match op
               case Read(_, find, f) => h' == if find then AfterForPoll(w.votes, h, w.polls[p], f) else h
               case Close(owner, _, _, find, link, f, _) =>
                 h' == if CloseReads(w, owner, p, find, link) then AfterForPoll(w.votes, h, w.polls[p], f) else h
               case Rebuild(_, aggregate, link) => h' == AfterRebuild(w.votes, h, w.polls[p], aggregate, link)
               case Expire(_) => h' == map[]
               case Corrupt(_, junk) => h' == junk
               case _ => h' == h
  {
    assert GoodPoll(w, p);
    match op
    case Read(_, find, f) => ReadHash(w, p, find, f);
    case Close(owner, _, now, find, link, f, publish) => CloseHash(w, owner, p, now, find, link, f, publish);
    case _ =>
  }

  lemma OtherStepKeeps(w: World, op: Op, lower: Folding, p: PollId)
    requires WellFormed(w) && Legal(w, op) && !op.Cast?
    requires p in w.polls && p in Step(w, op, lower).polls
    ensures ExactAt(w, p) ==> ExactAt(Step(w, op, lower), p)
    ensures Under(HashOf(w.hashes, p), w.votes, p) ==>
            Under(HashOf(Step(w, op, lower).hashes, p), Step(w, op, lower).votes, p)
  {
    if p != Subject(w, op) {
      StepIsLocal(w, op, lower, p);
    } else {
      var h, poll := HashOf(w.hashes, p), w.polls[p];
      LivePollRefers(w, p);
      OtherStepHash(w, op, lower, p);
      match op
      case Read(_, _, f) => ForPollKeeps(w.votes, h, poll, f);
      case Rebuild(_, _, link) => if Applied(link) { RebuildIsExact(w.votes, h, poll, link); }
      case Close(_, _, _, _, _, f, _) => ForPollKeeps(w.votes, h, poll, f);
      case _ =>
    }
  }

  /** A poll has no votes and no counters on the day it is created. */
  lemma NewPollIsExact(w: World, op: Op, lower: Folding, p: PollId)
    requires WellFormed(w) && Legal(w, op)
    requires p !in w.polls && p in Step(w, op, lower).polls
    ensures HashOf(Step(w, op, lower).hashes, p) == map[] && Count(Step(w, op, lower).votes, p) == 0
  {
    assert op.Create? && p == w.nextId;
    StepVotes(w, op, lower);
    CountPositiveIff(w.votes, p);
    forall i | 0 <= i < |w.votes| ensures w.votes[i].poll != p {
      assert GoodVote(w, w.votes[i]);
    }
  }

  lemma StepKeepsExact(w: World, op: Op, lower: Folding)
    requires WellFormed(w) && Legal(w, op)
    ensures Exact(w) && !Drifts(w, op) ==> Exact(Step(w, op, lower))
    ensures NeverOver(w) ==> NeverOver(Step(w, op, lower))
  {
    var w' := Step(w, op, lower);
    forall p | p in w'.polls
      ensures Exact(w) && !Drifts(w, op) ==> ExactAt(w', p)
      ensures NeverOver(w) ==> Under(HashOf(w'.hashes, p), w'.votes, p)
    {
      if p !in w.polls {
        NewPollIsExact(w, op, lower, p);
      } else if !op.Cast? {
        OtherStepKeeps(w, op, lower, p);
      } else if p != op.p {
        StepIsLocal(w, op, lower, p);
      } else {
        if ExactAt(w, p) {
          CastKeepsExactIff(w, p, op.o, op.voter, op.now, op.cast);
        }
        if Under(HashOf(w.hashes, p), w.votes, p) {
          CastKeepsUnder(w, p, op.o, op.voter, op.now, op.cast);
        }
      }
    }
  }

  lemma {:induction false} RunInvariants(ws: seq<World>, ops: seq<Op>, lower: Folding, n: nat)
    requires IsRun(ws, ops, lower) && n <= |ops|
    ensures WellFormed(ws[n]) && NeverOver(ws[n])
    ensures (forall i :: 0 <= i < n ==> !Drifts(ws[i], ops[i])) ==> Exact(ws[n])
  {
    if n > 0 {
      RunInvariants(ws, ops, lower, n - 1);
      assert Legal(ws[n - 1], ops[n - 1]);
      StepKeepsWellFormed(ws[n - 1], ops[n - 1], lower);
      StepKeepsExact(ws[n - 1], ops[n - 1], lower);
    }
  }

  lemma TrueTotal(w: World, p: PollId)
    requires WellFormed(w) && p in w.polls
    ensures Sum(Ids(w.polls[p].options), o => Lookup(TallyMap(w.votes, w.polls[p]), o)) == Count(w.votes, p)
  {
    var poll := w.polls[p];
    LivePollRefers(w, p);
    assert GoodPoll(w, p);
    forall v | v in w.votes && v.poll == p ensures v.option in Ids(poll.options) {
      var i :| 0 <= i < |poll.options| && poll.options[i].id == v.option;
      assert Ids(poll.options)[i] == v.option;
    }
    TalliesAddUp(Ids(poll.options), w.votes, p);
    forall i | 0 <= i < |poll.options| ensures HasId(poll.options, Ids(poll.options)[i]) {}
    SumOfEqual(Ids(poll.options), o => Lookup(TallyMap(w.votes, poll), o), o => Tally(w.votes, p, o));
  }

  lemma RebuildRepairs(w: World, p: PollId, replace: Link, lower: Folding)
    requires WellFormed(w) && p in w.polls && Applied(replace)
    ensures var w' := Step(w, Rebuild(p, true, replace), lower);
            ExactAt(w', p) && Readable(HashOf(w'.hashes, p))
  {
    LivePollRefers(w, p);
    assert GoodPoll(w, p);
    RebuildIsExact(w.votes, HashOf(w.hashes, p), w.polls[p], replace);
  }

  /** Runs in which increments may also go missing: no counter is ever too high, every
      answer that went through the votes collection is exact, and one carried-out
      rebuild makes the poll exact and its hash readable again. */
  lemma DriftIsOnlyDownwardAndRepairable(ws: seq<World>, ops: seq<Op>, lower: Folding,
                                         p: PollId, f: ReadFaults, replace: Link, now: Time)
    requires IsRun(ws, ops, lower) && p in ws[|ops|].polls
    ensures var w := ws[|ops|]; var h := HashOf(w.hashes, p);
            && Under(h, w.votes, p)
            && (!ServedFromCache(h, f) && f.aggregate ==>
                  ReadAnswer(w, p, true, f, now) == Ok(TrueStanding(w.votes, w.polls[p], now)))
            && (Applied(replace) ==>
                  var w' := Step(w, Rebuild(p, true, replace), lower);
                  ExactAt(w', p) && Readable(HashOf(w'.hashes, p)))
  {
    RunInvariants(ws, ops, lower, |ops|);
    LivePollRefers(ws[|ops|], p);
    if Applied(replace) {
      RebuildRepairs(ws[|ops|], p, replace, lower);
    }
  }
}
