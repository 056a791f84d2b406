/** The step-by-step model of overlapping calls, restricted to one call at a time, is the
    model of whole calls: same votes, same hash, same answer, whatever fails. */
module Alone {
  import opened Common
  import opened Polls
  import opened Votes
  import opened Counters
  import opened ResultService
  import opened Calls
  import opened Concurrent
  import opened Drift
  import Exactness

  // ---- One poll's share of the votes collection -------------------------------------------

  function Only(votes: seq<Vote>, p: PollId): seq<Vote> {
    if |votes| == 0 then []
    else
      var last := votes[|votes| - 1];
      Only(votes[..|votes| - 1], p) + (if last.poll == p then [last] else [])
  }

  lemma OnlyAppend(votes: seq<Vote>, v: Vote, p: PollId)
    ensures Only(votes + [v], p) == Only(votes, p) + (if v.poll == p then [v] else [])
  {
    assert (votes + [v])[..|votes|] == votes;
  }

  lemma {:induction false} OnlyKeepsTallies(votes: seq<Vote>, p: PollId, o: OptionId)
    ensures Tally(Only(votes, p), p, o) == Tally(votes, p, o)
  {
    if |votes| > 0 {
      var front, last := votes[..|votes| - 1], votes[|votes| - 1];
      OnlyKeepsTallies(front, p, o);
      assert Only(votes, p) == if last.poll == p then Only(front, p) + [last] else Only(front, p);
      TallyAppend(Only(front, p), last, p, o);
    }
  }

  lemma {:induction false} OnlyKeepsVoters(votes: seq<Vote>, p: PollId, voter: VoterId)
    ensures HasVoted(Only(votes, p), p, voter) <==> HasVoted(votes, p, voter)
  {
    if |votes| > 0 {
      var front, last := votes[..|votes| - 1], votes[|votes| - 1];
      OnlyKeepsVoters(front, p, voter);
      assert Only(votes, p) == if last.poll == p then Only(front, p) + [last] else Only(front, p);
      OneMore(front, last, p, voter);
      OneMore(Only(front, p), last, p, voter);
      assert votes == front + [last];
    }
  }

  lemma OneMore(votes: seq<Vote>, v: Vote, p: PollId, voter: VoterId)
    ensures HasVoted(votes + [v], p, voter) <==> HasVoted(votes, p, voter) || (v.poll == p && v.voter == voter)
  {
    if HasVoted(votes, p, voter) {
      var i :| 0 <= i < |votes| && votes[i].poll == p && votes[i].voter == voter;
      assert (votes + [v])[i] == votes[i];
    }
    assert (votes + [v])[|votes|] == v;
  }

  // ---- Two views of one poll -----------------------------------------------------------------

  /** The votes and the options one poll has in both models. */
  ghost predicate SameVotes(s: State, votes: seq<Vote>, poll: Poll) {
    s.poll == poll.id && s.options == IdSet(poll.options) && s.log == Only(votes, poll.id)
  }

  ghost predicate Mirrors(s: State, w: World, p: PollId) {
    p in w.polls && w.polls[p].id == p && SameVotes(s, w.votes, w.polls[p]) && s.hash == HashOf(w.hashes, p)
  }

  lemma SameTallies(s: State, votes: seq<Vote>, poll: Poll)
    requires SameVotes(s, votes, poll)
    ensures TallyHash(s, |s.log|) == ToHash(TallyMap(votes, poll))
  {
    assert s.log[..|s.log|] == s.log;
    forall o | o in s.options ensures Tally(s.log, s.poll, o) == Tally(votes, poll.id, o) {
      OnlyKeepsTallies(votes, poll.id, o);
    }
    assert (map o | o in s.options :: Tally(s.log[..|s.log|], s.poll, o)) == TallyMap(votes, poll);
  }

  /** What a finished call was told, as the model of whole calls puts it. */
  ghost predicate SameAnswer(pc: Pc, answer: Result<Results>, poll: Poll) {
    && (answer.Ok? <==> pc.Answered?)
    && (answer.Err? <==> pc == Failed)
    && (answer.Ok? ==> && |answer.value.options| == |poll.options|
                       && forall i :: 0 <= i < |poll.options| ==>
                            && answer.value.options[i].id == poll.options[i].id
                            && answer.value.options[i].count == CountOf(pc.counts, poll.options[i].id))
  }

  // ---- The stages of a call --------------------------------------------------------------------

  lemma RebuildAlone(s: State, pid: Pid, votes: seq<Vote>, poll: Poll, aggregate: bool, replace: Link)
    requires SameVotes(s, votes, poll) && pid in s.procs && s.procs[pid].pc.Aggregate?
    ensures var t := Run(s, AskedRebuild(pid, aggregate, replace));
            && SameVotes(t, votes, poll) && t.hash == AfterRebuild(votes, s.hash, poll, aggregate, replace)
            && pid in t.procs
            && t.procs[pid].pc == if s.procs[pid].pc.caller == Maintenance then Read
                                  else if aggregate then Answered(ToHash(TallyMap(votes, poll)), Some(|s.log|))
                                  else Failed
  {
    RunPair(s, RunAggregate(pid, aggregate), RunReplace(pid, replace));
    SameTallies(s, votes, poll);
  }

  lemma NothingAsked(s: State, pid: Pid, aggregate: bool, replace: Link)
    requires pid in s.procs ==> !s.procs[pid].pc.Aggregate? && !s.procs[pid].pc.Replace?
    ensures Run(s, AskedRebuild(pid, aggregate, replace)) == s
  {
    RunPair(s, RunAggregate(pid, aggregate), RunReplace(pid, replace));
  }

  lemma RecordAlone(s: State, pid: Pid, votes: seq<Vote>, poll: Poll, i: nat, increment: Link, aggregate: bool,
                    replace: Link)
    requires SameVotes(s, votes, poll) && At(s, pid, i) && i < |s.log|
    ensures var t := Run(Step(s, RunIncrement(pid, increment)), AskedRebuild(pid, aggregate, replace));
            && SameVotes(t, votes, poll) && pid in t.procs && t.procs[pid].pc == Read
            && t.hash == AfterRecordVote(votes, s.hash, poll, s.log[i].option, increment, aggregate, replace)
  {
    var counted := Step(s, RunIncrement(pid, increment));
    if counted.procs[pid].pc.Aggregate? {
      RebuildAlone(counted, pid, votes, poll, aggregate, replace);
    } else {
      NothingAsked(counted, pid, aggregate, replace);
    }
  }

  lemma ReadAlone(s: State, pid: Pid, votes: seq<Vote>, poll: Poll, f: ReadFaults, now: Time)
    requires SameVotes(s, votes, poll) && pid in s.procs && s.procs[pid].pc == Read
    ensures var t := Run(s, WholeRead(pid, f));
            && SameVotes(t, votes, poll) && t.hash == AfterForPoll(votes, s.hash, poll, f)
            && pid in t.procs && SameAnswer(t.procs[pid].pc, ForPollAnswer(votes, s.hash, poll, f, now), poll)
  {
    var read := Step(s, RunRead(pid, f.read));
    WholeReadUnrolled(s, pid, f);
    if ServedFromCache(s.hash, f) {
      NothingAsked(read, pid, f.aggregate, f.replace);
    } else {
      RebuildAlone(read, pid, votes, poll, f.aggregate, f.replace);
    }
  }

  // ---- Whole calls ---------------------------------------------------------------------------------

  /** Nothing more comes of a call that failed or never began. */
  lemma FailedStays(s: State, pid: Pid, f: CastFaults)
    requires pid in s.procs ==> s.procs[pid].pc == Failed
    ensures Step(s, RunIncrement(pid, f.increment)) == s
    ensures Run(Run(s, AskedRebuild(pid, f.coldAggregate, f.coldReplace)), WholeRead(pid, f.read)) == s
  {
    NothingAsked(s, pid, f.coldAggregate, f.coldReplace);
    WholeReadUnrolled(s, pid, f.read);
    NothingAsked(s, pid, f.read.aggregate, f.read.replace);
  }

  lemma StoredAlone(inserted: State, w: World, p: PollId, pid: Pid, o: OptionId, voter: VoterId, now: Time,
                    f: CastFaults)
    requires p in w.polls && w.polls[p].id == p && Stores(w, p, o, voter, now, f) && f.insert == Up
    requires SameVotes(inserted, w.votes + [Vote(p, o, voter)], w.polls[p]) && inserted.hash == HashOf(w.hashes, p)
    requires |inserted.log| > 0 && At(inserted, pid, |inserted.log| - 1)
    requires inserted.log[|inserted.log| - 1].option == o
    ensures var recorded := Run(Step(inserted, RunIncrement(pid, f.increment)),
                                AskedRebuild(pid, f.coldAggregate, f.coldReplace));
            var t := Run(recorded, WholeRead(pid, f.read));
            && Mirrors(t, Calls.CastStep(w, p, o, voter, now, f), p)
            && t.hash == Exactness.AfterCast(w, p, Vote(p, o, voter), f)
            && pid in t.procs && SameAnswer(t.procs[pid].pc, CastAnswer(w, p, o, voter, now, f), w.polls[p])
  {
    var votes, poll := w.votes + [Vote(p, o, voter)], w.polls[p];
    var recorded := Run(Step(inserted, RunIncrement(pid, f.increment)),
                        AskedRebuild(pid, f.coldAggregate, f.coldReplace));
    RecordAlone(inserted, pid, votes, poll, |inserted.log| - 1, f.increment, f.coldAggregate, f.coldReplace);
    ReadAlone(recorded, pid, votes, poll, f.read, now);
    Exactness.CastVotes(w, p, o, voter, now, f);
  }

  /** The vote goes in and the reply comes back. */
  lemma AnsweredInsertAlone(s: State, w: World, p: PollId, pid: Pid, o: OptionId, voter: VoterId, now: Time,
                            f: CastFaults)
    requires Mirrors(s, w, p) && pid !in s.procs && Stores(w, p, o, voter, now, f) && f.insert == Up
    ensures var t := Run(s, WholeCast(pid, o, voter, f));
            && Mirrors(t, Calls.CastStep(w, p, o, voter, now, f), p)
            && t.hash == Exactness.AfterCast(w, p, Vote(p, o, voter), f)
            && pid in t.procs && SameAnswer(t.procs[pid].pc, CastAnswer(w, p, o, voter, now, f), w.polls[p])
  {
    OnlyKeepsVoters(w.votes, p, voter);
    WholeCastUnrolled(s, pid, o, voter, f);
    OnlyAppend(w.votes, Vote(p, o, voter), p);
    StoredAlone(Step(s, Cast(pid, o, voter, f.insert)), w, p, pid, o, voter, now, f);
  }

  /** The vote goes in and the reply is lost. */
  lemma LostInsertAlone(s: State, w: World, p: PollId, pid: Pid, o: OptionId, voter: VoterId, now: Time, f: CastFaults)
    requires Mirrors(s, w, p) && pid !in s.procs && Stores(w, p, o, voter, now, f) && f.insert == ReplyLost
    ensures var t := Run(s, WholeCast(pid, o, voter, f));
            && Mirrors(t, Calls.CastStep(w, p, o, voter, now, f), p)
            && pid in t.procs && SameAnswer(t.procs[pid].pc, CastAnswer(w, p, o, voter, now, f), w.polls[p])
  {
    OnlyKeepsVoters(w.votes, p, voter);
    WholeCastUnrolled(s, pid, o, voter, f);
    OnlyAppend(w.votes, Vote(p, o, voter), p);
    FailedStays(Step(s, Cast(pid, o, voter, f.insert)), pid, f);
  }

  /** The vote does not go in. */
  lemma RefusedInsertAlone(s: State, w: World, p: PollId, pid: Pid, o: OptionId, voter: VoterId, now: Time,
                           f: CastFaults)
    requires Mirrors(s, w, p) && pid !in s.procs && CastRefusal(w, p, o, voter, now, f.find).None?
    requires !Stores(w, p, o, voter, now, f)
    ensures Run(s, WholeCast(pid, o, voter, f)) == s
    ensures Calls.CastStep(w, p, o, voter, now, f) == w
  {
    OnlyKeepsVoters(w.votes, p, voter);
    WholeCastUnrolled(s, pid, o, voter, f);
    FailedStays(s, pid, f);
  }

  /** A Cast of a valid choice that runs with nothing beside it leaves one poll's votes and
      hash as the whole-call model says, stored or not, and answers the same. */
  lemma CastAloneIsTheCall(s: State, w: World, p: PollId, pid: Pid, o: OptionId, voter: VoterId, now: Time,
                           f: CastFaults)
    requires Mirrors(s, w, p) && pid !in s.procs && CastRefusal(w, p, o, voter, now, f.find).None?
    ensures var t := Run(s, WholeCast(pid, o, voter, f));
            && Mirrors(t, Calls.CastStep(w, p, o, voter, now, f), p)
            && (Stores(w, p, o, voter, now, f) <==> pid in t.procs)
            && (Stores(w, p, o, voter, now, f) ==>
                  SameAnswer(t.procs[pid].pc, CastAnswer(w, p, o, voter, now, f), w.polls[p]))
            && (Stores(w, p, o, voter, now, f) && f.insert == Up ==>
                  t.hash == Exactness.AfterCast(w, p, Vote(p, o, voter), f))
  {
    if !Stores(w, p, o, voter, now, f) {
      RefusedInsertAlone(s, w, p, pid, o, voter, now, f);
    } else if f.insert == Up {
      AnsweredInsertAlone(s, w, p, pid, o, voter, now, f);
    } else {
      LostInsertAlone(s, w, p, pid, o, voter, now, f);
    }
  }

  /** A viewer's read that runs with nothing beside it is the whole-call model's read. */
  lemma ViewAloneIsTheRead(s: State, w: World, p: PollId, pid: Pid, now: Time, f: ReadFaults)
    requires Mirrors(s, w, p) && pid !in s.procs
    ensures var t := Run(s, [View(pid)] + WholeRead(pid, f));
            && Mirrors(t, Calls.ReadStep(w, p, true, f), p)
            && pid in t.procs && SameAnswer(t.procs[pid].pc, ReadAnswer(w, p, true, f, now), w.polls[p])
  {
    RunTwice(s, [View(pid)], WholeRead(pid, f));
    Unroll(s, [], View(pid));
    assert [] + [View(pid)] == [View(pid)];
    ReadAlone(Step(s, View(pid)), pid, w.votes, w.polls[p], f, now);
  }
}
