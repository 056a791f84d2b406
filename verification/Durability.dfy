/** What no later call can undo: stored votes, the content of a poll that has votes,
    and a closed status. */
module Durability {
  import opened Common
  import opened Polls
  import opened Votes
  import opened Counters
  import opened ResultService
  import opened Validation
  import opened Calls
  import opened Lifecycle
  import opened Exactness
  import opened Shortfall

  // ---- One Cast -------------------------------------------------------------------------

  /** A Cast leaves a trace exactly when its vote is stored; success means stored, and
      the only failure that stores is the one whose insert reply was lost or whose
      final read failed. */
  lemma CastChangesNothingIffNotStored(w: World, p: PollId, o: OptionId, voter: VoterId, now: Time, f: CastFaults)
    ensures CastStep(w, p, o, voter, now, f) == w <==> !Stores(w, p, o, voter, now, f)
    ensures CastAnswer(w, p, o, voter, now, f).Ok? ==> Stores(w, p, o, voter, now, f)
    ensures Stores(w, p, o, voter, now, f) && CastAnswer(w, p, o, voter, now, f).Err? ==>
      f.insert == ReplyLost || (f.read.read != Up || !f.read.aggregate)
    ensures HasVoted(w.votes, p, voter) ==> !Stores(w, p, o, voter, now, f)
  {
    CastVotes(w, p, o, voter, now, f);
    if Stores(w, p, o, voter, now, f) {
      assert |CastStep(w, p, o, voter, now, f).votes| == |w.votes| + 1;
    }
  }

  /** The answer and the hash a stored Cast leaves: it answers the truth, own vote included,
      if and only if it did not read the cache or leaves the poll exact. */
  lemma CastAnswersByTheHash(w: World, p: PollId, o: OptionId, voter: VoterId, now: Time, f: CastFaults)
    requires WellFormed(w) && p in w.polls && Under(HashOf(w.hashes, p), w.votes, p)
    requires Stores(w, p, o, voter, now, f) && f.insert == Up && CastAnswer(w, p, o, voter, now, f).Ok?
    ensures CastAnswer(w, p, o, voter, now, f).value == TrueStanding(w.votes + [Vote(p, o, voter)], w.polls[p], now)
       <==> f.read.read != Up || ExactAt(CastStep(w, p, o, voter, now, f), p)
  {
    var h, v, poll := HashOf(w.hashes, p), Vote(p, o, voter), w.polls[p];
    var votes := w.votes + [v];
    var h' := AfterRecordVote(votes, h, poll, o, f.increment, f.coldAggregate, f.coldReplace);
    CastVotes(w, p, o, voter, now, f);
    CastHash(w, p, o, voter, now, f);
    StoredVoteRefers(w, p, o, voter, now, f);
    RecordKeepsUnder(w.votes, h, poll, v, f.increment, f.coldAggregate, f.coldReplace);
    AnswerIsTrueIff(votes, h', poll, f.read, now);
    ForPollKeeps(votes, h', poll, f.read);
  }

  /** On an exact poll a voter is answered wrongly if and only if the increment went missing
      and the cache served the answer. */
  lemma CastAnswersTruly(w: World, p: PollId, o: OptionId, voter: VoterId, now: Time, f: CastFaults)
    requires WellFormed(w) && p in w.polls && ExactAt(w, p)
    requires CastAnswer(w, p, o, voter, now, f).Ok?
    ensures CastAnswer(w, p, o, voter, now, f).value == TrueStanding(w.votes + [Vote(p, o, voter)], w.polls[p], now)
       <==> !(MissesIncrement(w, p, o, voter, now, f) && f.read.read == Up)
  {
    CastChangesNothingIffNotStored(w, p, o, voter, now, f);
    CastAnswersByTheHash(w, p, o, voter, now, f);
    CastKeepsExactIff(w, p, o, voter, now, f);
  }

  lemma CastPublishes(w: World, p: PollId, o: OptionId, voter: VoterId, now: Time, f: CastFaults)
    ensures var answer := CastAnswer(w, p, o, voter, now, f);
            CastStep(w, p, o, voter, now, f).published ==
              if answer.Ok? && f.publish then w.published + [answer.value] else w.published
  {}

  /** What closing announces is the poll's true standing, shown as closed, if and only if it
      did not read the cache or leaves the poll exact. */
  lemma ClosePublishesTruly(w: World, owner: UserId, p: PollId, now: Time, find: bool, link: Link, f: ReadFaults,
                            publish: bool)
    requires WellFormed(w) && p in w.polls && Under(HashOf(w.hashes, p), w.votes, p)
    ensures var w' := CloseStep(w, owner, p, now, find, link, f, publish);
            || w'.published == w.published
            || (p in w'.polls && w'.polls[p].status == Closed && w'.votes == w.votes
                && Announces(w, w', p, now, f.read != Up || ExactAt(w', p)))
  {
    if CloseReads(w, owner, p, find, link) {
      var poll := w.polls[p].(status := Closed);
      LivePollRefers(w, p);
      CloseHash(w, owner, p, now, find, link, f, publish);
      AnswerIsTrueIff(w.votes, HashOf(w.hashes, p), poll, f, now);
      ForPollKeeps(w.votes, HashOf(w.hashes, p), poll, f);
    }
  }

  /** One standing of the poll was announced, and it is the true one just if `truly`. */
  ghost predicate Announces(w: World, w': World, p: PollId, now: Time, truly: bool)
    requires p in w'.polls
  {
    && |w'.published| == |w.published| + 1 && w.published <= w'.published
    && w'.published[|w.published|].poll == p
    && (w'.published[|w.published|] == TrueStanding(w'.votes, w'.polls[p], now) <==> truly)
  }

  // ---- Runs ---------------------------------------------------------------------------------

  /** The counter read by which a Cast or a Close learns what it announces. */
  function LastLink(op: Op): Link
    requires op.Cast? || op.Close?
  {
    if op.Cast? then op.cast.read.read else op.read.read
  }

  lemma CastAnnounces(w: World, p: PollId, o: OptionId, voter: VoterId, now: Time, f: CastFaults)
    requires WellFormed(w) && NeverOver(w)
    ensures var w' := CastStep(w, p, o, voter, now, f);
            || w'.published == w.published
            || (p in w'.polls && Announces(w, w', p, now, f.read.read != Up || ExactAt(w', p)))
  {
    CastPublishes(w, p, o, voter, now, f);
    if CastAnswer(w, p, o, voter, now, f).Ok? {
      CastVotes(w, p, o, voter, now, f);
      CastChangesNothingIffNotStored(w, p, o, voter, now, f);
      StoredVoteRefers(w, p, o, voter, now, f);
      CastAnswersByTheHash(w, p, o, voter, now, f);
    }
  }

  lemma StepPublishes(w: World, op: Op, lower: Folding)
    requires WellFormed(w) && NeverOver(w) && Legal(w, op)
    ensures var w' := Step(w, op, lower);
            || w'.published == w.published
            || ((op.Cast? || op.Close?) && op.p in w'.polls
                && Announces(w, w', op.p, op.now, LastLink(op) != Up || ExactAt(w', op.p)))
  {
    if op.Cast? {
      CastAnnounces(w, op.p, op.o, op.voter, op.now, op.cast);
    } else if op.Close? && op.p in w.polls {
      ClosePublishesTruly(w, op.owner, op.p, op.now, op.find, op.link, op.read, op.publish);
    }
  }

  lemma RunPublishes(ws: seq<World>, ops: seq<Op>, lower: Folding, i: nat)
    requires IsRun(ws, ops, lower) && i < |ops|
    ensures || ws[i + 1].published == ws[i].published
            || ((ops[i].Cast? || ops[i].Close?) && ops[i].p in ws[i + 1].polls
                && Announces(ws[i], ws[i + 1], ops[i].p, ops[i].now,
                             LastLink(ops[i]) != Up || ExactAt(ws[i + 1], ops[i].p)))
  {
    RunInvariants(ws, ops, lower, i);
    assert Legal(ws[i], ops[i]);
    StepPublishes(ws[i], ops[i], lower);
  }

  /** In every run, what a call announces to the viewers is the true standing of its poll at
      that moment if and only if it was not read from the cache or every increment lost for
      that poll so far has been followed by a reset. */
  lemma PublicationsAreTrueIff(ws: seq<World>, ops: seq<Op>, lower: Folding, i: nat)
    requires IsRun(ws, ops, lower) && i < |ops|
    ensures || ws[i + 1].published == ws[i].published
            || ((ops[i].Cast? || ops[i].Close?) && ops[i].p in ws[i + 1].polls
                && Announces(ws[i], ws[i + 1], ops[i].p, ops[i].now,
                             LastLink(ops[i]) != Up || Mended(ws, ops, ops[i].p, i + 1)))
  {
    RunPublishes(ws, ops, lower, i);
    if ws[i + 1].published != ws[i].published {
      ExactIffMended(ws, ops, lower, ops[i].p, i + 1);
    }
  }

  /** Every Cast that succeeds announces its own answer, unless publishing fails. */
  lemma CastsAnnounceTheirAnswer(ws: seq<World>, ops: seq<Op>, lower: Folding, i: nat)
    requires IsRun(ws, ops, lower) && i < |ops| && ops[i].Cast?
    ensures var answer := CastAnswer(ws[i], ops[i].p, ops[i].o, ops[i].voter, ops[i].now, ops[i].cast);
            ws[i + 1].published ==
              if answer.Ok? && ops[i].cast.publish then ws[i].published + [answer.value] else ws[i].published
  {
    assert Legal(ws[i], ops[i]);
    CastPublishes(ws[i], ops[i].p, ops[i].o, ops[i].voter, ops[i].now, ops[i].cast);
  }

  /** What is kept of a poll from one state to a later one. */
  ghost predicate Kept(before: World, after: World, p: PollId)
    requires p in before.polls && p in after.polls
  {
    && (forall v :: v in before.votes && v.poll == p ==> v in after.votes)
    && (Count(before.votes, p) > 0 ==>
          after.polls[p].question == before.polls[p].question && after.polls[p].options == before.polls[p].options)
    && (before.polls[p].status == Closed ==>
          after.polls[p].status == Closed && forall v :: v in after.votes && v.poll == p ==> v in before.votes)
    && after.polls[p].owner == before.polls[p].owner
  }

  lemma StepKeepsVotes(w: World, op: Op, lower: Folding, p: PollId)
    requires Legal(w, op) && p in w.polls
    ensures forall v :: v in w.votes && v.poll == p ==> v in Step(w, op, lower).votes
    ensures w.polls[p].status == Closed ==> forall v :: v in Step(w, op, lower).votes && v.poll == p ==> v in w.votes
  {
    StepVotes(w, op, lower);
  }

  lemma MoreVotesCountMore(votes: seq<Vote>, more: seq<Vote>, p: PollId)
    requires forall v :: v in votes && v.poll == p ==> v in more
    ensures Count(votes, p) > 0 ==> Count(more, p) > 0
  {
    CountPositiveIff(votes, p);
    CountPositiveIff(more, p);
    if Count(votes, p) > 0 {
      var i :| 0 <= i < |votes| && votes[i].poll == p;
      assert votes[i] in more;
    }
  }

  lemma StepKeepsContent(w: World, op: Op, lower: Folding, p: PollId)
    requires WellFormed(w) && Legal(w, op) && p in w.polls && p in Step(w, op, lower).polls
    ensures var poll, poll' := w.polls[p], Step(w, op, lower).polls[p];
            && (Count(w.votes, p) > 0 ==> poll'.question == poll.question && poll'.options == poll.options)
            && (poll.status == Closed ==> poll'.status == Closed)
            && poll'.owner == poll.owner
  {
    assert GoodPoll(w, p);
    StepPoll(w, op, lower, p);
  }

  lemma StepKeeps(ws: seq<World>, ops: seq<Op>, lower: Folding, p: PollId, k: nat)
    requires IsRun(ws, ops, lower) && k < |ops|
    requires p in ws[k].polls && p in ws[k + 1].polls
    ensures Kept(ws[k], ws[k + 1], p)
    ensures Count(ws[k].votes, p) > 0 ==> Count(ws[k + 1].votes, p) > 0
  {
    RunInvariants(ws, ops, lower, k);
    assert Legal(ws[k], ops[k]);
    StepKeepsVotes(ws[k], ops[k], lower, p);
    MoreVotesCountMore(ws[k].votes, ws[k + 1].votes, p);
    StepKeepsContent(ws[k], ops[k], lower, p);
  }

  lemma KeptTwice(a: World, b: World, c: World, p: PollId)
    requires p in a.polls && p in b.polls && p in c.polls
    requires Kept(a, b, p) && Kept(b, c, p) && (Count(a.votes, p) > 0 ==> Count(b.votes, p) > 0)
    ensures Kept(a, c, p)
  {}

  /** The content freeze, the final close and the durability of votes, between any two
      points of any run at which the poll can be found, crashed deletes and cache
      trouble included. */
  lemma {:induction false} KeptForGood(ws: seq<World>, ops: seq<Op>, lower: Folding, p: PollId, i: nat, j: nat)
    requires IsRun(ws, ops, lower) && i <= j <= |ops|
    requires p in ws[i].polls && p in ws[j].polls
    ensures Kept(ws[i], ws[j], p)
    ensures Count(ws[i].votes, p) > 0 ==> Count(ws[j].votes, p) > 0
    decreases j - i
  {
    if i < j {
      ThereThroughout(ws, ops, lower, p, i, j);
      KeptForGood(ws, ops, lower, p, i, j - 1);
      StepKeeps(ws, ops, lower, p, j - 1);
      KeptTwice(ws[i], ws[j - 1], ws[j], p);
    }
  }

  lemma OneVoteEach(votes: seq<Vote>, mine: Vote)
    requires Unique(votes) && mine in votes
    ensures forall v :: v in votes && v.poll == mine.poll && v.voter == mine.voter ==> v == mine
  {
    forall v | v in votes && v.poll == mine.poll && v.voter == mine.voter ensures v == mine {
      var a :| 0 <= a < |votes| && votes[a] == v;
      var b :| 0 <= b < |votes| && votes[b] == mine;
    }
  }

  lemma AcknowledgedVoteIsStored(ws: seq<World>, ops: seq<Op>, lower: Folding, i: nat)
    requires IsRun(ws, ops, lower) && i < |ops| && ops[i].Cast?
    requires CastAnswer(ws[i], ops[i].p, ops[i].o, ops[i].voter, ops[i].now, ops[i].cast).Ok?
    ensures ops[i].p in ws[i + 1].polls && Vote(ops[i].p, ops[i].o, ops[i].voter) in ws[i + 1].votes
  {
    assert Legal(ws[i], ops[i]);
    CastVotes(ws[i], ops[i].p, ops[i].o, ops[i].voter, ops[i].now, ops[i].cast);
    CastChangesNothingIffNotStored(ws[i], ops[i].p, ops[i].o, ops[i].voter, ops[i].now, ops[i].cast);
  }

  lemma StoredVotesAreDurable(ws: seq<World>, ops: seq<Op>, lower: Folding, mine: Vote, i: nat, j: nat)
    requires IsRun(ws, ops, lower) && i <= j <= |ops|
    requires mine in ws[i].votes && mine.poll in ws[i].polls && mine.poll in ws[j].polls
    ensures mine in ws[j].votes
    ensures forall v :: v in ws[j].votes && v.poll == mine.poll && v.voter == mine.voter ==> v == mine
  {
    KeptForGood(ws, ops, lower, mine.poll, i, j);
    RunInvariants(ws, ops, lower, j);
    OneVoteEach(ws[j].votes, mine);
  }

  /** A vote whose Cast reported success is in the collection, and is the voter's only
      vote, for as long as its poll can be found. */
  lemma AcknowledgedVotesAreDurable(ws: seq<World>, ops: seq<Op>, lower: Folding, i: nat, j: nat)
    requires IsRun(ws, ops, lower) && i < j <= |ops|
    requires ops[i].Cast? && ops[i].p in ws[j].polls
    requires CastAnswer(ws[i], ops[i].p, ops[i].o, ops[i].voter, ops[i].now, ops[i].cast).Ok?
    ensures Vote(ops[i].p, ops[i].o, ops[i].voter) in ws[j].votes
    ensures forall v :: v in ws[j].votes && v.poll == ops[i].p && v.voter == ops[i].voter ==> v.option == ops[i].o
  {
    AcknowledgedVoteIsStored(ws, ops, lower, i);
    StoredVotesAreDurable(ws, ops, lower, Vote(ops[i].p, ops[i].o, ops[i].voter), i + 1, j);
  }

  // ---- Delete -----------------------------------------------------------------------------------

  /** The poll answers as before: same document, same votes, same hash. */
  ghost predicate Untouched(w: World, w': World, q: PollId) {
    && (q in w'.polls ==> q in w.polls && w'.polls[q] == w.polls[q])
    && (forall v: Vote :: v.poll == q ==> (v in w'.votes <==> v in w.votes))
    && (forall o :: Tally(w'.votes, q, o) == Tally(w.votes, q, o))
    && HashOf(w'.hashes, q) == HashOf(w.hashes, q)
  }

  lemma DeleteLeavesVotes(w: World, owner: UserId, p: PollId, f: DeleteFaults)
    ensures var w' := DeleteStep(w, owner, p, f);
            && w'.votes == (if p in w.polls && p !in w'.polls && f.remove == Up && Applied(f.votes)
                            then Without(w.votes, p) else w.votes)
            && (p in w'.polls ==> w' == w)
  {}

  lemma DeleteLeavesOthers(w: World, owner: UserId, p: PollId, f: DeleteFaults, q: PollId)
    requires q != p
    ensures var w' := DeleteStep(w, owner, p, f);
            && (q in w'.polls <==> q in w.polls)
            && (q in w.polls ==> w'.polls[q] == w.polls[q])
            && HashOf(w'.hashes, q) == HashOf(w.hashes, q)
  {}

  /** A delete stopped after any of its steps, with any reply lost: every poll that can
      still be found is untouched, and so is every other poll. */
  lemma DeleteStopsSafely(w: World, owner: UserId, p: PollId, f: DeleteFaults, q: PollId)
    ensures var w' := DeleteStep(w, owner, p, f);
            q in w'.polls || q != p ==> Untouched(w, w', q) && (q in w.polls ==> q in w'.polls)
  {
    DeleteLeavesVotes(w, owner, p, f);
    if q != p {
      DeleteLeavesOthers(w, owner, p, f, q);
      forall o { PurgeIsLocal(w.votes, p, q, o); }
    }
  }

  /** Success means all three stores let go, a refused counter delete excepted. */
  lemma DeleteCompletes(w: World, owner: UserId, p: PollId, f: DeleteFaults)
    requires DeleteAnswer(w, owner, p, f).Ok?
    ensures var w' := DeleteStep(w, owner, p, f);
            p !in w'.polls && Count(w'.votes, p) == 0 && (Applied(f.hash) ==> HashOf(w'.hashes, p) == map[])
  {
    var votes' := Without(w.votes, p);
    CountPositiveIff(votes', p);
    forall i | 0 <= i < |votes'| ensures votes'[i].poll != p {
      assert votes'[i] in votes';
    }
  }

  /** The service's delete is one of the runs the theorems above speak about. */
  lemma DeleteIsLegal(w: World, owner: UserId, p: PollId, f: DeleteFaults, lower: Folding)
    requires WellFormed(w)
    ensures var remove := RemovePoll(owner, p, f.find, f.remove);
            var votes, hash := PurgeVotes(p, f.votes), PurgeHash(p, f.hash);
            var w' := DeleteStep(w, owner, p, f);
            || w' == Step(w, remove, lower)
            || (Legal(Step(w, remove, lower), votes) && w' == Step(Step(w, remove, lower), votes, lower))
            || (Legal(Step(w, remove, lower), votes) && Legal(Step(Step(w, remove, lower), votes, lower), hash)
                && w' == Step(Step(Step(w, remove, lower), votes, lower), hash, lower))
  {
    if p in w.polls {
      assert GoodPoll(w, p);
    }
  }

  // ---- Reopening ----------------------------------------------------------------------------------

  /** Closing is final, an expiry is not: the call by which a poll takes votes at `t` again
      is an edit by its owner that nothing refuses, on a poll nobody closed, that removes
      the expiry or moves it past `t`. */
  ghost predicate Reopens(w: World, op: Op, lower: Folding, p: PollId, t: Time)
    requires p in w.polls
  {
    && op.Edit? && op.p == p && Applied(op.edit.update)
    && UpdateRefusal(w, op.owner, p, op.update, op.now, lower, op.edit).None?
    && w.polls[p].status == Active
    && op.update.clearExpiry != op.update.expiresAt.Some?
    && (op.update.expiresAt.Some? ==> op.update.expiresAt.value > t)
  }

  lemma PollReopensIff(w: World, op: Op, lower: Folding, p: PollId, t: Time)
    requires WellFormed(w) && Legal(w, op) && p in w.polls && p in Step(w, op, lower).polls
    requires !TakesVotesAt(w.polls[p], t)
    ensures TakesVotesAt(Step(w, op, lower).polls[p], t) <==> Reopens(w, op, lower, p, t)
  {
    assert GoodPoll(w, p);
    StepPoll(w, op, lower, p);
  }

  /** A poll that takes no votes takes none later, at any point of any run up to which no
      such edit has been made. */
  lemma {:induction false} StaysShut(ws: seq<World>, ops: seq<Op>, lower: Folding, p: PollId,
                                     i: nat, j: nat, t: Time, later: Time)
    requires IsRun(ws, ops, lower) && i <= j <= |ops| && t <= later
    requires p in ws[i].polls && p in ws[j].polls && !TakesVotesAt(ws[i].polls[p], t)
    requires forall k :: i <= k < j && p in ws[k].polls ==> !Reopens(ws[k], ops[k], lower, p, later)
    ensures !TakesVotesAt(ws[j].polls[p], later)
    decreases j - i
  {
    if i < j {
      ThereThroughout(ws, ops, lower, p, i, j);
      StaysShut(ws, ops, lower, p, i, j - 1, t, later);
      RunInvariants(ws, ops, lower, j - 1);
      assert Legal(ws[j - 1], ops[j - 1]);
      PollReopensIff(ws[j - 1], ops[j - 1], lower, p, later);
    }
  }

  // ---- An edit that overlaps a Cast -----------------------------------------------------------------

  /** The world after an edit that counted the votes in `w` and writes once `voted` is reached. */
  function Raced(w: World, voted: World, owner: UserId, p: PollId, input: UpdateInput,
                 minted: seq<OptionId>, update: Link): World
    requires p in w.polls && |minted| >= |LabelsOf(input)|
  {
    voted.(polls := AfterUpdate(voted.polls, p, owner, EditOf(w.polls[p], input, minted), update))
  }

  /** The other order: the Cast checked the options the edit is about to replace, and its
      insert comes after the write. */
  function InsertedAfter(w: World, v: Vote, owner: UserId, p: PollId, input: UpdateInput,
                         minted: seq<OptionId>, update: Link): World
    requires p in w.polls && |minted| >= |LabelsOf(input)|
  {
    WithVote(Raced(w, w, owner, p, input, minted, update), v)
  }

  /** An edit counts the votes and then writes.  When a Cast that passed its checks before
      the write stores its vote after the count, the vote keeps naming an option of its
      poll if and only if the request leaves the options alone, lists the label of the
      voted option, or is not carried out; whether the insert or the write came first. */
  lemma EditRacingACast(w: World, owner: UserId, p: PollId, input: UpdateInput, minted: seq<OptionId>,
                        now: Time, lower: Folding, edit: EditFaults, i: nat, voter: VoterId, at: Time, f: CastFaults)
    requires WellFormed(w) && UpdateRefusal(w, owner, p, input, now, lower, edit).None?
    requires FreshFor(minted, |LabelsOf(input)|, w.polls[p].options)
    requires i < |w.polls[p].options| && Stores(w, p, w.polls[p].options[i].id, voter, at, f)
    ensures var voted := w.polls[p].options[i];
            var v := Vote(p, voted.id, voter);
            var before := Raced(w, CastStep(w, p, voted.id, voter, at, f), owner, p, input, minted, edit.update);
            var after := InsertedAfter(w, v, owner, p, input, minted, edit.update);
            var kept := || input.options.None? || voted.text in LabelsOf(input)
                        || !Applied(edit.update) || (input.clearExpiry && input.expiresAt.Some?);
            && v in before.votes && (GoodVote(before, v) <==> kept)
            && v in after.votes && (GoodVote(after, v) <==> kept)
  {
    var poll, voted := w.polls[p], w.polls[p].options[i];
    CastVotes(w, p, voted.id, voter, at, f);
    assert GoodPoll(w, p);
    assert CastStep(w, p, voted.id, voter, at, f).nextId == w.nextId;
    if input.options.Some? {
      AcceptedLabelsAreDistinct(input.options.value, lower);
      EditKeepsOptionIff(poll.options, LabelsOf(input), minted, i);
    }
  }

  /** An edit keeps the ID of an option exactly if it lists the option's label. */
  lemma EditKeepsOptionIff(existing: seq<PollOption>, texts: seq<string>, minted: seq<OptionId>, i: nat)
    requires Distinct(Ids(existing)) && Distinct(Texts(existing)) && Distinct(texts)
    requires FreshFor(minted, |texts|, existing) && i < |existing|
    ensures HasId(RebuiltOptions(existing, texts, minted), existing[i].id) <==> existing[i].text in texts
  {
    var r := RebuiltOptions(existing, texts, minted);
    EditKeepsIdentity(existing, texts, minted);
    OneIdPerText(existing, i);
    if existing[i].text in texts {
      var k :| 0 <= k < |texts| && texts[k] == existing[i].text;
      assert r[k].id == existing[i].id;
    }
    forall k | 0 <= k < |texts| && texts[k] != existing[i].text ensures r[k].id != existing[i].id {
      if texts[k] in Texts(existing) {
        var j :| 0 <= j < |existing| && Texts(existing)[j] == texts[k];
        assert existing[j].text == texts[k] && r[k].id == existing[j].id;
      } else {
        assert HasId(existing, existing[i].id) && r[k].id == minted[k];
      }
    }
  }

  const REPLACED := UpdateInput(None, Some(["p", "q"]), None, false)

  lemma FreshPollTakesTheVoteAndTheEdit(owner: UserId, voter: VoterId, now: Time, lower: Folding)
    requires voter != "" && lower("p") != lower("q")
    ensures UpdateRefusal(FreshPoll(owner), owner, 0, REPLACED, now, lower, EditFaults(true, true, Up)).None?
    ensures Stores(FreshPoll(owner), 0, "a", voter, now, NO_FAULTS)
  {
    ShortLabelsPass("p", "q", lower);
    assert FreshPoll(owner).polls[0].options[0].id == "a";
  }

  lemma ReplacementIsFresh(owner: UserId, lower: Folding)
    requires lower("p") != lower("q")
    ensures LabelsOf(REPLACED) == ["p", "q"] && FreshFor(["c", "d"], 2, FreshPoll(owner).polls[0].options)
    ensures "x" !in LabelsOf(REPLACED)
  {
    ShortLabelsPass("p", "q", lower);
  }

  /** The failing case: a new poll with two options, a vote for the first while the
      owner's edit, which replaces both, is between its count and its write.  The vote is
      stored and its option is gone. */
  lemma RacedEditOrphansAVote(owner: UserId, voter: VoterId, now: Time, lower: Folding)
    requires voter != "" && lower("x") != lower("y") && lower("p") != lower("q")
    ensures LabelsOf(REPLACED) == ["p", "q"]
    ensures UpdateRefusal(FreshPoll(owner), owner, 0, REPLACED, now, lower, EditFaults(true, true, Up)).None?
    ensures Stores(FreshPoll(owner), 0, "a", voter, now, NO_FAULTS)
    ensures var w := FreshPoll(owner);
            var raced := Raced(w, CastStep(w, 0, "a", voter, now, NO_FAULTS), owner, 0, REPLACED, ["c", "d"], Up);
            Vote(0, "a", voter) in raced.votes && !GoodVote(raced, Vote(0, "a", voter))
  {
    FreshPollIsWellFormed(owner, now, lower);
    FreshPollTakesTheVoteAndTheEdit(owner, voter, now, lower);
    ReplacementIsFresh(owner, lower);
    OrphanedIfUnlisted(FreshPoll(owner), owner, 0, REPLACED, ["c", "d"], now, lower, EditFaults(true, true, Up),
                       0, "a", voter, NO_FAULTS);
  }

  lemma OrphanedIfUnlisted(w: World, owner: UserId, p: PollId, input: UpdateInput, minted: seq<OptionId>, now: Time,
                           lower: Folding, edit: EditFaults, i: nat, o: OptionId, voter: VoterId, f: CastFaults)
    requires WellFormed(w) && UpdateRefusal(w, owner, p, input, now, lower, edit).None? && edit.update == Up
    requires FreshFor(minted, |LabelsOf(input)|, w.polls[p].options) && Stores(w, p, o, voter, now, f)
    requires i < |w.polls[p].options| && w.polls[p].options[i].id == o
    requires input.options.Some? && w.polls[p].options[i].text !in LabelsOf(input) && !input.clearExpiry
    ensures var raced := Raced(w, CastStep(w, p, o, voter, now, f), owner, p, input, minted, Up);
            Vote(p, o, voter) in raced.votes && !GoodVote(raced, Vote(p, o, voter))
  {
    EditRacingACast(w, owner, p, input, minted, now, lower, edit, i, voter, now, f);
  }
}
