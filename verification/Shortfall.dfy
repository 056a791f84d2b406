/** How far the cache falls short of the votes, over runs of calls that do not overlap in
    which increments may go missing: exactly by the increments lost since the hash was
    last rewritten or dropped, and so exactly as long as nothing does that. */
module Shortfall {
  import opened Common
  import opened Polls
  import opened Votes
  import opened Counters
  import opened ResultService
  import opened Validation
  import opened Calls
  import opened Lifecycle
  import opened Exactness

  // ---- A poll is there from its creation to its deletion -------------------------------------

  lemma StepNeverRevives(w: World, op: Op, lower: Folding, p: PollId)
    requires WellFormed(w) && Legal(w, op)
    requires p in Step(w, op, lower).polls && p < w.nextId
    ensures p in w.polls
  {
    if p != Subject(w, op) {
      StepDocument(w, op, lower, p);
    }
  }

  lemma NotRevived(ws: seq<World>, ops: seq<Op>, lower: Folding, p: PollId, k: nat)
    requires IsRun(ws, ops, lower) && k < |ops| && p < ws[k].nextId && p in ws[k + 1].polls
    ensures p in ws[k].polls
  {
    RunInvariants(ws, ops, lower, k);
    assert Legal(ws[k], ops[k]);
    StepNeverRevives(ws[k], ops[k], lower, p);
  }

  /** A poll found late in a run was there at every point since it was first found. */
  lemma ThereThroughout(ws: seq<World>, ops: seq<Op>, lower: Folding, p: PollId, i: nat, j: nat)
    requires IsRun(ws, ops, lower) && i < j <= |ops|
    requires p in ws[i].polls && p in ws[j].polls
    ensures p in ws[j - 1].polls
  {
    RunInvariants(ws, ops, lower, i);
    assert GoodPoll(ws[i], p);
    NextIdGrows(ws, ops, lower, i, j - 1);
    NotRevived(ws, ops, lower, p, j - 1);
  }

  lemma {:induction false} NextIdGrows(ws: seq<World>, ops: seq<Op>, lower: Folding, i: nat, j: nat)
    requires IsRun(ws, ops, lower) && i <= j <= |ops|
    ensures ws[i].nextId <= ws[j].nextId
    decreases j - i
  {
    if i < j {
      NextIdGrows(ws, ops, lower, i, j - 1);
      assert Legal(ws[j - 1], ops[j - 1]);
      StepNextId(ws[j - 1], ops[j - 1], lower);
    }
  }

  // ---- One hash ---------------------------------------------------------------------------------

  /** The votes for an option a readable hash does not count. */
  function Short(h: Hash, votes: seq<Vote>, p: PollId, o: OptionId): int {
    if Readable(h) then Tally(votes, p, o) - CountOf(h, o) else 0
  }

  /** A read that does not get its answer from the cache, and manages to write it there. */
  predicate Rewrites(f: ReadFaults) {
    f.read != Up && f.aggregate && Applied(f.replace)
  }

  lemma ReadShort(votes: seq<Vote>, h: Hash, poll: Poll, f: ReadFaults, o: OptionId)
    requires Refers(votes, poll)
    ensures Short(AfterForPoll(votes, h, poll, f), votes, poll.id, o)
         == if Rewrites(f) then 0 else Short(h, votes, poll.id, o)
  {
    if Applied(f.replace) {
      RebuildIsExact(votes, h, poll, f.replace);
    }
  }

  lemma RecordShort(votes: seq<Vote>, h: Hash, poll: Poll, v: Vote, increment: Link, aggregate: bool, replace: Link,
                    o: OptionId)
    requires v.poll == poll.id && Refers(votes + [v], poll) && Under(h, votes, poll.id)
    ensures Short(AfterRecordVote(votes + [v], h, poll, v.option, increment, aggregate, replace),
                  votes + [v], poll.id, o)
         == Short(h, votes, poll.id, o) + (if Readable(h) && !Applied(increment) && v.option == o then 1 else 0)
  {
    TallyAppend(votes, v, poll.id, o);
    ScriptKeepsReadability(h, v.option);
    ColdReplyMeaning(h, v.option);
    if Applied(replace) {
      RebuildIsExact(votes + [v], Script(h, v.option).0, poll, replace);
    }
    assert Readable(h) ==> CountOf(h, v.option) >= 0;
  }

  // ---- One call -----------------------------------------------------------------------------------

  function ShortAt(w: World, p: PollId, o: OptionId): int {
    Short(HashOf(w.hashes, p), w.votes, p, o)
  }

  /** The read of the poll's standing a call ends with, if it gets that far. */
  function FinalRead(w: World, op: Op): Option<ReadFaults> {
    match op
    case Cast(p, o, voter, now, f) =>
      if Stores(w, p, o, voter, now, f) && f.insert == Up then Some(f.read) else None
    case Read(p, find, f) => if p in w.polls && find then Some(f) else None
    case Close(owner, p, _, find, link, f, _) => if CloseReads(w, owner, p, find, link) then Some(f) else None
    case _ => None
  }

  /** The calls and events that rewrite a poll's hash from its votes, or take it away. */
  predicate Resets(w: World, op: Op, p: PollId) {
    match op
    case Rebuild(q, aggregate, link) => q == p && aggregate && Applied(link)
    case Expire(q) => q == p
    case Corrupt(q, _) => q == p
    case Create(_, _, _, _, _) => false
    case _ => op.p == p && var f := FinalRead(w, op); f.Some? && Rewrites(f.value)
  }

  /** A vote for the option is stored and its increment goes missing for good. */
  predicate Loses(w: World, op: Op, p: PollId, o: OptionId) {
    Drifts(w, op) && op.p == p && op.o == o
  }

  lemma CastShort(w: World, op: Op, lower: Folding, o: OptionId)
    requires WellFormed(w) && NeverOver(w) && op.Cast? && op.p in w.polls
    ensures ShortAt(Step(w, op, lower), op.p, o)
         == if Resets(w, op, op.p) then 0 else ShortAt(w, op.p, o) + (if Loses(w, op, op.p, o) then 1 else 0)
  {
    var p, v, f := op.p, Vote(op.p, op.o, op.voter), op.cast;
    var h, votes, poll := HashOf(w.hashes, p), w.votes + [v], w.polls[p];
    CastVotes(w, p, op.o, op.voter, op.now, f);
    CastHash(w, p, op.o, op.voter, op.now, f);
    if Stores(w, p, op.o, op.voter, op.now, f) {
      StoredVoteRefers(w, p, op.o, op.voter, op.now, f);
      TallyAppend(w.votes, v, p, o);
      if f.insert == Up {
        RecordShort(w.votes, h, poll, v, f.increment, f.coldAggregate, f.coldReplace, o);
        var h' := AfterRecordVote(votes, h, poll, op.o, f.increment, f.coldAggregate, f.coldReplace);
        ReadShort(votes, h', poll, f.read, o);
      }
    }
  }

  lemma OtherShort(w: World, op: Op, lower: Folding, p: PollId, o: OptionId)
    requires WellFormed(w) && Legal(w, op) && !op.Cast? && p == Subject(w, op)
    requires p in w.polls && p in Step(w, op, lower).polls
    ensures ShortAt(Step(w, op, lower), p, o) == if Resets(w, op, p) then 0 else ShortAt(w, p, o)
  {
    var h, poll := HashOf(w.hashes, p), w.polls[p];
    LivePollRefers(w, p);
    OtherStepHash(w, op, lower, p);
    match op
    case Read(_, _, f) => ReadShort(w.votes, h, poll, f, o);
    case Close(_, _, _, _, _, f, _) => ReadShort(w.votes, h, poll, f, o);
    case Rebuild(_, _, link) => if Applied(link) { RebuildIsExact(w.votes, h, poll, link); }
    case _ =>
  }

  lemma StepShort(w: World, op: Op, lower: Folding, p: PollId, o: OptionId)
    requires WellFormed(w) && NeverOver(w) && Legal(w, op) && p in w.polls && p in Step(w, op, lower).polls
    ensures ShortAt(Step(w, op, lower), p, o)
         == if Resets(w, op, p) then 0 else ShortAt(w, p, o) + (if Loses(w, op, p, o) then 1 else 0)
  {
    if p != Subject(w, op) {
      assert GoodPoll(w, p);
      StepIsLocal(w, op, lower, p);
    } else if op.Cast? {
      CastShort(w, op, lower, o);
    } else {
      OtherShort(w, op, lower, p, o);
    }
  }

  // ---- Whole runs -----------------------------------------------------------------------------------

  /** The increments of an option's votes lost since the hash was last reset. */
  function Owed(ws: seq<World>, ops: seq<Op>, p: PollId, o: OptionId, n: nat): nat
    requires n <= |ops| && |ws| == |ops| + 1
  {
    if n == 0 || Resets(ws[n - 1], ops[n - 1], p) then 0
    else Owed(ws, ops, p, o, n - 1) + (if Loses(ws[n - 1], ops[n - 1], p, o) then 1 else 0)
  }

  predicate LosesSome(w: World, op: Op, p: PollId) {
    Drifts(w, op) && op.p == p
  }

  /** Whatever went missing, the hash was reset afterwards. */
  ghost predicate Mended(ws: seq<World>, ops: seq<Op>, p: PollId, n: nat)
    requires n <= |ops| && |ws| == |ops| + 1
  {
    forall k :: 0 <= k < n && LosesSome(ws[k], ops[k], p) ==> ResetSince(ws, ops, p, k, n)
  }

  ghost predicate ResetSince(ws: seq<World>, ops: seq<Op>, p: PollId, k: nat, n: nat)
    requires n <= |ops| && |ws| == |ops| + 1
  {
    exists m :: k < m < n && Resets(ws[m], ops[m], p)
  }

  lemma MendedNext(ws: seq<World>, ops: seq<Op>, p: PollId, n: nat)
    requires n < |ops| && |ws| == |ops| + 1
    ensures Mended(ws, ops, p, n + 1)
       <==> Resets(ws[n], ops[n], p) || (Mended(ws, ops, p, n) && !LosesSome(ws[n], ops[n], p))
  {
    if Resets(ws[n], ops[n], p) {
      forall k | 0 <= k < n + 1 && LosesSome(ws[k], ops[k], p) ensures ResetSince(ws, ops, p, k, n + 1) {}
    } else {
      forall k | 0 <= k < n ensures ResetSince(ws, ops, p, k, n + 1) <==> ResetSince(ws, ops, p, k, n) {}
    }
  }

  /** Nothing is owed for any option exactly when everything lost has been reset since. */
  lemma {:induction false} NothingOwedIffMended(ws: seq<World>, ops: seq<Op>, p: PollId, n: nat)
    requires n <= |ops| && |ws| == |ops| + 1
    ensures Mended(ws, ops, p, n) <==> OwesNothing(ws, ops, p, n)
  {
    if n > 0 {
      var w, op := ws[n - 1], ops[n - 1];
      NothingOwedIffMended(ws, ops, p, n - 1);
      MendedNext(ws, ops, p, n - 1);
      if Resets(w, op, p) {
        forall o ensures Owed(ws, ops, p, o, n) == 0 {}
      } else if LosesSome(w, op, p) {
        assert Loses(w, op, p, op.o) && Owed(ws, ops, p, op.o, n) > 0;
      } else {
        forall o ensures Owed(ws, ops, p, o, n) == Owed(ws, ops, p, o, n - 1) {}
        if Mended(ws, ops, p, n) {
          forall o ensures Owed(ws, ops, p, o, n) == 0 {
            assert Owed(ws, ops, p, o, n - 1) == 0;
          }
        } else {
          var o :| Owed(ws, ops, p, o, n - 1) != 0;
          assert Owed(ws, ops, p, o, n) != 0;
        }
      }
    }
  }

  lemma {:induction false} NothingOwedBeforeBirth(ws: seq<World>, ops: seq<Op>, lower: Folding,
                                                  p: PollId, o: OptionId, k: nat, n: nat)
    requires IsRun(ws, ops, lower) && k <= n < |ops| && p !in ws[n].polls && p in ws[n + 1].polls
    ensures Owed(ws, ops, p, o, k) == 0
    decreases k
  {
    if k > 0 {
      NothingOwedBeforeBirth(ws, ops, lower, p, o, k - 1, n);
      if p in ws[k - 1].polls {
        ThereThroughout(ws, ops, lower, p, k - 1, n + 1);
        assert false;
      }
    }
  }

  lemma StillOwed(ws: seq<World>, ops: seq<Op>, lower: Folding, p: PollId, o: OptionId, n: nat)
    requires IsRun(ws, ops, lower) && n < |ops| && p in ws[n].polls && p in ws[n + 1].polls
    requires ShortAt(ws[n], p, o) == Owed(ws, ops, p, o, n)
    ensures ShortAt(ws[n + 1], p, o) == Owed(ws, ops, p, o, n + 1)
  {
    RunInvariants(ws, ops, lower, n);
    assert Legal(ws[n], ops[n]);
    StepShort(ws[n], ops[n], lower, p, o);
  }

  /** Between any two calls of any run, each counter of a readable hash falls short of its
      tally by exactly the increments lost since the hash was last reset. */
  lemma {:induction false} ShortIsOwed(ws: seq<World>, ops: seq<Op>, lower: Folding, p: PollId, o: OptionId, n: nat)
    requires IsRun(ws, ops, lower) && n <= |ops| && p in ws[n].polls
    ensures ShortAt(ws[n], p, o) == Owed(ws, ops, p, o, n)
  {
    if p in ws[n - 1].polls {
      ShortIsOwed(ws, ops, lower, p, o, n - 1);
      StillOwed(ws, ops, lower, p, o, n - 1);
    } else {
      BornOwingNothing(ws, ops, lower, p, o, n - 1);
    }
  }

  lemma BornOwingNothing(ws: seq<World>, ops: seq<Op>, lower: Folding, p: PollId, o: OptionId, n: nat)
    requires IsRun(ws, ops, lower) && n < |ops| && p !in ws[n].polls && p in ws[n + 1].polls
    ensures ShortAt(ws[n + 1], p, o) == 0 == Owed(ws, ops, p, o, n + 1)
  {
    RunInvariants(ws, ops, lower, n);
    assert Legal(ws[n], ops[n]);
    NewPollIsExact(ws[n], ops[n], lower, p);
    NothingOwedBeforeBirth(ws, ops, lower, p, o, n, n);
  }

  /** The cache of a poll is exact if and only if every increment lost for it has been
      followed by a reset. */
  lemma ExactIffMended(ws: seq<World>, ops: seq<Op>, lower: Folding, p: PollId, n: nat)
    requires IsRun(ws, ops, lower) && n <= |ops| && p in ws[n].polls
    ensures ExactAt(ws[n], p) <==> Mended(ws, ops, p, n)
  {
    NothingOwedIffMended(ws, ops, p, n);
    ExactIffNotShort(ws[n], p);
    forall o ensures ShortAt(ws[n], p, o) == Owed(ws, ops, p, o, n) {
      ShortIsOwed(ws, ops, lower, p, o, n);
    }
    assert NotShort(ws[n], p) <==> OwesNothing(ws, ops, p, n);
  }

  ghost predicate NotShort(w: World, p: PollId) {
    forall o :: ShortAt(w, p, o) == 0
  }

  ghost predicate OwesNothing(ws: seq<World>, ops: seq<Op>, p: PollId, n: nat)
    requires n <= |ops| && |ws| == |ops| + 1
  {
    forall o :: Owed(ws, ops, p, o, n) == 0
  }

  lemma ExactIffNotShort(w: World, p: PollId)
    ensures ExactAt(w, p) <==> NotShort(w, p)
  {
    if NotShort(w, p) {
      forall o | Readable(HashOf(w.hashes, p)) ensures CountOf(HashOf(w.hashes, p), o) == Tally(w.votes, p, o) {
        assert ShortAt(w, p, o) == 0;
      }
    }
  }

  // ---- What a viewer is told --------------------------------------------------------------------------

  /** An answer from the cache shows each option's tally less what its counter is short. */
  lemma AnswerShows(votes: seq<Vote>, h: Hash, poll: Poll, f: ReadFaults, now: Time)
    ensures var answer := ForPollAnswer(votes, h, poll, f, now);
            && (answer.Ok? <==> ServedFromCache(h, f) || f.aggregate)
            && (answer.Err? ==> answer.code == Internal)
            && (answer.Ok? ==>
                  && |answer.value.options| == |poll.options|
                  && forall i :: 0 <= i < |poll.options| ==>
                       answer.value.options[i] == OptionResult(poll.options[i].id, poll.options[i].text,
                         Tally(votes, poll.id, poll.options[i].id)
                           - (if ServedFromCache(h, f) then Short(h, votes, poll.id, poll.options[i].id) else 0)))
  {
    forall i | 0 <= i < |poll.options| ensures HasId(poll.options, poll.options[i].id) {}
  }

  /** After any run, whatever was lost in it, a read of a live poll answers every option in
      declared order with its tally less, if the cache serves it, the increments owed.  It
      fails only if both stores do. */
  lemma AnswersFallShortByOwed(ws: seq<World>, ops: seq<Op>, lower: Folding, p: PollId, f: ReadFaults, now: Time)
    requires IsRun(ws, ops, lower) && p in ws[|ops|].polls
    ensures var w := ws[|ops|];
            var served, answer := ServedFromCache(HashOf(w.hashes, p), f), ReadAnswer(w, p, true, f, now);
            && (answer.Ok? <==> served || f.aggregate) && (answer.Err? ==> answer.code == Internal)
            && (answer.Ok? ==>
                  && |answer.value.options| == |w.polls[p].options|
                  && forall i :: 0 <= i < |w.polls[p].options| ==>
                       var o := w.polls[p].options[i];
                       answer.value.options[i] == OptionResult(o.id, o.text,
                         Tally(w.votes, p, o.id) - (if served then Owed(ws, ops, p, o.id, |ops|) else 0)))
  {
    var w := ws[|ops|];
    IdOfPoll(ws, ops, lower, p, |ops|);
    AnswerShows(w.votes, HashOf(w.hashes, p), w.polls[p], f, now);
    forall i | 0 <= i < |w.polls[p].options|
      ensures ShortAt(w, p, w.polls[p].options[i].id) == Owed(ws, ops, p, w.polls[p].options[i].id, |ops|)
    {
      ShortIsOwed(ws, ops, lower, p, w.polls[p].options[i].id, |ops|);
    }
  }

  lemma IdOfPoll(ws: seq<World>, ops: seq<Op>, lower: Folding, p: PollId, n: nat)
    requires IsRun(ws, ops, lower) && n <= |ops| && p in ws[n].polls
    ensures ws[n].polls[p].id == p
  {
    RunInvariants(ws, ops, lower, n);
    LivePollRefers(ws[n], p);
  }

  /** Serial refinement.  After any run, a read of a live poll answers the tally of the
      stored votes, in declared order and with the number of vote documents as total, if
      and only if it goes through the votes collection or every increment lost for this
      poll was followed by a reset. */
  lemma SerialRefinement(ws: seq<World>, ops: seq<Op>, lower: Folding, p: PollId, f: ReadFaults, now: Time)
    requires IsRun(ws, ops, lower) && p in ws[|ops|].polls
    ensures var w := ws[|ops|];
            var truth := TrueStanding(w.votes, w.polls[p], now);
            && (ReadAnswer(w, p, true, f, now) == Ok(truth) <==>
                  if ServedFromCache(HashOf(w.hashes, p), f) then Mended(ws, ops, p, |ops|) else f.aggregate)
            && truth.total == Count(w.votes, p)
  {
    var w := ws[|ops|];
    RunInvariants(ws, ops, lower, |ops|);
    LivePollRefers(w, p);
    AnswerIsTrueIff(w.votes, HashOf(w.hashes, p), w.polls[p], f, now);
    ExactIffMended(ws, ops, lower, p, |ops|);
    TrueTotal(w, p);
  }

  // ---- A vote the next read does not bring back ------------------------------------------------------

  const LOST_REPLY := NO_FAULTS.(insert := ReplyLost)

  /** Poll 0 is open, holds one vote, for its first option "a", and its hash counts it. */
  ghost predicate OneVoteIn(w: World, voter: VoterId, now: Time) {
    && 0 in w.polls && w.polls[0].id == 0 && w.polls[0].AcceptsVotes(now)
    && |w.polls[0].options| == 2 && w.polls[0].options[0].id == "a"
    && w.votes == [Vote(0, "a", voter)]
    && Readable(HashOf(w.hashes, 0)) && CountOf(HashOf(w.hashes, 0), "a") == 1
  }

  /** A fault-free first vote of the fresh poll leaves its hash readable and exact. */
  lemma FirstVoteWarmsTheHash(owner: UserId, voter: VoterId, now: Time)
    requires voter != "" && WellFormed(FreshPoll(owner))
    ensures Stores(FreshPoll(owner), 0, "a", voter, now, NO_FAULTS)
    ensures var w := CastStep(FreshPoll(owner), 0, "a", voter, now, NO_FAULTS);
            OneVoteIn(w, voter, now)
  {
    var w, v := FreshPoll(owner), Vote(0, "a", voter);
    assert w.polls[0].options[0].id == "a";
    CastVotes(w, 0, "a", voter, now, NO_FAULTS);
    CastHash(w, 0, "a", voter, now, NO_FAULTS);
    StoredVoteRefers(w, 0, "a", voter, now, NO_FAULTS);
    ColdVoteWritesTheWholeTally([], w.polls[0], v, Up);
    TallyAppend([], v, 0, "a");
    assert [] + [v] == [v];
  }

  /** Two votes for "a" are stored, and a fault-free read answers one. */
  ghost predicate MissesAVote(w: World, now: Time) {
    && Tally(w.votes, 0, "a") == 2
    && var answer := ReadAnswer(w, 0, true, NO_FAULTS.read, now);
       answer.Ok? && |answer.value.options| == 2
       && answer.value.options[0].id == "a" && answer.value.options[0].count == 1
  }

  lemma SecondVoteIsMissed(w: World, first: VoterId, second: VoterId, now: Time)
    requires first != second && second != "" && OneVoteIn(w, first, now)
    ensures MissesAVote(CastStep(w, 0, "a", second, now, LOST_REPLY), now)
  {
    var w' := CastStep(w, 0, "a", second, now, LOST_REPLY);
    CastVotes(w, 0, "a", second, now, LOST_REPLY);
    TallyAppend([], Vote(0, "a", first), 0, "a");
    assert [] + [Vote(0, "a", first)] == w.votes;
    TallyAppend(w.votes, Vote(0, "a", second), 0, "a");
    assert HashOf(w'.hashes, 0) == HashOf(w.hashes, 0);
    AnswerShows(w'.votes, HashOf(w.hashes, 0), w.polls[0], NO_FAULTS.read, now);
  }

  lemma ThreeSteps(w1: World, w2: World, w3: World, a: Op, b: Op, c: Op, lower: Folding)
    requires Legal(EMPTY, a) && Step(EMPTY, a, lower) == w1
    requires Legal(w1, b) && Step(w1, b, lower) == w2
    requires Legal(w2, c) && Step(w2, c, lower) == w3
    ensures IsRun([EMPTY, w1, w2, w3], [a, b, c], lower)
  {
    var ws, ops := [EMPTY, w1, w2, w3], [a, b, c];
    forall i | 0 <= i < 3 ensures Legal(ws[i], ops[i]) && ws[i + 1] == Step(ws[i], ops[i], lower) {
      assert i == 0 || i == 1 || i == 2;
    }
  }

  /** The process dies, or hears nothing, after the second vote is stored: the read after
      it is served by the warm hash and shows one vote of two. */
  lemma NextReadMissesAVote(owner: UserId, first: VoterId, second: VoterId, now: Time, lower: Folding)
    returns (ws: seq<World>, ops: seq<Op>)
    requires first != "" && second != "" && first != second && lower("x") != lower("y")
    ensures IsRun(ws, ops, lower) && |ops| == 3 && MissesAVote(ws[3], now)
  {
    FreshPollIsReached(owner, now, lower);
    FreshPollIsWellFormed(owner, now, lower);
    FirstVoteWarmsTheHash(owner, first, now);
    var w1 := FreshPoll(owner);
    var w2 := CastStep(w1, 0, "a", first, now, NO_FAULTS);
    var w3 := CastStep(w2, 0, "a", second, now, LOST_REPLY);
    SecondVoteIsMissed(w2, first, second, now);
    var a, b, c := Create(owner, BEFORE, ["a", "b"], now, Up), Cast(0, "a", first, now, NO_FAULTS),
                   Cast(0, "a", second, now, LOST_REPLY);
    ThreeSteps(w1, w2, w3, a, b, c, lower);
    ws, ops := [EMPTY, w1, w2, w3], [a, b, c];
  }
}
