/** What overlapping calls can and cannot do to the counters: the exact drift, its
    bounds, when there is none, and two schedules in which there is some. */
module Drift {
  import opened Common
  import opened Votes
  import opened Counters
  import opened ResultService
  import opened Concurrent
  import Calls

  /** The votes for an option. */
  function All(s: State, o: OptionId): set<nat> {
    Of(s.log, Prefix(|s.log|), o)
  }

  /** Those the snapshot in the hash contains. */
  function Snapshot(s: State, o: OptionId): set<nat> {
    Of(s.log, Prefix(s.seen), o)
  }

  /** Those whose increment was carried out since. */
  function Increments(s: State, o: OptionId): set<nat> {
    Of(s.log, s.landed, o)
  }

  lemma SetSizes(v: set<nat>, a: set<nat>, b: set<nat>)
    requires a <= v && b <= v
    ensures |a| + |b| - |v| == |a * b| - |v - (a + b)|
  {
    assert v == (a + b) + (v - (a + b));
    assert |a + b| == |a| + |b| - |a * b|;
  }

  lemma ReachedState(poll: PollId, options: set<OptionId>, es: seq<Event>, o: OptionId) returns (s: State)
    ensures s == Run(Init(poll, options), es) && Inv(s)
    ensures Tally(s.log, s.poll, o) == |All(s, o)|
    ensures Snapshot(s, o) <= All(s, o) && Increments(s, o) <= All(s, o)
  {
    s := Run(Init(poll, options), es);
    RunKeeps(poll, options, es);
    TallyCounts(s.log, s.poll, o, |s.log|);
    assert s.log[..|s.log|] == s.log;
  }

  /** For every interleaving of Casts, viewers, expiry and store failures: a counter that
      can be read is the votes in the snapshot plus the increments since, so it is off by
      exactly the votes counted twice less the votes not counted. */
  lemma DriftIdentity(poll: PollId, options: set<OptionId>, es: seq<Event>, o: OptionId)
    ensures var s := Run(Init(poll, options), es);
            Readable(s.hash) ==>
              && CountOf(s.hash, o) == |Snapshot(s, o)| + |Increments(s, o)|
              && CountOf(s.hash, o) - Tally(s.log, s.poll, o)
                   == |Snapshot(s, o) * Increments(s, o)| - |All(s, o) - (Snapshot(s, o) + Increments(s, o))|
  {
    var s := ReachedState(poll, options, es, o);
    SetSizes(All(s, o), Snapshot(s, o), Increments(s, o));
  }

  /** No counter exceeds twice the truth, nor exceeds it by more than the Casts that were
      between insert and increment when the snapshot was taken; and every vote it does not
      count was stored between the snapshot and its writing, still has its increment
      ahead, or had it lost or refused. */
  lemma DriftBounds(poll: PollId, options: set<OptionId>, es: seq<Event>, o: OptionId)
    ensures var s := Run(Init(poll, options), es);
            Readable(s.hash) ==>
              && 0 <= CountOf(s.hash, o) <= 2 * Tally(s.log, s.poll, o)
              && CountOf(s.hash, o) - Tally(s.log, s.poll, o) <= |Of(s.log, s.busy, o)|
              && forall i :: i in All(s, o) && i !in Snapshot(s, o) + Increments(s, o) ==> Excused(s, i)
  {
    var s := ReachedState(poll, options, es, o);
    if Readable(s.hash) {
      SetSizes(All(s, o), Snapshot(s, o), Increments(s, o));
      CounterBound(s, o);
      SubsetSize(Snapshot(s, o) * Increments(s, o), Of(s.log, s.busy, o));
      forall i | i in All(s, o) && i !in Snapshot(s, o) + Increments(s, o) ensures Excused(s, i) {
        assert Counted(s, i) || Excused(s, i);
      }
    }
  }

  /** The snapshot in the hash overlapped no Cast, no increment is under way, and none
      was lost since it was written. */
  ghost predicate Quiet(s: State) {
    && s.busy == {} && s.seen == s.replacedAt
    && Unsettled(s) == {}
    && forall i :: i in s.missed ==> i < s.seen
  }

  lemma QuietMeansExact(poll: PollId, options: set<OptionId>, es: seq<Event>, o: OptionId)
    ensures var s := Run(Init(poll, options), es);
            Readable(s.hash) && Quiet(s) ==> CountOf(s.hash, o) == Tally(s.log, s.poll, o)
  {
    var s := ReachedState(poll, options, es, o);
    if Readable(s.hash) && Quiet(s) {
      SetSizes(All(s, o), Snapshot(s, o), Increments(s, o));
      assert Snapshot(s, o) * Increments(s, o) == {};
      forall i | i in All(s, o) ensures i in Snapshot(s, o) + Increments(s, o) {
        assert Counted(s, i) || Excused(s, i);
      }
      assert All(s, o) - (Snapshot(s, o) + Increments(s, o)) == {};
    }
  }

  /** The call an event belongs to, if it belongs to one. */
  function CallOf(e: Event): Option<Pid> {
    match e
    case Cast(pid, _, _, _) => Some(pid)
    case View(pid) => Some(pid)
    case RunIncrement(pid, _) => Some(pid)
    case RunAggregate(pid, _) => Some(pid)
    case RunReplace(pid, _) => Some(pid)
    case RunRead(pid, _) => Some(pid)
    case Expire => None
    case Corrupt(_) => None
  }

  /** A call holding a snapshot of everything, with no increment ahead of anybody, keeps
      both through whatever others do short of casting. */
  lemma {:induction false} SnapshotStaysWhole(s: State, es: seq<Event>, pid: Pid)
    requires pid in s.procs && s.procs[pid].pc.Replace? && s.procs[pid].pc.upTo == |s.log|
    requires forall q, i: nat :: !At(s, q, i)
    requires forall i :: 0 <= i < |es| ==> !es[i].Cast? && CallOf(es[i]) != Some(pid)
    ensures var t := Run(s, es);
            t.log == s.log && pid in t.procs && t.procs[pid] == s.procs[pid] && forall q, i: nat :: !At(t, q, i)
  {
    if |es| > 0 {
      var front, last := es[..|es| - 1], es[|es| - 1];
      SnapshotStaysWhole(s, front, pid);
      var t := Run(s, front);
      assert last.RunIncrement? && last.pid in t.procs && t.procs[last.pid].pc.Increment? ==>
        At(t, last.pid, t.procs[last.pid].pc.vote);
      forall q, i: nat ensures !At(Step(t, last), q, i) {
        assert At(Step(t, last), q, i) ==> At(t, q, i);
      }
    }
  }

  /** Reconciliation: whatever drift a run has built up, a rebuild that no vote overlaps,
      neither one waiting for its increment when it aggregates nor one stored before it
      writes, leaves the hash readable, quiet and exact, whatever else happens meanwhile. */
  lemma UndisturbedRebuildRepairs(poll: PollId, options: set<OptionId>, es: seq<Event>, es2: seq<Event>,
                                  pid: Pid, o: OptionId)
    requires options != {}
    requires Enabled(Run(Init(poll, options), es), RunAggregate(pid, true))
    requires Unsettled(Run(Init(poll, options), es)) == {}
    requires forall i :: 0 <= i < |es2| ==> !es2[i].Cast? && CallOf(es2[i]) != Some(pid)
    ensures var s := Run(Init(poll, options), es + [RunAggregate(pid, true)] + es2 + [RunReplace(pid, Up)]);
            Readable(s.hash) && Quiet(s) && CountOf(s.hash, o) == Tally(s.log, poll, o)
  {
    var s0 := Init(poll, options);
    var upToAggregate := es + [RunAggregate(pid, true)];
    RunKeeps(poll, options, es);
    Unroll(s0, es, RunAggregate(pid, true));
    var mid := Run(s0, upToAggregate);
    forall q, i: nat ensures !At(mid, q, i) {
      assert !At(Run(s0, es), q, i);
    }
    SnapshotStaysWhole(mid, es2, pid);
    RunTwice(s0, upToAggregate, es2);
    Unroll(s0, upToAggregate + es2, RunReplace(pid, Up));
    ParametersStay(s0, upToAggregate + es2);
    RunKeeps(poll, options, upToAggregate + es2);
    WholeSnapshotIsQuiet(Run(mid, es2), pid);
    ParametersStay(s0, upToAggregate + es2 + [RunReplace(pid, Up)]);
    QuietMeansExact(poll, options, upToAggregate + es2 + [RunReplace(pid, Up)], o);
  }

  lemma WholeSnapshotIsQuiet(s: State, pid: Pid)
    requires Inv(s) && s.options != {} && Enabled(s, RunReplace(pid, Up))
    requires s.procs[pid].pc.upTo == |s.log| && s.procs[pid].pc.unsettled == {}
    requires forall q, i: nat :: !At(s, q, i)
    ensures var t := Step(s, RunReplace(pid, Up)); Readable(t.hash) && Quiet(t)
  {
    var t := Step(s, RunReplace(pid, Up));
    forall q, i: nat ensures !At(t, q, i) {
      assert !At(s, q, i);
    }
    assert Unsettled(t) == {};
    var some :| some in s.options;
    assert some in t.hash;
  }

  lemma {:induction false} RunTwice(s: State, a: seq<Event>, b: seq<Event>)
    ensures Run(s, a + b) == Run(Run(s, a), b)
  {
    if b == [] {
      assert a + b == a;
    } else {
      RunTwice(s, a, b[..|b| - 1]);
      assert (a + b)[..|a + b| - 1] == a + b[..|b| - 1];
    }
  }

  // ---- Exactly when a rebuild is harmless ---------------------------------------------------

  lemma {:induction false} TallyOfPrefix(log: seq<Vote>, p: PollId, o: OptionId, n: nat)
    requires n <= |log| && forall i :: 0 <= i < |log| ==> log[i].poll == p
    ensures Tally(log[..n], p, o) <= Tally(log, p, o)
    ensures Tally(log[..n], p, o) == Tally(log, p, o) <==> forall i :: n <= i < |log| ==> log[i].option != o
  {
    if n == |log| {
      assert log[..n] == log;
    } else {
      var front := log[..|log| - 1];
      TallyOfPrefix(front, p, o, n);
      assert front[..n] == log[..n] && log == front + [log[|log| - 1]];
      TallyAppend(front, log[|log| - 1], p, o);
      assert forall i :: 0 <= i < |front| ==> front[i] == log[i];
    }
  }

  lemma SplitInTwo(log: seq<Vote>, s: set<nat>, early: set<nat>, late: set<nat>, o: OptionId)
    requires s == early + late && early * late == {}
    ensures |Of(log, s, o)| == |Of(log, early, o)| + |Of(log, late, o)|
  {
    assert Of(log, s, o) == Of(log, early, o) + Of(log, late, o);
    assert Of(log, early, o) * Of(log, late, o) == {};
  }

  /** In every run, a rebuild's write leaves the counter of an option short by the votes for
      it stored since the rebuild aggregated: exact if and only if there are none. */
  lemma RebuildWritesTheTruthIff(poll: PollId, options: set<OptionId>, es: seq<Event>, pid: Pid, link: Link,
                                 o: OptionId)
    requires Enabled(Run(Init(poll, options), es), RunReplace(pid, link)) && Applied(link)
    ensures var s := Run(Init(poll, options), es);
            var n, counter := s.procs[pid].pc.upTo, CountOf(Step(s, RunReplace(pid, link)).hash, o);
            && (counter == Tally(s.log, poll, o) <==> forall i :: n <= i < |s.log| ==> s.log[i].option != o)
            && Tally(s.log, poll, o) - counter == |Of(s.log, Prefix(|s.log|) - Prefix(n), o)|
  {
    var s := ReachedState(poll, options, es, o);
    ParametersStay(Init(poll, options), es);
    var n := s.procs[pid].pc.upTo;
    FreshHash(s, n, o);
    TallyCounts(s.log, poll, o, n);
    TallyOfPrefix(s.log, poll, o, n);
    SplitInTwo(s.log, Prefix(|s.log|), Prefix(n), Prefix(|s.log|) - Prefix(n), o);
  }

  /** An event that loses no increment and does not overwrite the hash. */
  predicate Careful(e: Event) {
    match e
    case Cast(_, _, _, link) => link == Up
    case RunIncrement(_, link) => Applied(link)
    case RunReplace(_, link) => link == Down
    case Expire => false
    case Corrupt(_) => false
    case _ => true
  }

  /** Since `s`, which held a snapshot of `n` votes just written: every vote then waiting
      for its increment, and every vote stored since, is either counted or still waiting,
      and nothing else has been counted. */
  ghost predicate CountedSince(s: State, t: State) {
    && t.seen == s.seen && Readable(t.hash) && s.log <= t.log
    && forall i: nat :: (i in t.landed || i in Unsettled(t)) <==> (i in Unsettled(s) || |s.log| <= i < |t.log|)
  }

  lemma CarefulStep(s: State, t: State, e: Event)
    requires Inv(t) && CountedSince(s, t) && Careful(e)
    ensures CountedSince(s, Step(t, e))
  {
    var t' := Step(t, e);
    if e.Cast? && Enabled(t, e) {
      forall q, i: nat ensures At(t', q, i) <==> At(t, q, i) || (q == e.pid && i == |t.log|) {}
      assert At(t', e.pid, |t.log|);
      forall i: nat ensures i in Unsettled(t') <==> i in Unsettled(t) || i == |t.log| {
        if i in Unsettled(t) {
          var q :| At(t, q, i);
          assert At(t', q, i);
        }
      }
    } else if e.RunIncrement? && Enabled(t, e) {
      CarefulIncrement(s, t, e.pid, e.link);
    } else {
      forall q, i: nat ensures At(t', q, i) <==> At(t, q, i) {}
      assert Unsettled(t') == Unsettled(t);
    }
  }

  lemma CarefulIncrement(s: State, t: State, pid: Pid, link: Link)
    requires Inv(t) && CountedSince(s, t) && Applied(link) && Enabled(t, RunIncrement(pid, link))
    ensures CountedSince(s, Step(t, RunIncrement(pid, link)))
  {
    var t', i := Step(t, RunIncrement(pid, link)), t.procs[pid].pc.vote;
    ScriptKeepsReadability(t.hash, t.log[i].option);
    assert At(t, pid, i);
    forall q, j: nat ensures At(t', q, j) <==> At(t, q, j) && q != pid {}
    forall j: nat ensures j in Unsettled(t') <==> j in Unsettled(t) && j != i {
      if j in Unsettled(t) && j != i {
        var q :| At(t, q, j);
        assert At(t', q, j);
      }
    }
  }

  lemma {:induction false} CarefulRun(s: State, es: seq<Event>)
    requires Inv(s) && CountedSince(s, s) && forall i :: 0 <= i < |es| ==> Careful(es[i])
    ensures Inv(Run(s, es)) && CountedSince(s, Run(s, es))
  {
    if |es| > 0 {
      var front := es[..|es| - 1];
      CarefulRun(s, front);
      StepKeeps(Run(s, front), es[|es| - 1]);
      CarefulStep(s, Run(s, front), es[|es| - 1]);
    }
  }

  /** The votes of a state that a snapshot of `n` will count a second time: inside it, yet
      waiting for their increment. */
  function CountedAgain(s: State, n: nat, o: OptionId): set<nat> {
    Of(s.log, Prefix(n) * Unsettled(s), o)
  }

  /** Those it will never count: outside it, and no longer waiting. */
  function LeftOut(s: State, n: nat, o: OptionId): set<nat> {
    Of(s.log, Prefix(|s.log|) - Prefix(n) - Unsettled(s), o)
  }

  /** What a snapshot does to a counter for good.  Take any run, a rebuild about to write,
      and any continuation that loses no increment, does not overwrite the hash again and
      ends with no increment waiting.  Then the counter ends off by exactly the votes the
      snapshot counts again less those it leaves out, both known before the write; so it
      ends exact if and only if they are equally many. */
  lemma SettledCounterExactIff(poll: PollId, options: set<OptionId>, es: seq<Event>, pid: Pid, link: Link,
                               es2: seq<Event>, o: OptionId)
    requires options != {}
    requires Enabled(Run(Init(poll, options), es), RunReplace(pid, link)) && Applied(link)
    requires forall i :: 0 <= i < |es2| ==> Careful(es2[i])
    requires Unsettled(Run(Step(Run(Init(poll, options), es), RunReplace(pid, link)), es2)) == {}
    ensures var s := Run(Init(poll, options), es);
            var n := s.procs[pid].pc.upTo;
            var t := Run(Step(s, RunReplace(pid, link)), es2);
            && Readable(t.hash)
            && CountOf(t.hash, o) - Tally(t.log, poll, o) == |CountedAgain(s, n, o)| - |LeftOut(s, n, o)|
            && (CountOf(t.hash, o) == Tally(t.log, poll, o) <==> |CountedAgain(s, n, o)| == |LeftOut(s, n, o)|)
  {
    var s := ReachedState(poll, options, es, o);
    ParametersStay(Init(poll, options), es);
    var n, written := s.procs[pid].pc.upTo, Step(s, RunReplace(pid, link));
    JustWritten(s, pid, link);
    StepKeeps(s, RunReplace(pid, link));
    CarefulRun(written, es2);
    ParametersStay(written, es2);
    SettledSum(s, written, Run(written, es2), n, o);
  }

  lemma JustWritten(s: State, pid: Pid, link: Link)
    requires Inv(s) && s.options != {} && Enabled(s, RunReplace(pid, link)) && Applied(link)
    ensures var t := Step(s, RunReplace(pid, link));
            t.seen == s.procs[pid].pc.upTo && t.log == s.log && Unsettled(t) == Unsettled(s) && CountedSince(t, t)
  {
    var t := Step(s, RunReplace(pid, link));
    forall q, i: nat ensures At(t, q, i) <==> At(s, q, i) {}
    forall i: nat ensures i in Unsettled(t) <==> i in Unsettled(s) {
      if i in Unsettled(s) {
        var q :| At(s, q, i);
        assert At(t, q, i);
      }
    }
    var some :| some in s.options;
    assert some in t.hash;
  }

  /** What a longer log holds at positions of a shorter one is what the shorter one held. */
  lemma OfLonger(log: seq<Vote>, longer: seq<Vote>, s: set<nat>, o: OptionId)
    requires log <= longer && forall i :: i in s ==> i < |log|
    ensures Of(longer, s, o) == Of(log, s, o)
  {}

  lemma UnsettledAreStored(s: State)
    requires Inv(s)
    ensures forall i :: i in Unsettled(s) ==> i < |s.log|
  {
    forall i | i in Unsettled(s) ensures i < |s.log| {
      var q :| At(s, q, i);
    }
  }

  lemma SettledSum(s: State, written: State, t: State, n: nat, o: OptionId)
    requires Inv(s) && Inv(t) && CountedSince(written, t) && Unsettled(t) == {}
    requires written.seen == n <= |s.log| && written.log == s.log && Unsettled(written) == Unsettled(s)
    requires t.poll == s.poll
    ensures CountOf(t.hash, o) - Tally(t.log, t.poll, o) == |CountedAgain(s, n, o)| - |LeftOut(s, n, o)|
  {
    var later := Prefix(|t.log|) - Prefix(|s.log|);
    UnsettledAreStored(s);
    LandedSince(s, written, t);
    SplitInTwo(t.log, t.landed, Unsettled(s), later, o);
    OfLonger(s.log, t.log, Unsettled(s), o);
    OfLonger(s.log, t.log, Prefix(n), o);
    TallyCounts(t.log, t.poll, o, |t.log|);
    assert t.log[..|t.log|] == t.log;
    SplitInTwo(t.log, Prefix(|t.log|), Prefix(|s.log|), later, o);
    OfLonger(s.log, t.log, Prefix(|s.log|), o);
    AgainAndLeftOut(s.log, Unsettled(s), n, o);
  }

  lemma LandedSince(s: State, written: State, t: State)
    requires Inv(t) && CountedSince(written, t) && Unsettled(t) == {}
    requires written.log == s.log && Unsettled(written) == Unsettled(s)
    ensures t.landed == Unsettled(s) + (Prefix(|t.log|) - Prefix(|s.log|))
  {
    forall i ensures i in t.landed <==> i in Unsettled(s) + (Prefix(|t.log|) - Prefix(|s.log|)) {
      assert i in t.landed || i in Unsettled(t) <==> i in Unsettled(written) || |s.log| <= i < |t.log|;
    }
  }

  lemma AgainAndLeftOut(log: seq<Vote>, waiting: set<nat>, n: nat, o: OptionId)
    requires n <= |log| && forall i :: i in waiting ==> i < |log|
    ensures |Of(log, Prefix(n), o)| + |Of(log, waiting, o)| - |Of(log, Prefix(|log|), o)|
         == |Of(log, Prefix(n) * waiting, o)| - |Of(log, Prefix(|log|) - Prefix(n) - waiting, o)|
  {
    var a, b, all := Of(log, Prefix(n), o), Of(log, waiting, o), Of(log, Prefix(|log|), o);
    SetSizes(all, a, b);
    assert a * b == Of(log, Prefix(n) * waiting, o);
    assert all - (a + b) == Of(log, Prefix(|log|) - Prefix(n) - waiting, o);
  }

  /** The k-th event was this call's read of the hash it answered with. */
  ghost predicate ReadAt(poll: PollId, options: set<OptionId>, es: seq<Event>, pid: Pid, p: Proc, k: nat)
    requires k < |es| && p.pc.Answered?
  {
    var s := Run(Init(poll, options), es[..k]);
    && es[k] == RunRead(pid, Up) && Enabled(s, es[k]) && Readable(s.hash)
    && p.pc.counts == s.hash && p.start == s.procs[pid].start
  }

  lemma OnlyAReadAnswersFromTheCache(s: State, e: Event, pid: Pid)
    requires var t := Step(s, e); pid in t.procs && t.procs[pid].pc.Answered? && t.procs[pid].pc.truth.None?
    requires pid in s.procs ==> s.procs[pid] != Step(s, e).procs[pid]
    ensures e == RunRead(pid, Up) && Enabled(s, e) && Readable(s.hash)
    ensures Step(s, e).procs[pid].pc.counts == s.hash && Step(s, e).procs[pid].start == s.procs[pid].start
  {}

  lemma {:induction false} CacheAnswerWasRead(poll: PollId, options: set<OptionId>, es: seq<Event>, pid: Pid)
    requires var s := Run(Init(poll, options), es);
             pid in s.procs && s.procs[pid].pc.Answered? && s.procs[pid].pc.truth.None?
    ensures exists k :: 0 <= k < |es| && ReadAt(poll, options, es, pid, Run(Init(poll, options), es).procs[pid], k)
  {
    if |es| > 0 {
      var front, last := es[..|es| - 1], es[|es| - 1];
      var s, t := Run(Init(poll, options), front), Run(Init(poll, options), es);
      if pid in s.procs && s.procs[pid] == t.procs[pid] {
        CacheAnswerWasRead(poll, options, front, pid);
        var k :| 0 <= k < |front| && ReadAt(poll, options, front, pid, s.procs[pid], k);
        assert es[..k] == front[..k] && es[k] == front[k];
        assert ReadAt(poll, options, es, pid, t.procs[pid], k);
      } else {
        OnlyAReadAnswersFromTheCache(s, last, pid);
        assert ReadAt(poll, options, es, pid, t.procs[pid], |es| - 1);
      }
    }
  }

  /** What a count read in this state is off by, and within which bounds. */
  ghost predicate CountedAs(s: State, poll: PollId, o: OptionId, count: int) {
    && count - Tally(s.log, poll, o)
         == |Snapshot(s, o) * Increments(s, o)| - |All(s, o) - (Snapshot(s, o) + Increments(s, o))|
    && 0 <= count <= 2 * Tally(s.log, poll, o)
    && forall i :: i in All(s, o) - (Snapshot(s, o) + Increments(s, o)) ==> Excused(s, i)
  }

  /** An answer that went through the votes collection is the true tally of some moment
      between the call's start and now.  One from the cache was read at some such moment,
      and is off from the truth of that moment by the votes then counted twice less those
      then not counted, each of which has its reason. */
  lemma AnswersAreBounded(poll: PollId, options: set<OptionId>, es: seq<Event>, pid: Pid, o: OptionId)
    requires pid in Run(Init(poll, options), es).procs && Run(Init(poll, options), es).procs[pid].pc.Answered?
    ensures var s := Run(Init(poll, options), es);
            var p := s.procs[pid];
            match p.pc.truth
            case Some(n) => p.start <= n <= |s.log| && CountOf(p.pc.counts, o) == Tally(s.log[..n], poll, o)
            case None =>
              && 0 <= CountOf(p.pc.counts, o) <= 2 * Tally(s.log, poll, o)
              && (exists k :: 0 <= k < |es| && ReadAt(poll, options, es, pid, p, k)
                    && p.start <= |Run(Init(poll, options), es[..k]).log|
                    && CountedAs(Run(Init(poll, options), es[..k]), poll, o, CountOf(p.pc.counts, o)))
  {
    var s := ReachedState(poll, options, es, o);
    ParametersStay(Init(poll, options), es);
    assert ProcOk(s, s.procs[pid]);
    if s.procs[pid].pc.truth.Some? {
      var n := s.procs[pid].pc.truth.value;
      FreshHash(s, n, o);
      TallyCounts(s.log, s.poll, o, n);
    } else {
      CacheAnswerWasRead(poll, options, es, pid);
      var k :| 0 <= k < |es| && ReadAt(poll, options, es, pid, s.procs[pid], k);
      ReadableIsCountedAs(poll, options, es[..k], o);
      StartedBefore(poll, options, es[..k], pid);
    }
  }

  lemma StartedBefore(poll: PollId, options: set<OptionId>, es: seq<Event>, pid: Pid)
    requires pid in Run(Init(poll, options), es).procs
    ensures Run(Init(poll, options), es).procs[pid].start <= |Run(Init(poll, options), es).log|
  {
    RunKeeps(poll, options, es);
    assert ProcOk(Run(Init(poll, options), es), Run(Init(poll, options), es).procs[pid]);
  }

  lemma ReadableIsCountedAs(poll: PollId, options: set<OptionId>, es: seq<Event>, o: OptionId)
    requires Readable(Run(Init(poll, options), es).hash)
    ensures CountedAs(Run(Init(poll, options), es), poll, o, CountOf(Run(Init(poll, options), es).hash, o))
  {
    ParametersStay(Init(poll, options), es);
    DriftIdentity(poll, options, es, o);
    DriftBounds(poll, options, es, o);
  }

  lemma {:induction false} ParametersStay(s: State, es: seq<Event>)
    ensures Run(s, es).poll == s.poll && Run(s, es).options == s.options
  {
    if |es| > 0 {
      ParametersStay(s, es[..|es| - 1]);
    }
  }

  /** Stored votes stay where they were stored. */
  lemma {:induction false} LogOnlyGrows(s: State, es: seq<Event>)
    ensures s.log <= Run(s, es).log
  {
    if |es| > 0 {
      LogOnlyGrows(s, es[..|es| - 1]);
    }
  }

  /** Under any interleaving: one vote per voter, no more increments carried out than
      votes stored, and whatever became of a call that stored a vote, its vote is there,
      for the option and the voter it came with. */
  lemma DurableAndUnique(poll: PollId, options: set<OptionId>, es: seq<Event>, pid: Pid)
    ensures var s := Run(Init(poll, options), es);
            && Unique(s.log)
            && s.applied <= |s.log|
            && (pid in s.procs && s.procs[pid].vote.Some? ==>
                  exists k :: 0 <= k < |es| && CastBy(es[k], pid) && StoredAs(s, pid, es[k]))
  {
    RunKeeps(poll, options, es);
    var s := Run(Init(poll, options), es);
    SubsetSize(s.everLanded, Prefix(|s.log|));
    PrefixSize(|s.log|);
    if pid in s.procs && s.procs[pid].vote.Some? {
      StoredByItsCast(poll, options, es, pid);
    }
  }

  predicate CastBy(e: Event, pid: Pid) {
    e.Cast? && e.pid == pid
  }

  predicate StoredAs(s: State, pid: Pid, e: Event)
    requires e.Cast?
  {
    && pid in s.procs && s.procs[pid].vote.Some? && s.procs[pid].vote.value < |s.log|
    && s.log[s.procs[pid].vote.value] == Vote(s.poll, e.option, e.voter)
  }

  lemma {:induction false} StoredByItsCast(poll: PollId, options: set<OptionId>, es: seq<Event>, pid: Pid)
    requires var s := Run(Init(poll, options), es); pid in s.procs && s.procs[pid].vote.Some?
    ensures exists k :: 0 <= k < |es| && CastBy(es[k], pid) && StoredAs(Run(Init(poll, options), es), pid, es[k])
  {
    if |es| > 0 {
      var front, last := es[..|es| - 1], es[|es| - 1];
      var s, t := Run(Init(poll, options), front), Run(Init(poll, options), es);
      if CastBy(last, pid) && Enabled(s, last) {
        assert StoredAs(t, pid, es[|es| - 1]);
      } else {
        assert pid in s.procs && s.procs[pid].vote == t.procs[pid].vote;
        StoredByItsCast(poll, options, front, pid);
        var k :| 0 <= k < |front| && CastBy(front[k], pid) && StoredAs(s, pid, front[k]);
        assert StoredAs(t, pid, es[k]);
      }
    }
  }

  /** A Cast that stores its vote stores it for good: after any continuation it is in the
      collection, at its place, and is the voter's only vote. */
  lemma StoredForGood(poll: PollId, options: set<OptionId>, es: seq<Event>, es2: seq<Event>,
                      pid: Pid, option: OptionId, voter: VoterId, link: Link)
    requires Enabled(Run(Init(poll, options), es), Cast(pid, option, voter, link))
    ensures var place := |Run(Init(poll, options), es).log|;
            var log := Run(Run(Init(poll, options), es + [Cast(pid, option, voter, link)]), es2).log;
            && place < |log| && log[place] == Vote(poll, option, voter)
            && forall i :: 0 <= i < |log| && log[i].voter == voter ==> i == place
  {
    var s0, cast := Init(poll, options), Cast(pid, option, voter, link);
    Unroll(s0, es, cast);
    ParametersStay(s0, es);
    LogOnlyGrows(Run(s0, es + [cast]), es2);
    RunTwice(s0, es + [cast], es2);
    RunKeeps(poll, options, es + [cast] + es2);
    ParametersStay(s0, es + [cast] + es2);
    var log, place := Run(s0, es + [cast] + es2).log, |Run(s0, es).log|;
    assert log[place] == Run(s0, es + [cast]).log[place];
    forall i | 0 <= i < |log| && log[i].voter == voter ensures i == place {
      assert log[i].poll == log[place].poll;
    }
  }

  lemma {:induction false} PrefixSize(n: nat)
    ensures |Prefix(n)| == n
  {
    if n > 0 {
      PrefixSize(n - 1);
    }
  }

  // ---- One Cast with nothing beside it -------------------------------------------------------

  /** No increment is ahead of anybody, and a hash that can be read is a quiet one. */
  ghost predicate Calm(s: State) {
    Unsettled(s) == {} && (Readable(s.hash) ==> Quiet(s))
  }

  lemma NobodyWaits(s: State)
    requires forall q, i: nat :: !At(s, q, i)
    ensures Unsettled(s) == {}
  {
    assert forall i :: i in Unsettled(s) ==> exists q :: At(s, q, i);
  }

  lemma CalmInsert(s: State, pid: Pid, option: OptionId, voter: VoterId)
    requires Inv(s) && Calm(s) && Enabled(s, Cast(pid, option, voter, Up))
    ensures var t := Step(s, Cast(pid, option, voter, Up));
            && (forall q, j: nat :: At(t, q, j) <==> q == pid && j == |s.log|)
            && (Readable(t.hash) ==> t.busy == {} && t.seen == t.replacedAt && forall j :: j in t.missed ==> j < t.seen)
  {
    var t := Step(s, Cast(pid, option, voter, Up));
    forall q, j: nat ensures At(t, q, j) <==> q == pid && j == |s.log| {
      assert q != pid ==> (At(t, q, j) <==> At(s, q, j));
    }
  }

  /** Warm, the increment lands and the call goes on to read; cold, it turns to a
      rebuild; refused, it goes on to read a hash that cannot be read. */
  lemma CalmIncrement(s: State, pid: Pid, i: nat)
    requires Inv(s) && forall q, j: nat :: At(s, q, j) <==> q == pid && j == i
    requires Readable(s.hash) ==> s.busy == {} && s.seen == s.replacedAt && forall j :: j in s.missed ==> j < s.seen
    ensures var t := Step(s, RunIncrement(pid, Up));
            && Calm(t) && t.log == s.log && pid in t.procs
            && (t.procs[pid].pc == Read || t.procs[pid].pc == Aggregate(Maintenance))
  {
    assert At(s, pid, i);
    var o, t := s.log[i].option, Step(s, RunIncrement(pid, Up));
    ScriptKeepsReadability(s.hash, o);
    ColdReplyMeaning(s.hash, o);
    if Readable(s.hash) {
      CounterBound(s, o);
    }
    forall q, j: nat ensures !At(t, q, j) {
      assert q != pid ==> (At(t, q, j) <==> At(s, q, j));
    }
    NobodyWaits(t);
  }

  /** If the call has turned to a rebuild, carry it out; otherwise both events do nothing. */
  lemma CalmRebuild(s: State, pid: Pid)
    requires Inv(s) && Calm(s) && s.options != {} && pid in s.procs && !s.procs[pid].pc.Replace?
    ensures var t := Run(s, AskedRebuild(pid, true, Up));
            && Inv(t) && Calm(t) && t.log == s.log && t.options == s.options && pid in t.procs
            && if s.procs[pid].pc.Aggregate? then
                 Readable(t.hash) && t.procs[pid].pc == if s.procs[pid].pc.caller == Maintenance then Read
                                                        else Answered(t.hash, Some(|t.log|))
               else t == s
  {
    RunPair(s, RunAggregate(pid, true), RunReplace(pid, Up));
    if s.procs[pid].pc.Aggregate? {
      var mid := Step(s, RunAggregate(pid, true));
      StepKeeps(s, RunAggregate(pid, true));
      StepKeeps(mid, RunReplace(pid, Up));
      forall q, j: nat ensures !At(mid, q, j) {
        assert !At(s, q, j);
      }
      WholeSnapshotIsQuiet(mid, pid);
    }
  }

  lemma CalmRead(s: State, pid: Pid)
    requires Calm(s) && pid in s.procs && s.procs[pid].pc == Read
    ensures var t := Step(s, RunRead(pid, Up));
            && Calm(t) && t.log == s.log && t.hash == s.hash && pid in t.procs
            && t.procs[pid].pc == if Readable(s.hash) then Answered(s.hash, None) else Aggregate(Reader)
  {
    var t := Step(s, RunRead(pid, Up));
    forall q, j: nat ensures !At(t, q, j) {
      assert At(t, q, j) ==> At(s, q, j);
    }
    NobodyWaits(t);
  }

  /** Everything one Cast can do by itself, in order: insert, increment, the rebuild of a
      cold hash, read, the rebuild of an unreadable one.  What does not apply does nothing. */
  function WholeCast(pid: Pid, option: OptionId, voter: VoterId, f: Calls.CastFaults): seq<Event> {
    [Cast(pid, option, voter, f.insert), RunIncrement(pid, f.increment)]
      + AskedRebuild(pid, f.coldAggregate, f.coldReplace) + WholeRead(pid, f.read)
  }

  function WholeRead(pid: Pid, f: ReadFaults): seq<Event> {
    [RunRead(pid, f.read)] + AskedRebuild(pid, f.aggregate, f.replace)
  }

  function AskedRebuild(pid: Pid, aggregate: bool, replace: Link): seq<Event> {
    [RunAggregate(pid, aggregate), RunReplace(pid, replace)]
  }

  lemma RunPair(s: State, a: Event, b: Event)
    ensures Run(s, [a, b]) == Step(Step(s, a), b)
  {
    Unroll(s, [], a);
    Unroll(s, [a], b);
    assert [] + [a] == [a] && [a] + [b] == [a, b];
  }

  lemma WholeReadUnrolled(s: State, pid: Pid, f: ReadFaults)
    ensures Run(s, WholeRead(pid, f)) == Run(Step(s, RunRead(pid, f.read)), AskedRebuild(pid, f.aggregate, f.replace))
  {
    RunTwice(s, [RunRead(pid, f.read)], AskedRebuild(pid, f.aggregate, f.replace));
    Unroll(s, [], RunRead(pid, f.read));
    assert [] + [RunRead(pid, f.read)] == [RunRead(pid, f.read)];
  }

  lemma WholeCastUnrolled(s: State, pid: Pid, option: OptionId, voter: VoterId, f: Calls.CastFaults)
    ensures var counted := Step(Step(s, Cast(pid, option, voter, f.insert)), RunIncrement(pid, f.increment));
            Run(s, WholeCast(pid, option, voter, f))
              == Run(Run(counted, AskedRebuild(pid, f.coldAggregate, f.coldReplace)), WholeRead(pid, f.read))
  {
    var a, b := [Cast(pid, option, voter, f.insert), RunIncrement(pid, f.increment)],
                AskedRebuild(pid, f.coldAggregate, f.coldReplace);
    RunTwice(s, a + b, WholeRead(pid, f.read));
    RunTwice(s, a, b);
    RunPair(s, a[0], a[1]);
  }

  /** One Cast that nothing overlaps, on a hash that is warm, cold or junk: whatever came
      before, if no increment is ahead of anybody and a readable hash is a quiet one, it
      leaves the hash readable, quiet and exact, and answers its voter the true tally,
      the new vote included. */
  lemma UndisturbedCastStaysExact(poll: PollId, options: set<OptionId>, es: seq<Event>,
                                  pid: Pid, option: OptionId, voter: VoterId, o: OptionId)
    requires var s := Run(Init(poll, options), es);
             Calm(s) && Enabled(s, Cast(pid, option, voter, Up))
    ensures var s := Run(Init(poll, options), es + WholeCast(pid, option, voter, Calls.NO_FAULTS));
            && Quiet(s) && Readable(s.hash) && CountOf(s.hash, o) == Tally(s.log, poll, o)
            && pid in s.procs && s.procs[pid].pc.Answered? && s.procs[pid].pc.counts == s.hash
            && s.log == Run(Init(poll, options), es).log + [Vote(poll, option, voter)]
  {
    var s0 := Init(poll, options);
    var s := Run(s0, es);
    RunKeeps(poll, options, es);
    ParametersStay(s0, es);
    RunTwice(s0, es, WholeCast(pid, option, voter, Calls.NO_FAULTS));
    WholeCastIsCalm(s, pid, option, voter);
    ParametersStay(s0, es + WholeCast(pid, option, voter, Calls.NO_FAULTS));
    QuietMeansExact(poll, options, es + WholeCast(pid, option, voter, Calls.NO_FAULTS), o);
  }

  lemma WholeCastIsCalm(s: State, pid: Pid, option: OptionId, voter: VoterId)
    requires Inv(s) && Calm(s) && Enabled(s, Cast(pid, option, voter, Up))
    ensures var t := Run(s, WholeCast(pid, option, voter, Calls.NO_FAULTS));
            && Quiet(t) && Readable(t.hash) && t.log == s.log + [Vote(s.poll, option, voter)]
            && pid in t.procs && t.procs[pid].pc.Answered? && t.procs[pid].pc.counts == t.hash
  {
    var insert, increment := Cast(pid, option, voter, Up), RunIncrement(pid, Up);
    var inserted := Step(s, insert);
    var counted := Step(inserted, increment);
    var rebuilt := Run(counted, AskedRebuild(pid, true, Up));
    WholeCastUnrolled(s, pid, option, voter, Calls.NO_FAULTS);
    WholeReadUnrolled(rebuilt, pid, Calls.NO_FAULTS.read);
    StepKeeps(s, insert);
    CalmInsert(s, pid, option, voter);
    StepKeeps(inserted, increment);
    CalmIncrement(inserted, pid, |s.log|);
    ParametersStay(s, [insert, increment]);
    RunPair(s, insert, increment);
    CalmRebuild(counted, pid);
    CalmRead(rebuilt, pid);
    StepKeeps(rebuilt, RunRead(pid, Up));
    ParametersStay(rebuilt, [RunRead(pid, Up)]);
    Unroll(rebuilt, [], RunRead(pid, Up));
    assert [] + [RunRead(pid, Up)] == [RunRead(pid, Up)];
    CalmRebuild(Step(rebuilt, RunRead(pid, Up)), pid);
  }

  // ---- A lost cache does no harm -----------------------------------------------------------------

  /** Whatever drift a run has built up and whatever is pending: once the hash is dropped or
      overwritten with junk, a read that nothing overlaps goes through the votes collection
      and answers the true tally. */
  lemma ReadAfterFlushIsTrue(poll: PollId, options: set<OptionId>, es: seq<Event>, flush: Event, pid: Pid, o: OptionId)
    requires flush == Expire || (flush.Corrupt? && !Readable(flush.h))
    requires pid !in Run(Init(poll, options), es).procs
    ensures var s := Run(Init(poll, options), es + [flush] + [View(pid)] + WholeRead(pid, Calls.NO_FAULTS.read));
            && pid in s.procs && s.procs[pid].pc.Answered? && s.procs[pid].pc.truth == Some(|s.log|)
            && CountOf(s.procs[pid].pc.counts, o) == Tally(s.log, poll, o)
  {
    var s0 := Init(poll, options);
    var flushed := es + [flush];
    Unroll(s0, es, flush);
    Unroll(s0, flushed, View(pid));
    var viewing := Run(s0, flushed + [View(pid)]);
    assert !Readable(viewing.hash) && viewing.procs[pid].pc == Read;
    RunTwice(s0, flushed + [View(pid)], WholeRead(pid, Calls.NO_FAULTS.read));
    UnreadableIsRebuilt(viewing, pid);
    AnswersAreBounded(poll, options, flushed + [View(pid)] + WholeRead(pid, Calls.NO_FAULTS.read), pid, o);
    var s := Run(viewing, WholeRead(pid, Calls.NO_FAULTS.read));
    assert s.log[..|s.log|] == s.log;
  }

  lemma UnreadableIsRebuilt(s: State, pid: Pid)
    requires pid in s.procs && s.procs[pid].pc == Read && !Readable(s.hash)
    ensures var t := Run(s, WholeRead(pid, Calls.NO_FAULTS.read));
            pid in t.procs && t.procs[pid].pc.Answered? && t.procs[pid].pc.truth == Some(|t.log|)
  {
    WholeReadUnrolled(s, pid, Calls.NO_FAULTS.read);
    RunPair(Step(s, RunRead(pid, Up)), RunAggregate(pid, true), RunReplace(pid, Up));
  }

  // ---- Two schedules ------------------------------------------------------------------------

  /** One option, one voter, one vote stored by call 1; call 2 has aggregated `upTo` votes
      for a viewer. */
  ghost predicate Racing(s: State, poll: PollId, casting: Pc, upTo: nat) {
    && s.poll == poll && s.options == {"a"} && s.log == [Vote(poll, "a", "v")]
    && s.procs.Keys == {1, 2} && s.procs[1].pc == casting
    && s.procs[2].pc.Replace? && s.procs[2].pc.caller == Reader && s.procs[2].pc.upTo == upTo
  }

  lemma OneVote(poll: PollId)
    ensures var log := [Vote(poll, "a", "v")];
            Tally(log, poll, "a") == 1 && log[..1] == log && log[..0] == [] && !HasVoted([], poll, "v")
  {
    TallyAppend([], Vote(poll, "a", "v"), poll, "a");
    assert [] + [Vote(poll, "a", "v")] == [Vote(poll, "a", "v")];
  }

  lemma Unroll(s: State, es: seq<Event>, e: Event)
    ensures Run(s, es + [e]) == Step(Run(s, es), e)
  {
    assert (es + [e])[..|es|] == es;
  }

  lemma CastThenAggregate(poll: PollId) returns (es: seq<Event>)
    ensures var s := Run(Init(poll, {"a"}), es); Racing(s, poll, Increment(0), 1)
  {
    var s0 := Init(poll, {"a"});
    es := [Cast(1, "a", "v", Up)];
    Unroll(s0, [], es[0]);
    assert Run(s0, es).log == [Vote(poll, "a", "v")];
    Unroll(s0, es, View(2));
    es := es + [View(2)];
    Unroll(s0, es, RunRead(2, Up));
    es := es + [RunRead(2, Up)];
    Unroll(s0, es, RunAggregate(2, true));
    es := es + [RunAggregate(2, true)];
  }

  lemma AggregateNothing(poll: PollId) returns (es: seq<Event>)
    ensures var s := Run(Init(poll, {"a"}), es);
            && s.poll == poll && s.options == {"a"} && s.log == [] && s.hash == map[]
            && s.procs.Keys == {2} && s.procs[2].pc.Replace? && s.procs[2].pc.caller == Reader
            && s.procs[2].pc.upTo == 0
  {
    var s0 := Init(poll, {"a"});
    es := [View(2)];
    Unroll(s0, [], View(2));
    Unroll(s0, es, RunRead(2, Up));
    es := es + [RunRead(2, Up)];
    Unroll(s0, es, RunAggregate(2, true));
    es := es + [RunAggregate(2, true)];
  }

  lemma AggregateThenCast(poll: PollId) returns (es: seq<Event>)
    ensures var s := Run(Init(poll, {"a"}), es); Racing(s, poll, Increment(0), 0) && s.hash == map[]
  {
    es := AggregateNothing(poll);
    Unroll(Init(poll, {"a"}), es, Cast(1, "a", "v", Up));
    es := es + [Cast(1, "a", "v", Up)];
    assert Run(Init(poll, {"a"}), es).log == [] + [Vote(poll, "a", "v")];
  }

  /** The hash a snapshot of `n` of the racing votes leaves behind. */
  lemma Written(s: State, poll: PollId, n: nat)
    requires s.poll == poll && s.options == {"a"} && s.log == [Vote(poll, "a", "v")] && n <= 1
    ensures Readable(TallyHash(s, n)) && "a" in TallyHash(s, n) && CountOf(TallyHash(s, n), "a") == n
  {
    OneVote(poll);
    var counts := map o | o in s.options :: Tally(s.log[..n], s.poll, o);
    assert "a" in counts;
  }

  /** A vote stored but not yet incremented is caught by a viewer's rebuild and counted
      again; its voter is told two votes where there is one. */
  lemma CountedTwice(poll: PollId)
    ensures exists es :: var s := Run(Init(poll, {"a"}), es);
      && Tally(s.log, poll, "a") == 1 && Readable(s.hash) && CountOf(s.hash, "a") == 2
      && 1 in s.procs && s.procs[1].pc == Answered(s.hash, None)
  {
    var s0 := Init(poll, {"a"});
    var es := CastThenAggregate(poll);
    Written(Run(s0, es), poll, 1);
    Unroll(s0, es, RunReplace(2, Up));
    es := es + [RunReplace(2, Up)];
    ScriptKeepsReadability(Run(s0, es).hash, "a");
    Unroll(s0, es, RunIncrement(1, Up));
    es := es + [RunIncrement(1, Up)];
    Unroll(s0, es, RunRead(1, Up));
    es := es + [RunRead(1, Up)];
    OneVote(poll);
    assert Tally(Run(s0, es).log, poll, "a") == 1;
  }

  lemma ExactBeforeOldSnapshot(poll: PollId) returns (es: seq<Event>)
    ensures var s := Run(Init(poll, {"a"}), es);
            Racing(s, poll, Read, 0) && Readable(s.hash) && CountOf(s.hash, "a") == 1
  {
    var s0 := Init(poll, {"a"});
    es := AggregateThenCast(poll);
    Unroll(s0, es, RunIncrement(1, Up));
    es := es + [RunIncrement(1, Up)];
    assert Run(s0, es).procs[1].pc == Aggregate(Maintenance);
    Unroll(s0, es, RunAggregate(1, true));
    es := es + [RunAggregate(1, true)];
    Written(Run(s0, es), poll, 1);
    Unroll(s0, es, RunReplace(1, Up));
    es := es + [RunReplace(1, Up)];
  }

  /** A rebuild that started before a vote writes its old snapshot over the exact counters
      that vote left: the numbers get worse, and the voter's own vote is missing from the
      answer. */
  lemma RebuildMakesItWorse(poll: PollId)
    ensures exists es ::
      var before, after := Run(Init(poll, {"a"}), es), Run(Init(poll, {"a"}), es + [RunReplace(2, Up)]);
      && Readable(before.hash) && CountOf(before.hash, "a") == Tally(before.log, poll, "a") == 1
      && Readable(after.hash) && CountOf(after.hash, "a") == 0 && after.log == before.log
      && var last := Step(after, RunRead(1, Up)); 1 in last.procs && last.procs[1].pc == Answered(after.hash, None)
  {
    var es := ExactBeforeOldSnapshot(poll);
    var before := Run(Init(poll, {"a"}), es);
    Unroll(Init(poll, {"a"}), es, RunReplace(2, Up));
    Written(before, poll, 0);
    OneVote(poll);
    assert CountOf(before.hash, "a") == Tally(before.log, poll, "a") == 1;
  }
}
