/** One poll under overlapping calls: Casts and viewers interleave between the insert,
    the increment, the aggregation, the replacement and the read.  The aggregation, the
    increment script and the replacement are each one step.

    The fields from `seen` on are history: they never influence a step, and let the
    theorems say where a counter's value came from. */
module Concurrent {
  import opened Common
  import opened Votes
  import opened Counters

  type Pid = nat

  /** Who asked for a rebuild: the cache maintenance of a vote, which reads afterwards,
      or a read, which answers with what it aggregated. */
  datatype Caller = Maintenance | Reader

  datatype Pc =
    | Increment(vote: nat)
    | Aggregate(caller: Caller)
    | Replace(caller: Caller, upTo: nat, unsettled: set<nat>)
    | Read
    | Answered(counts: Hash, truth: Option<nat>)
    | Failed

  datatype Proc = Proc(pc: Pc, start: nat, vote: Option<nat>)

  datatype State = State(
    poll: PollId,
    options: set<OptionId>,
    log: seq<Vote>,
    hash: Hash,
    procs: map<Pid, Proc>,
    seen: nat,              // votes in the snapshot last written to the hash
    busy: set<nat>,         // votes stored but not yet incremented when it was taken
    replacedAt: nat,        // votes stored when it was written
    landed: set<nat>,       // votes whose increment was carried out since
    everLanded: set<nat>,
    applied: nat,           // increments ever carried out
    missed: set<nat>)       // votes whose increment was lost or refused

  datatype Event =
    | Cast(pid: Pid, option: OptionId, voter: VoterId, link: Link)
    | View(pid: Pid)
    | RunIncrement(pid: Pid, link: Link)
    | RunAggregate(pid: Pid, ok: bool)
    | RunReplace(pid: Pid, link: Link)
    | RunRead(pid: Pid, link: Link)
    | Expire
    | Corrupt(h: Hash)

  function Init(poll: PollId, options: set<OptionId>): State {
    State(poll, options, [], map[], map[], 0, {}, 0, {}, {}, 0, {})
  }

  // ---- Steps ----------------------------------------------------------------------------

  predicate At(s: State, pid: Pid, i: nat) {
    pid in s.procs && s.procs[pid].pc == Increment(i)
  }

  function Unsettled(s: State): (r: set<nat>)
    ensures forall pid, i: nat :: At(s, pid, i) ==> i in r
    ensures forall i :: i in r ==> exists pid :: At(s, pid, i)
  {
    var r := set pid | pid in s.procs && s.procs[pid].pc.Increment? :: s.procs[pid].pc.vote;
    assert forall pid :: pid in s.procs && s.procs[pid].pc.Increment? ==> At(s, pid, s.procs[pid].pc.vote);
    r
  }

  predicate Enabled(s: State, e: Event) {
    match e
    case Cast(pid, option, voter, link) =>
      pid !in s.procs && option in s.options && Applied(link) && !HasVoted(s.log, s.poll, voter)
    case View(pid) => pid !in s.procs
    case RunIncrement(pid, _) => pid in s.procs && s.procs[pid].pc.Increment? && s.procs[pid].pc.vote < |s.log|
    case RunAggregate(pid, _) => pid in s.procs && s.procs[pid].pc.Aggregate?
    case RunReplace(pid, _) => pid in s.procs && s.procs[pid].pc.Replace? && s.procs[pid].pc.upTo <= |s.log|
    case RunRead(pid, _) => pid in s.procs && s.procs[pid].pc.Read?
    case Expire => true
    case Corrupt(h) => !Readable(h)
  }

  function Goto(s: State, pid: Pid, pc: Pc): State
    requires pid in s.procs
  {
    s.(procs := s.procs[pid := s.procs[pid].(pc := pc)])
  }

  function TallyHash(s: State, n: nat): Hash
    requires n <= |s.log|
  {
    ToHash(map o | o in s.options :: Tally(s.log[..n], s.poll, o))
  }

  function CastStep(s: State, pid: Pid, option: OptionId, voter: VoterId, link: Link): State {
    var i := |s.log|;
    s.(log := s.log + [Vote(s.poll, option, voter)],
       procs := s.procs[pid := Proc(if link == Up then Increment(i) else Failed, i, Some(i))],
       missed := if link == Up then s.missed else s.missed + {i})
  }

  function IncrementStep(s: State, pid: Pid, link: Link): State
    requires Enabled(s, RunIncrement(pid, link))
  {
    var i := s.procs[pid].pc.vote;
    var (h', reply) := Script(s.hash, s.log[i].option);
    if !Applied(link) || reply.ScriptError? then
      Goto(s.(missed := s.missed + {i}), pid, Read)
    else
      var next := if link == Up && reply.n == COLD_KEY then Aggregate(Maintenance) else Read;
      if s.hash == map[] then Goto(s, pid, next)
      else Goto(s.(hash := h', landed := s.landed + {i}, everLanded := s.everLanded + {i}, applied := s.applied + 1),
                pid, next)
  }

  function AggregateStep(s: State, pid: Pid, ok: bool): State
    requires Enabled(s, RunAggregate(pid, ok))
  {
    var caller := s.procs[pid].pc.caller;
    Goto(s, pid, if ok then Replace(caller, |s.log|, Unsettled(s)) else if caller == Maintenance then Read else Failed)
  }

  function ReplaceStep(s: State, pid: Pid, link: Link): State
    requires Enabled(s, RunReplace(pid, link))
  {
    var Replace(caller, n, unsettled) := s.procs[pid].pc;
    var next := if caller == Maintenance then Read else Answered(TallyHash(s, n), Some(n));
    if !Applied(link) then Goto(s, pid, next)
    else Goto(s.(hash := TallyHash(s, n), seen := n, busy := unsettled, replacedAt := |s.log|, landed := {}), pid, next)
  }

  function ReadStep(s: State, pid: Pid, link: Link): State
    requires Enabled(s, RunRead(pid, link))
  {
    Goto(s, pid, if link == Up && Readable(s.hash) then Answered(s.hash, None) else Aggregate(Reader))
  }

  /** A step that is not enabled does nothing; a refused Cast is one of those. */
  function Step(s: State, e: Event): State {
    if !Enabled(s, e) then s
    else match e
      case Cast(pid, option, voter, link) => CastStep(s, pid, option, voter, link)
      case View(pid) => s.(procs := s.procs[pid := Proc(Read, |s.log|, None)])
      case RunIncrement(pid, link) => IncrementStep(s, pid, link)
      case RunAggregate(pid, ok) => AggregateStep(s, pid, ok)
      case RunReplace(pid, link) => ReplaceStep(s, pid, link)
      case RunRead(pid, link) => ReadStep(s, pid, link)
      case Expire => s.(hash := map[])
      case Corrupt(h) => s.(hash := h)
  }

  function Run(s: State, es: seq<Event>): State {
    if |es| == 0 then s else Step(Run(s, es[..|es| - 1]), es[|es| - 1])
  }

  // ---- Votes as sets of positions -----------------------------------------------------------

  function Prefix(n: nat): (r: set<nat>)
    ensures forall i: nat :: i in r <==> i < n
  {
    if n == 0 then {} else Prefix(n - 1) + {n - 1}
  }

  /** The votes among `s` that chose an option. */
  function Of(log: seq<Vote>, s: set<nat>, o: OptionId): set<nat> {
    set i | i in s && i < |log| && log[i].option == o
  }

  lemma {:induction false} TallyCounts(log: seq<Vote>, p: PollId, o: OptionId, n: nat)
    requires n <= |log| && forall i :: 0 <= i < |log| ==> log[i].poll == p
    ensures Tally(log[..n], p, o) == |Of(log, Prefix(n), o)|
  {
    if n > 0 {
      TallyCounts(log, p, o, n - 1);
      assert log[..n] == log[..n - 1] + [log[n - 1]];
      TallyAppend(log[..n - 1], log[n - 1], p, o);
      OfAdd(log, Prefix(n - 1), n - 1, o);
    } else {
      assert Of(log, Prefix(0), o) == {};
    }
  }

  lemma OfGrows(log: seq<Vote>, v: Vote, s: set<nat>, o: OptionId)
    requires forall i :: i in s ==> i < |log|
    ensures Of(log + [v], s, o) == Of(log, s, o)
  {}

  lemma OfAdd(log: seq<Vote>, s: set<nat>, i: nat, o: OptionId)
    requires i < |log| && i !in s
    ensures |Of(log, s + {i}, o)| == |Of(log, s, o)| + (if log[i].option == o then 1 else 0)
  {
    assert Of(log, s + {i}, o) == if log[i].option == o then Of(log, s, o) + {i} else Of(log, s, o);
  }

  lemma SubsetSize(a: set<nat>, b: set<nat>)
    requires a <= b
    ensures |a| <= |b|
  {
    assert b == a + (b - a);
  }

  // ---- Invariants -----------------------------------------------------------------------------

  ghost predicate LogOk(s: State) {
    && (forall i :: 0 <= i < |s.log| ==> s.log[i].poll == s.poll && s.log[i].option in s.options)
    && Unique(s.log)
  }

  /** Each stored vote has at most one increment ahead of it. */
  ghost predicate PendingOk(s: State) {
    && (forall pid, i: nat :: At(s, pid, i) ==> i < |s.log| && i !in s.everLanded && i !in s.missed)
    && (forall a, b, i: nat :: At(s, a, i) && At(s, b, i) ==> a == b)
  }

  ghost predicate HistoryOk(s: State) {
    && s.seen <= s.replacedAt <= |s.log|
    && s.landed <= s.everLanded
    && (forall i :: i in s.everLanded ==> i < |s.log|)
    && (forall i :: i in s.missed ==> i < |s.log|)
    && s.applied == |s.everLanded|
  }

  /** A snapshot only double-counts votes that were between insert and increment when
      it was taken. */
  ghost predicate SnapshotOk(s: State) {
    && (forall i :: i in s.landed && i < s.seen ==> i in s.busy)
    && (forall pid, i: nat :: At(s, pid, i) && i < s.seen ==> i in s.busy)
    && (forall q, pid, i: nat :: q in s.procs && s.procs[q].pc.Replace? && At(s, pid, i) && i < s.procs[q].pc.upTo
          ==> i in s.procs[q].pc.unsettled)
  }

  ghost predicate HashOk(s: State) {
    Readable(s.hash) ==>
      forall o :: CountOf(s.hash, o) == |Of(s.log, Prefix(s.seen), o)| + |Of(s.log, s.landed, o)|
  }

  ghost predicate Counted(s: State, i: nat) {
    i < s.seen || i in s.landed
  }

  ghost predicate Excused(s: State, i: nat) {
    s.seen <= i < s.replacedAt || i in s.missed || exists pid :: At(s, pid, i)
  }

  ghost predicate CoverOk(s: State) {
    Readable(s.hash) ==> forall i :: 0 <= i < |s.log| ==> Counted(s, i) || Excused(s, i)
  }

  /** What a finished or waiting call may hold. */
  ghost predicate ProcOk(s: State, p: Proc) {
    && p.start <= |s.log|
    && (p.vote.Some? ==> p.vote.value < |s.log|)
    && (p.pc.Replace? ==> p.start <= p.pc.upTo <= |s.log|)
    && (p.pc.Answered? && p.pc.truth.Some? ==>
          p.start <= p.pc.truth.value <= |s.log| && p.pc.counts == TallyHash(s, p.pc.truth.value))
    && (p.pc.Answered? && p.pc.truth.None? ==>
          forall o :: 0 <= CountOf(p.pc.counts, o) <= 2 * Tally(s.log, s.poll, o))
  }

  ghost predicate ProcsOk(s: State) {
    forall pid :: pid in s.procs ==> ProcOk(s, s.procs[pid])
  }

  ghost predicate Inv(s: State) {
    LogOk(s) && PendingOk(s) && HistoryOk(s) && SnapshotOk(s) && HashOk(s) && CoverOk(s) && ProcsOk(s)
  }

  // ---- Every step keeps them ------------------------------------------------------------------

  lemma TallyGrows(s: State, v: Vote, n: nat)
    requires n <= |s.log|
    ensures (s.log + [v])[..n] == s.log[..n]
    ensures forall o :: Tally(s.log + [v], s.poll, o) >= Tally(s.log, s.poll, o)
  {
    forall o { TallyAppend(s.log, v, s.poll, o); }
  }

  lemma CastKeeps(s: State, pid: Pid, option: OptionId, voter: VoterId, link: Link)
    requires Inv(s) && Enabled(s, Cast(pid, option, voter, link))
    ensures Inv(CastStep(s, pid, option, voter, link))
  {
    var s', v := CastStep(s, pid, option, voter, link), Vote(s.poll, option, voter);
    var i := |s.log|;
    forall q, j: nat ensures At(s', q, j) <==> At(s, q, j) || (q == pid && j == i && link == Up) {}
    forall o ensures Of(s'.log, Prefix(s.seen), o) == Of(s.log, Prefix(s.seen), o)
                  && Of(s'.log, s.landed, o) == Of(s.log, s.landed, o) {
      OfGrows(s.log, v, Prefix(s.seen), o);
      OfGrows(s.log, v, s.landed, o);
    }
    forall q | q in s'.procs ensures ProcOk(s', s'.procs[q]) {
      if q != pid {
        var p := s.procs[q];
        TallyGrows(s, v, if p.pc.Answered? && p.pc.truth.Some? then p.pc.truth.value else 0);
      }
    }
    forall j | 0 <= j < |s'.log| && Readable(s'.hash) ensures Counted(s', j) || Excused(s', j) {
      if j < i {
        assert Counted(s, j) || Excused(s, j);
      } else {
        assert link == Up ==> At(s', pid, i);
      }
    }
  }

  /** Moving one call on, its increment not waiting any more, touches nothing shared. */
  lemma GotoAt(s: State, pid: Pid, pc: Pc)
    requires pid in s.procs && !pc.Increment?
    ensures forall q, j: nat :: At(Goto(s, pid, pc), q, j) <==> At(s, q, j) && q != pid
  {}

  lemma GotoKeeps(s: State, pid: Pid, pc: Pc)
    requires Inv(s) && pid in s.procs && !pc.Increment?
    requires ProcOk(s, s.procs[pid].(pc := pc))
    requires pc.Replace? ==> pc.unsettled == Unsettled(s)
    requires s.procs[pid].pc.Increment? ==> Readable(s.hash) ==> s.procs[pid].pc.vote in s.landed + s.missed
    ensures Inv(Goto(s, pid, pc))
  {
    var s' := Goto(s, pid, pc);
    GotoAt(s, pid, pc);
    forall j | 0 <= j < |s'.log| && Readable(s'.hash) ensures Counted(s', j) || Excused(s', j) {
      assert Counted(s, j) || Excused(s, j);
      if exists q :: At(s, q, j) {
        var q :| At(s, q, j);
        assert q != pid ==> At(s', q, j);
      }
    }
    forall q | q in s'.procs ensures ProcOk(s', s'.procs[q]) {
      assert q != pid ==> ProcOk(s, s.procs[q]);
    }
  }

  lemma MissKeeps(s: State, pid: Pid, i: nat)
    requires Inv(s) && At(s, pid, i)
    ensures Inv(Goto(s.(missed := s.missed + {i}), pid, Read))
  {
    var s' := Goto(s.(missed := s.missed + {i}), pid, Read);
    GotoAt(s.(missed := s.missed + {i}), pid, Read);
    forall q, j: nat ensures At(s.(missed := s.missed + {i}), q, j) <==> At(s, q, j) {}
    forall j | 0 <= j < |s'.log| && Readable(s'.hash) ensures Counted(s', j) || Excused(s', j) {
      assert Counted(s, j) || Excused(s, j);
      if exists q :: At(s, q, j) {
        var q :| At(s, q, j);
        assert q != pid ==> At(s', q, j);
      }
    }
    forall q | q in s'.procs ensures ProcOk(s', s'.procs[q]) {
      assert ProcOk(s, s.procs[q]);
    }
  }

  function Landed(s: State, i: nat, h': Hash): State {
    s.(hash := h', landed := s.landed + {i}, everLanded := s.everLanded + {i}, applied := s.applied + 1)
  }

  lemma LandedHash(s: State, pid: Pid, i: nat)
    requires Inv(s) && At(s, pid, i) && s.hash != map[] && Script(s.hash, s.log[i].option).1.Reply?
    ensures HashOk(Landed(s, i, Script(s.hash, s.log[i].option).0))
  {
    var o := s.log[i].option;
    ScriptKeepsReadability(s.hash, o);
    forall x { OfAdd(s.log, s.landed, i, x); }
  }

  lemma LandKeeps(s: State, pid: Pid, i: nat, pc: Pc)
    requires Inv(s) && At(s, pid, i) && s.hash != map[] && Script(s.hash, s.log[i].option).1.Reply?
    requires pc == Read || pc == Aggregate(Maintenance)
    ensures Inv(Goto(Landed(s, i, Script(s.hash, s.log[i].option).0), pid, pc))
  {
    var mid := Landed(s, i, Script(s.hash, s.log[i].option).0);
    var s' := Goto(mid, pid, pc);
    LandedHash(s, pid, i);
    ScriptKeepsReadability(s.hash, s.log[i].option);
    GotoAt(mid, pid, pc);
    forall q, j: nat ensures At(mid, q, j) <==> At(s, q, j) {}
    forall j | 0 <= j < |s'.log| && Readable(s'.hash) ensures Counted(s', j) || Excused(s', j) {
      assert Counted(s, j) || Excused(s, j);
      if exists q :: At(s, q, j) {
        var q :| At(s, q, j);
        assert q != pid ==> At(s', q, j);
      }
    }
    forall q | q in s'.procs ensures ProcOk(s', s'.procs[q]) {
      assert ProcOk(s, s.procs[q]);
    }
  }

  lemma IncrementKeeps(s: State, pid: Pid, link: Link)
    requires Inv(s) && Enabled(s, RunIncrement(pid, link))
    ensures Inv(IncrementStep(s, pid, link))
  {
    var i := s.procs[pid].pc.vote;
    assert At(s, pid, i) && ProcOk(s, s.procs[pid]);
    var reply := Script(s.hash, s.log[i].option).1;
    if !Applied(link) || reply.ScriptError? {
      MissKeeps(s, pid, i);
    } else {
      var next := if link == Up && reply.n == COLD_KEY then Aggregate(Maintenance) else Read;
      if s.hash == map[] {
        GotoKeeps(s, pid, next);
      } else {
        LandKeeps(s, pid, i, next);
      }
    }
  }

  lemma AggregateKeeps(s: State, pid: Pid, ok: bool)
    requires Inv(s) && Enabled(s, RunAggregate(pid, ok))
    ensures Inv(AggregateStep(s, pid, ok))
  {
    assert ProcOk(s, s.procs[pid]);
    var caller := s.procs[pid].pc.caller;
    GotoKeeps(s, pid, if ok then Replace(caller, |s.log|, Unsettled(s))
                      else if caller == Maintenance then Read else Failed);
  }

  lemma FreshHash(s: State, n: nat, o: OptionId)
    requires LogOk(s) && n <= |s.log|
    ensures CountOf(TallyHash(s, n), o) == |Of(s.log, Prefix(n), o)|
  {
    TallyCounts(s.log, s.poll, o, n);
    if o !in s.options {
      assert Of(s.log, Prefix(n), o) == {};
    }
  }

  /** The state right after the hash is overwritten by a snapshot. */
  lemma OverwriteKeeps(s: State, pid: Pid)
    requires Inv(s) && pid in s.procs && s.procs[pid].pc.Replace?
    ensures var Replace(_, n, unsettled) := s.procs[pid].pc;
            n <= |s.log| &&
            Inv(s.(hash := TallyHash(s, n), seen := n, busy := unsettled, replacedAt := |s.log|, landed := {}))
  {
    assert ProcOk(s, s.procs[pid]);
    var Replace(_, n, unsettled) := s.procs[pid].pc;
    var s' := s.(hash := TallyHash(s, n), seen := n, busy := unsettled, replacedAt := |s.log|, landed := {});
    forall q, j: nat ensures At(s', q, j) <==> At(s, q, j) {}
    forall o ensures CountOf(s'.hash, o) == |Of(s'.log, Prefix(n), o)| + |Of(s'.log, {}, o)| {
      FreshHash(s, n, o);
      assert Of(s'.log, {}, o) == {};
    }
    forall q | q in s'.procs ensures ProcOk(s', s'.procs[q]) {
      assert ProcOk(s, s.procs[q]);
    }
  }

  lemma ReplaceKeeps(s: State, pid: Pid, link: Link)
    requires Inv(s) && Enabled(s, RunReplace(pid, link))
    ensures Inv(ReplaceStep(s, pid, link))
  {
    assert ProcOk(s, s.procs[pid]);
    var Replace(caller, n, unsettled) := s.procs[pid].pc;
    var next := if caller == Maintenance then Read else Answered(TallyHash(s, n), Some(n));
    if Applied(link) {
      OverwriteKeeps(s, pid);
      GotoKeeps(s.(hash := TallyHash(s, n), seen := n, busy := unsettled, replacedAt := |s.log|, landed := {}), pid,
                next);
    } else {
      GotoKeeps(s, pid, next);
    }
  }

  /** The counts of a hash that can be read are at most twice the truth. */
  lemma CounterBound(s: State, o: OptionId)
    requires Inv(s) && Readable(s.hash)
    ensures 0 <= CountOf(s.hash, o) <= 2 * Tally(s.log, s.poll, o)
  {
    TallyCounts(s.log, s.poll, o, |s.log|);
    assert s.log[..|s.log|] == s.log;
    SubsetSize(Of(s.log, Prefix(s.seen), o), Of(s.log, Prefix(|s.log|), o));
    SubsetSize(Of(s.log, s.landed, o), Of(s.log, Prefix(|s.log|), o));
  }

  lemma ReadKeeps(s: State, pid: Pid, link: Link)
    requires Inv(s) && Enabled(s, RunRead(pid, link))
    ensures Inv(ReadStep(s, pid, link))
  {
    assert ProcOk(s, s.procs[pid]);
    if Readable(s.hash) {
      forall o { CounterBound(s, o); }
    }
    GotoKeeps(s, pid, if link == Up && Readable(s.hash) then Answered(s.hash, None) else Aggregate(Reader));
  }

  lemma UnreadableKeeps(s: State, h: Hash)
    requires Inv(s) && !Readable(h)
    ensures Inv(s.(hash := h))
  {
    var s' := s.(hash := h);
    forall q, j: nat ensures At(s', q, j) <==> At(s, q, j) {}
    forall q | q in s'.procs ensures ProcOk(s', s'.procs[q]) {
      assert ProcOk(s, s.procs[q]);
    }
  }

  lemma ViewKeeps(s: State, pid: Pid)
    requires Inv(s) && pid !in s.procs
    ensures Inv(s.(procs := s.procs[pid := Proc(Read, |s.log|, None)]))
  {
    var s' := s.(procs := s.procs[pid := Proc(Read, |s.log|, None)]);
    forall q, j: nat ensures At(s', q, j) <==> At(s, q, j) {}
    forall j | 0 <= j < |s'.log| && Readable(s'.hash) ensures Counted(s', j) || Excused(s', j) {
      assert Counted(s, j) || Excused(s, j);
    }
    forall q | q in s'.procs ensures ProcOk(s', s'.procs[q]) {
      assert q != pid ==> ProcOk(s, s.procs[q]);
    }
  }

  lemma StepKeeps(s: State, e: Event)
    requires Inv(s)
    ensures Inv(Step(s, e))
  {
    if Enabled(s, e) {
      match e
      case Cast(pid, option, voter, link) => CastKeeps(s, pid, option, voter, link);
      case View(pid) => ViewKeeps(s, pid);
      case RunIncrement(pid, link) => IncrementKeeps(s, pid, link);
      case RunAggregate(pid, ok) => AggregateKeeps(s, pid, ok);
      case RunReplace(pid, link) => ReplaceKeeps(s, pid, link);
      case RunRead(pid, link) => ReadKeeps(s, pid, link);
      case Expire => UnreadableKeeps(s, map[]);
      case Corrupt(h) => UnreadableKeeps(s, h);
    }
  }

  lemma {:induction false} RunKeeps(poll: PollId, options: set<OptionId>, es: seq<Event>)
    ensures Inv(Run(Init(poll, options), es))
  {
    if |es| > 0 {
      RunKeeps(poll, options, es[..|es| - 1]);
      StepKeeps(Run(Init(poll, options), es[..|es| - 1]), es[|es| - 1]);
    }
  }
}
