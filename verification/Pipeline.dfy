/** From a publication to a viewer's screen inside one backend instance: the
    drop-when-full subscriber, the filter, the pump and the hub
    (backend/internal/redis/subscriber.go, backend/internal/services/realtime_service.go,
    backend/internal/websocket/manager.go, hub.go). */
module Pipeline {
  import opened Common
  import opened Events
  import opened Hub

  const CAPACITY := 256

  /** A delivery: the poll its channel names, and bytes. */
  datatype Message = Message(poll: PollId, payload: Payload)

  datatype State<C> = State(
    published: seq<Message>,
    inbox: seq<Message>,
    held: Option<Event>,    // what the filter has taken in and not yet passed on
    stream: seq<Event>,
    queue: seq<Broadcast>,
    hub: HubState<C>)

  /** The filter: only what this application encodes, and only about the poll whose
      channel it came on. */
  function Accept(m: Message): Option<Event> {
    match Decode(m.payload)
    case None => None
    case Some(e) => if e.poll == m.poll then Some(e) else None
  }

  function Push<T>(q: seq<T>, x: T): seq<T> {
    if |q| < CAPACITY then q + [x] else q
  }

  datatype Move<C> =
    | Publish(m: Message, arrives: bool)
    | Filter
    | Emit
    | Pump
    | HubTakes
    | HubDoes(op: Op<C>)

  predicate Enabled<C(==)>(s: State<C>, e: Move<C>) {
    match e
    case Publish(_, _) => true
    case Filter => s.inbox != [] && s.held.None?
    case Emit => s.held.Some? && |s.stream| < CAPACITY
    case Pump => s.stream != []
    case HubTakes => s.queue != [] && !s.hub.stopped
    case HubDoes(op) => !op.DoDeliver? && Legal(s.hub, op)
  }

  function Step<C(==)>(s: State<C>, e: Move<C>): State<C>
    requires Enabled(s, e)
  {
    match e
    case Publish(m, arrives) =>
      s.(published := s.published + [m], inbox := if arrives then Push(s.inbox, m) else s.inbox)
    case Filter =>
      s.(inbox := s.inbox[1..], held := Accept(s.inbox[0]))
    case Emit => s.(held := None, stream := s.stream + [s.held.value])
    case Pump =>
      var b := Broadcast(s.stream[0].poll, s.stream[0]);
      s.(stream := s.stream[1..], queue := if s.hub.stopped then s.queue else Push(s.queue, b))
    case HubTakes => s.(queue := s.queue[1..], hub := Deliver(s.hub, s.queue[0]))
    case HubDoes(op) => s.(hub := Hub.Step(s.hub, op))
  }

  ghost predicate IsRun<C>(ss: seq<State<C>>, es: seq<Move<C>>) {
    && |ss| == |es| + 1
    && ss[0] == State([], [], None, [], [], HubState(map[], map[], [], false))
    && forall i {:trigger Enabled(ss[i], es[i])} :: 0 <= i < |es| ==>
         Enabled(ss[i], es[i]) && ss[i + 1] == Step(ss[i], es[i])
  }

  // ---- Subsequences --------------------------------------------------------------------------

  ghost predicate Sub<T>(a: seq<T>, b: seq<T>)
    decreases |b|
  {
    || a == []
    || (b != [] && a[|a| - 1] == b[|b| - 1] && Sub(a[..|a| - 1], b[..|b| - 1]))
    || (b != [] && Sub(a, b[..|b| - 1]))
  }

  lemma SubAppend<T>(a: seq<T>, b: seq<T>, x: T)
    requires Sub(a, b)
    ensures Sub(a, b + [x]) && Sub(a + [x], b + [x])
  {
    assert (a + [x])[..|a|] == a && (b + [x])[..|b|] == b;
  }

  /** Losing a stretch of a subsequence leaves a subsequence. */
  lemma {:induction false} SubLose<T>(a: seq<T>, m: seq<T>, c: seq<T>, b: seq<T>)
    requires Sub(a + m + c, b)
    ensures Sub(a + c, b)
    decreases |b|
  {
    var all := a + m + c;
    if all != [] && a + c != [] {
      var front := b[..|b| - 1];
      if Sub(all, front) {
        SubLose(a, m, c, front);
      } else if c != [] {
        assert all[..|all| - 1] == a + m + c[..|c| - 1];
        SubLose(a, m, c[..|c| - 1], front);
        assert (a + c)[..|a + c| - 1] == a + c[..|c| - 1];
      } else if m != [] {
        assert all[..|all| - 1] == a + m[..|m| - 1] + [];
        SubLose(a, m[..|m| - 1], [], front);
        assert a + [] == a + c;
      } else {
        assert all == a + c;
      }
    }
  }

  /** Moving a stretch from one queue's front to the previous queue's back changes
      nothing; dropping it keeps a subsequence. */
  lemma SubMove<T>(a: seq<T>, q: seq<T>, x: seq<T>, r: seq<T>, i: seq<T>, b: seq<T>)
    requires Sub(a + q + (x + r) + i, b)
    ensures Sub(a + (q + x) + r + i, b) && Sub(a + q + r + i, b)
  {
    assert a + (q + x) + r + i == a + q + (x + r) + i;
    assert a + q + (x + r) + i == (a + q) + x + (r + i);
    SubLose(a + q, x, r + i, b);
    assert (a + q) + (r + i) == a + q + r + i;
  }

  lemma SubMiddle<T>(a: seq<T>, m: seq<T>, c: seq<T>, x: seq<T>, y: seq<T>, z: seq<T>, b: seq<T>)
    requires Sub(a + m + c + x + y + z, b)
    ensures Sub(m, b)
  {
    var after := c + x + y + z;
    assert a + m + c + x + y + z == [] + a + (m + after);
    SubLose([], a, m + after, b);
    assert [] + (m + after) == m + after + [];
    SubLose(m, after, [], b);
    assert m + [] == m;
  }

  /** A subsequence invents nothing and repeats nothing. */
  lemma {:induction false} SubInventsNothing<T>(a: seq<T>, b: seq<T>)
    requires Sub(a, b)
    ensures multiset(a) <= multiset(b)
    decreases |b|
  {
    if a != [] {
      var front := b[..|b| - 1];
      assert b == front + [b[|b| - 1]];
      if Sub(a, front) {
        SubInventsNothing(a, front);
      } else {
        assert a == a[..|a| - 1] + [a[|a| - 1]];
        SubInventsNothing(a[..|a| - 1], front);
      }
    }
  }

  // ---- What is in flight for one poll ---------------------------------------------------------

  /** The events of one poll among deliveries, in order. */
  function Genuine(p: PollId, messages: seq<Message>): seq<Event> {
    if |messages| == 0 then []
    else
      var last := messages[|messages| - 1];
      Genuine(p, messages[..|messages| - 1])
        + (if last.poll == p && Accept(last).Some? then [Accept(last).value] else [])
  }

  function Streamed(p: PollId, stream: seq<Event>): seq<Event> {
    if |stream| == 0 then []
    else Streamed(p, stream[..|stream| - 1]) + (if stream[|stream| - 1].poll == p then [stream[|stream| - 1]] else [])
  }

  lemma {:induction false} GenuineConcat(p: PollId, a: seq<Message>, b: seq<Message>)
    ensures Genuine(p, a + b) == Genuine(p, a) + Genuine(p, b)
  {
    if b == [] {
      assert a + b == a;
    } else {
      GenuineConcat(p, a, b[..|b| - 1]);
      assert (a + b)[..|a + b| - 1] == a + b[..|b| - 1];
    }
  }

  lemma {:induction false} StreamedConcat(p: PollId, a: seq<Event>, b: seq<Event>)
    ensures Streamed(p, a + b) == Streamed(p, a) + Streamed(p, b)
  {
    if b == [] {
      assert a + b == a;
    } else {
      StreamedConcat(p, a, b[..|b| - 1]);
      assert (a + b)[..|a + b| - 1] == a + b[..|b| - 1];
    }
  }

  lemma {:induction false} ForConcat(p: PollId, a: seq<Broadcast>, b: seq<Broadcast>)
    ensures For(p, a + b) == For(p, a) + For(p, b)
  {
    if b == [] {
      assert a + b == a;
    } else {
      ForConcat(p, a, b[..|b| - 1]);
      assert (a + b)[..|a + b| - 1] == a + b[..|b| - 1];
    }
  }

  lemma ForSplit(p: PollId, log: seq<Broadcast>, i: nat, j: nat)
    requires i <= j <= |log|
    ensures For(p, log) == For(p, log[..i]) + For(p, log[i..j]) + For(p, log[j..])
  {
    assert log == log[..i] + log[i..j] + log[j..];
    ForConcat(p, log[..i] + log[i..j], log[j..]);
    ForConcat(p, log[..i], log[i..j]);
  }

  /** What has passed the filter and has not been pumped to the hub. */
  function Filtered<C>(s: State<C>): seq<Event> {
    s.stream + (if s.held.Some? then [s.held.value] else [])
  }

  /** Everything of one poll the instance has processed or still holds, oldest first. */
  function InFlight<C>(s: State<C>, p: PollId): seq<Event> {
    For(p, s.hub.log) + For(p, s.queue) + Streamed(p, Filtered(s)) + Genuine(p, s.inbox)
  }

  ghost predicate Ordered<C>(s: State<C>) {
    && (forall p :: Sub(InFlight(s, p), Genuine(p, s.published)))
    && |s.inbox| <= CAPACITY && |s.stream| <= CAPACITY && |s.queue| <= CAPACITY
  }

  lemma PublishMoves<C>(s: State<C>, m: Message, arrives: bool, p: PollId)
    ensures var s', g := Step(s, Publish(m, arrives)), Genuine(p, [m]);
            && Genuine(p, s'.published) == Genuine(p, s.published) + g
            && (InFlight(s', p) == InFlight(s, p) || InFlight(s', p) == InFlight(s, p) + g)
  {
    var s' := Step(s, Publish(m, arrives));
    GenuineConcat(p, s.published, [m]);
    GenuineConcat(p, s.inbox, [m]);
    assert Filtered(s') == Filtered(s);
    Regroup(For(p, s.hub.log) + For(p, s.queue) + Streamed(p, Filtered(s)), Genuine(p, s.inbox), Genuine(p, [m]));
  }

  lemma Regroup<T>(a: seq<T>, b: seq<T>, c: seq<T>)
    ensures a + (b + c) == (a + b) + c
  {}

  lemma SubAppendUpToOne<T>(a: seq<T>, b: seq<T>, g: seq<T>)
    requires Sub(a, b) && |g| <= 1
    ensures Sub(a, b + g) && Sub(a + g, b + g)
  {
    if g == [] {
      assert a + g == a && b + g == b;
    } else {
      assert g == [g[0]];
      SubAppend(a, b, g[0]);
    }
  }

  lemma PublishKeepsOrder<C>(s: State<C>, m: Message, arrives: bool, p: PollId)
    requires Sub(InFlight(s, p), Genuine(p, s.published))
    ensures var s' := Step(s, Publish(m, arrives)); Sub(InFlight(s', p), Genuine(p, s'.published))
  {
    PublishMoves(s, m, arrives, p);
    AcceptedOne(m, p);
    SubAppendUpToOne(InFlight(s, p), Genuine(p, s.published), Genuine(p, [m]));
  }

  lemma FilterRegroups<T>(a: seq<T>, q: seq<T>, r: seq<T>, x: seq<T>, i: seq<T>)
    ensures a + q + r + (x + i) == a + q + (r + x) + i
  {}

  lemma AcceptedOne(m: Message, p: PollId)
    ensures Genuine(p, [m]) == if Accept(m).Some? then Streamed(p, [Accept(m).value]) else []
  {}

  lemma FilterKeepsOrder<C>(s: State<C>, p: PollId)
    requires Enabled(s, Filter) && Sub(InFlight(s, p), Genuine(p, s.published))
    ensures Sub(InFlight(Step(s, Filter), p), Genuine(p, s.published))
  {
    var m, rest := s.inbox[0], s.inbox[1..];
    var x := Genuine(p, [m]);
    assert s.inbox == [m] + rest;
    GenuineConcat(p, [m], rest);
    AcceptedOne(m, p);
    if Accept(m).Some? {
      StreamedConcat(p, s.stream, [Accept(m).value]);
    }
    assert Filtered(s) == s.stream;
    var filtered := Filtered(Step(s, Filter));
    assert Streamed(p, filtered) == Streamed(p, s.stream) + x by {
      assert Accept(m).None? ==> filtered == s.stream && Streamed(p, s.stream) + [] == Streamed(p, s.stream);
    }
    FilterRegroups(For(p, s.hub.log), For(p, s.queue), Streamed(p, s.stream), x, Genuine(p, rest));
  }

  lemma EmitKeepsOrder<C>(s: State<C>, p: PollId)
    requires Enabled(s, Emit)
    ensures InFlight(Step(s, Emit), p) == InFlight(s, p)
  {
    assert Filtered(Step(s, Emit)) == Filtered(s);
  }

  /** One event moves from the filtered ones to the hub's queue, or is dropped. */
  lemma PumpMoves<C>(s: State<C>, p: PollId)
    requires Enabled(s, Pump)
    ensures var s', x := Step(s, Pump), Streamed(p, [s.stream[0]]);
            && Streamed(p, Filtered(s)) == x + Streamed(p, Filtered(s'))
            && (For(p, s'.queue) == For(p, s.queue) || For(p, s'.queue) == For(p, s.queue) + x)
  {
    var e, rest := s.stream[0], Filtered(s)[1..];
    var b := Broadcast(e.poll, e);
    assert Filtered(s) == [e] + rest && Filtered(Step(s, Pump)) == rest;
    StreamedConcat(p, [e], rest);
    ForConcat(p, s.queue, [b]);
    assert For(p, [b]) == Streamed(p, [e]);
  }

  lemma PumpKeepsOrder<C>(s: State<C>, p: PollId)
    requires Enabled(s, Pump) && Sub(InFlight(s, p), Genuine(p, s.published))
    ensures Sub(InFlight(Step(s, Pump), p), Genuine(p, s.published))
  {
    var s', x := Step(s, Pump), Streamed(p, [s.stream[0]]);
    PumpMoves(s, p);
    SubMove(For(p, s.hub.log), For(p, s.queue), x, Streamed(p, Filtered(s')), Genuine(p, s.inbox),
            Genuine(p, s.published));
  }

  lemma TakeRegroups<T>(a: seq<T>, x: seq<T>, r: seq<T>, c: seq<T>, d: seq<T>)
    ensures a + (x + r) + c + d == (a + x) + r + c + d
  {}

  lemma TakeKeepsOrder<C>(s: State<C>, p: PollId)
    requires Enabled(s, HubTakes) && Sub(InFlight(s, p), Genuine(p, s.published))
    ensures Sub(InFlight(Step(s, HubTakes), p), Genuine(p, s.published))
  {
    var b, rest := s.queue[0], s.queue[1..];
    assert s.queue == [b] + rest;
    ForConcat(p, [b], rest);
    ForConcat(p, s.hub.log, [b]);
    TakeRegroups(For(p, s.hub.log), For(p, [b]), For(p, rest), Streamed(p, Filtered(s)), Genuine(p, s.inbox));
  }

  lemma StepKeepsInFlight<C>(s: State<C>, e: Move<C>, p: PollId)
    requires Enabled(s, e) && Sub(InFlight(s, p), Genuine(p, s.published))
    ensures Sub(InFlight(Step(s, e), p), Genuine(p, Step(s, e).published))
  {
    match e
    case Publish(m, arrives) => PublishKeepsOrder(s, m, arrives, p);
    case Filter => FilterKeepsOrder(s, p);
    case Emit => EmitKeepsOrder(s, p);
    case Pump => PumpKeepsOrder(s, p);
    case HubTakes => TakeKeepsOrder(s, p);
    case HubDoes(op) => assert Step(s, e).hub.log == s.hub.log;
  }

  lemma StepKeepsOrder<C>(s: State<C>, e: Move<C>)
    requires Ordered(s) && Enabled(s, e)
    ensures Ordered(Step(s, e))
  {
    forall p ensures Sub(InFlight(Step(s, e), p), Genuine(p, Step(s, e).published)) {
      StepKeepsInFlight(s, e, p);
    }
  }

  lemma StepKeepsHub<C>(s: State<C>, e: Move<C>)
    requires Structured(s.hub) && AllGapFree(s.hub) && Enabled(s, e)
    ensures Structured(Step(s, e).hub) && AllGapFree(Step(s, e).hub)
  {
    if e.HubTakes? || e.HubDoes? {
      var op := if e.HubTakes? then DoDeliver(s.queue[0]) else e.op;
      StepKeepsStructure(s.hub, op);
      StepKeepsGapFree(s.hub, op);
    }
  }

  lemma NextState<C>(ss: seq<State<C>>, es: seq<Move<C>>, n: nat)
    requires IsRun(ss, es) && n < |es|
    requires Ordered(ss[n]) && Structured(ss[n].hub) && AllGapFree(ss[n].hub)
    ensures Ordered(ss[n + 1]) && Structured(ss[n + 1].hub) && AllGapFree(ss[n + 1].hub)
  {
    var s, e := ss[n], es[n];
    assert Enabled(s, e) by {
      assert Enabled(ss[n], es[n]);
    }
    StepKeepsOrder(s, e);
    StepKeepsHub(s, e);
  }

  lemma {:induction false} PipelineInvariants<C>(ss: seq<State<C>>, es: seq<Move<C>>, n: nat)
    requires IsRun(ss, es) && n <= |es|
    ensures Ordered(ss[n]) && Structured(ss[n].hub) && AllGapFree(ss[n].hub)
  {
    if n > 0 {
      PipelineInvariants(ss, es, n - 1);
      NextState(ss, es, n - 1);
    } else {
      EmptyIsOrdered(ss[0]);
    }
  }

  lemma EmptyIsOrdered<C>(s: State<C>)
    requires s == State([], [], None, [], [], HubState(map[], map[], [], false))
    ensures Ordered(s)
  {
    forall p ensures InFlight(s, p) == [] {}
  }

  /** What any viewer gets, snapshots aside, is a subsequence of the genuine events
      published on its own poll's channel: nothing invented, repeated, reordered or taken
      from another poll, whatever was dropped on the way. */
  lemma ViewersSeeASubsequence<C>(ss: seq<State<C>>, es: seq<Move<C>>, n: nat, c: C)
    requires IsRun(ss, es) && n <= |es| && c in ss[n].hub.clients
    ensures var s := ss[n]; var client := s.hub.clients[c];
            && Sub(Received(client), Genuine(client.poll, s.published))
            && multiset(Received(client)) <= multiset(Genuine(client.poll, s.published))
  {
    ReceivedIsSubsequence(ss, es, n, c);
    var client := ss[n].hub.clients[c];
    SubInventsNothing(Received(client), Genuine(client.poll, ss[n].published));
  }

  lemma ReceivedIsSubsequence<C>(ss: seq<State<C>>, es: seq<Move<C>>, n: nat, c: C)
    requires IsRun(ss, es) && n <= |es| && c in ss[n].hub.clients
    ensures Sub(Received(ss[n].hub.clients[c]), Genuine(ss[n].hub.clients[c].poll, ss[n].published))
  {
    PipelineInvariants(ss, es, n);
    var s := ss[n];
    var client, log := s.hub.clients[c], s.hub.log;
    var p := client.poll;
    assert GapFree(client, log);
    var end := if client.open then |log| else client.until;
    var mine := log[client.since..end];
    ForSplit(p, log, client.since, end);
    SubMiddle(For(p, log[..client.since]), For(p, mine), For(p, log[end..]),
              For(p, s.queue), Streamed(p, Filtered(s)), Genuine(p, s.inbox), Genuine(p, s.published));
  }

  // ---- Nothing is lost without a full queue --------------------------------------------------------

  /** A message passes the filter exactly if it decodes to an event about the poll its
      channel names, and as that event. */
  lemma AcceptedIff(m: Message, e: Event)
    ensures Accept(m) == Some(e) <==> m.payload == Encode(e) && e.poll == m.poll
  {}

  /** The events of one poll this move loses: one that does not arrive, one that arrives at
      a full subscriber, and one pumped to a hub that is full or has stopped. */
  function Loses<C(==)>(s: State<C>, e: Move<C>, p: PollId): nat
    requires Enabled(s, e)
  {
    match e
    case Publish(m, arrives) =>
      if m.poll == p && Accept(m).Some? && (!arrives || |s.inbox| >= 256) then 1 else 0
    case Pump => if s.stream[0].poll == p && (s.hub.stopped || |s.queue| >= 256) then 1 else 0
    case _ => 0
  }

  ghost function Losses<C>(ss: seq<State<C>>, es: seq<Move<C>>, p: PollId, n: nat): nat
    requires IsRun(ss, es) && n <= |es|
  {
    if n == 0 then 0
    else
      assert Enabled(ss[n - 1], es[n - 1]);
      Losses(ss, es, p, n - 1) + Loses(ss[n - 1], es[n - 1], p)
  }

  lemma PublishConserves<C>(s: State<C>, m: Message, arrives: bool, p: PollId)
    ensures var e := Publish(m, arrives);
            |InFlight(Step(s, e), p)| + Loses(s, e, p) == |InFlight(s, p)| + |Genuine(p, [m])|
  {
    GenuineConcat(p, s.inbox, [m]);
    AcceptedOne(m, p);
    assert Filtered(Step(s, Publish(m, arrives))) == Filtered(s);
  }

  lemma FilterConserves<C>(s: State<C>, p: PollId)
    requires Enabled(s, Filter)
    ensures |InFlight(Step(s, Filter), p)| == |InFlight(s, p)|
  {
    var m, rest := s.inbox[0], s.inbox[1..];
    assert s.inbox == [m] + rest;
    GenuineConcat(p, [m], rest);
    AcceptedOne(m, p);
    assert Filtered(s) == s.stream;
    if Accept(m).Some? {
      StreamedConcat(p, s.stream, [Accept(m).value]);
    } else {
      assert Filtered(Step(s, Filter)) == s.stream;
    }
  }

  lemma PumpConserves<C>(s: State<C>, p: PollId)
    requires Enabled(s, Pump)
    ensures |InFlight(Step(s, Pump), p)| + Loses(s, Pump, p) == |InFlight(s, p)|
  {
    var e, rest := s.stream[0], Filtered(s)[1..];
    assert Filtered(s) == [e] + rest && Filtered(Step(s, Pump)) == rest;
    StreamedConcat(p, [e], rest);
    ForConcat(p, s.queue, [Broadcast(e.poll, e)]);
  }

  lemma TakeConserves<C>(s: State<C>, p: PollId)
    requires Enabled(s, HubTakes)
    ensures |InFlight(Step(s, HubTakes), p)| == |InFlight(s, p)|
  {
    var b, rest := s.queue[0], s.queue[1..];
    assert s.queue == [b] + rest;
    ForConcat(p, [b], rest);
    ForConcat(p, s.hub.log, [b]);
  }

  lemma StepConserves<C>(s: State<C>, e: Move<C>, p: PollId)
    requires Enabled(s, e)
    ensures |Genuine(p, Step(s, e).published)| - |InFlight(Step(s, e), p)|
         == |Genuine(p, s.published)| - |InFlight(s, p)| + Loses(s, e, p)
  {
    match e
    case Publish(m, arrives) =>
      GenuineConcat(p, s.published, [m]);
      PublishConserves(s, m, arrives, p);
    case Filter => FilterConserves(s, p);
    case Emit => EmitKeepsOrder(s, p);
    case Pump => PumpConserves(s, p);
    case HubTakes => TakeConserves(s, p);
    case HubDoes(op) => assert Step(s, e).hub.log == s.hub.log;
  }

  /** Conservation: at every point of every run the genuine events published for a poll are
      as many as those the instance has processed or holds, plus those it has lost. */
  lemma {:induction false} EventsAreConserved<C>(ss: seq<State<C>>, es: seq<Move<C>>, p: PollId, n: nat)
    requires IsRun(ss, es) && n <= |es|
    ensures |Genuine(p, ss[n].published)| == |InFlight(ss[n], p)| + Losses(ss, es, p, n)
  {
    if n > 0 {
      EventsAreConserved(ss, es, p, n - 1);
      assert Enabled(ss[n - 1], es[n - 1]);
      StepConserves(ss[n - 1], es[n - 1], p);
    }
  }

  lemma {:induction false} SubIsNoLonger<T>(a: seq<T>, b: seq<T>)
    requires Sub(a, b)
    ensures |a| <= |b| && (|a| == |b| ==> a == b)
    decreases |b|
  {
    if a != [] {
      var front := b[..|b| - 1];
      if Sub(a, front) {
        SubIsNoLonger(a, front);
      } else {
        SubIsNoLonger(a[..|a| - 1], front);
        assert a == a[..|a| - 1] + [a[|a| - 1]] && b == front + [b[|b| - 1]];
      }
    }
  }

  /** Everything published for a poll is still there, in order, if and only if nothing of it
      was lost: no event failed to arrive, met a full subscriber, or met a hub that was full
      or had stopped. */
  lemma AllThereIffNothingLost<C>(ss: seq<State<C>>, es: seq<Move<C>>, p: PollId, n: nat)
    requires IsRun(ss, es) && n <= |es|
    ensures InFlight(ss[n], p) == Genuine(p, ss[n].published) <==> Losses(ss, es, p, n) == 0
  {
    EventsAreConserved(ss, es, p, n);
    PipelineInvariants(ss, es, n);
    SubIsNoLonger(InFlight(ss[n], p), Genuine(p, ss[n].published));
  }

  /** What of a poll has not reached the hub yet. */
  function OnTheWay<C>(s: State<C>, p: PollId): seq<Event> {
    For(p, s.queue) + Streamed(p, Filtered(s)) + Genuine(p, s.inbox)
  }

  /** Liveness once the stages have drained: with nothing lost and nothing on the way, an
      open client has received every event published for its poll since it registered. */
  lemma OpenClientsHaveEverything<C>(ss: seq<State<C>>, es: seq<Move<C>>, n: nat, c: C)
    requires IsRun(ss, es) && n <= |es| && c in ss[n].hub.clients && ss[n].hub.clients[c].open
    requires Losses(ss, es, ss[n].hub.clients[c].poll, n) == 0 && OnTheWay(ss[n], ss[n].hub.clients[c].poll) == []
    ensures var s := ss[n]; var client := s.hub.clients[c];
            && client.since <= |s.hub.log|
            && For(client.poll, s.hub.log[..client.since]) + Received(client) == Genuine(client.poll, s.published)
  {
    var s := ss[n];
    var client := s.hub.clients[c];
    var p, log := client.poll, s.hub.log;
    AllThereIffNothingLost(ss, es, p, n);
    PipelineInvariants(ss, es, n);
    assert GapFree(client, log);
    NothingElse(For(p, log), For(p, s.queue), Streamed(p, Filtered(s)), Genuine(p, s.inbox));
    assert log == log[..client.since] + log[client.since..];
    ForConcat(p, log[..client.since], log[client.since..]);
    assert log[client.since..|log|] == log[client.since..];
  }

  lemma NothingElse<T>(a: seq<T>, b: seq<T>, c: seq<T>, d: seq<T>)
    requires b + c + d == []
    ensures a + b + c + d == a
  {
    assert |b + c + d| == |b| + |c| + |d|;
    assert b == [] && c == [] && d == [];
  }

  // ---- And it gets there -----------------------------------------------------------------------------

  /** How many moves of the instance's own loops it takes at most to drain every stage. */
  function MovesLeft<C>(s: State<C>): nat {
    4 * |s.inbox| + (if s.held.Some? then 3 else 0) + 2 * |s.stream| + |s.queue|
  }

  /** While the hub runs and anything waits in any stage, one of the loops can move. */
  lemma SomeLoopMoves<C>(s: State<C>)
    requires !s.hub.stopped
    ensures Enabled(s, Filter) || Enabled(s, Emit) || Enabled(s, Pump) || Enabled(s, HubTakes) <==> MovesLeft(s) > 0
    ensures MovesLeft(s) == 0 ==> forall p :: OnTheWay(s, p) == []
  {}

  /** Each of their moves brings the end closer, so with nothing new arriving everything on
      the way is at the hub after at most MovesLeft of them. */
  lemma LoopsComeToAnEnd<C>(s: State<C>, e: Move<C>)
    requires Enabled(s, e) && (e.Filter? || e.Emit? || e.Pump? || e.HubTakes?)
    ensures MovesLeft(Step(s, e)) < MovesLeft(s)
    ensures Step(s, e).hub.stopped == s.hub.stopped && Step(s, e).published == s.published
  {}

  // ---- The stages' own loops --------------------------------------------------------------------

  /** The filter goroutine over a stretch of deliveries. */
  method Forward(messages: seq<Message>) returns (out: seq<Event>)
    ensures forall p :: Streamed(p, out) == Genuine(p, messages)
    ensures |out| <= |messages|
  {
    out := [];
    for i := 0 to |messages|
      invariant forall p :: Streamed(p, out) == Genuine(p, messages[..i])
      invariant |out| <= i
    {
      assert messages[..i + 1][..i] == messages[..i];
      var decoded := Decode(messages[i].payload);
      if decoded.None? || decoded.value.poll != messages[i].poll {
        continue;
      }
      forall p { StreamedConcat(p, out, [decoded.value]); }
      out := out + [decoded.value];
    }
    assert messages[..|messages|] == messages;
  }

  /** The subscriber over a stretch of deliveries while nobody drains its channel: the
      first ones fit, the rest are dropped, and nothing blocks. */
  method Subscribe(waiting: seq<Message>, arriving: seq<Message>) returns (channel: seq<Message>)
    requires |waiting| <= CAPACITY
    ensures channel == if |waiting| + |arriving| <= CAPACITY then waiting + arriving
                       else waiting + arriving[..CAPACITY - |waiting|]
  {
    channel := waiting;
    for i := 0 to |arriving|
      invariant channel == if |waiting| + i <= CAPACITY then waiting + arriving[..i]
                           else waiting + arriving[..CAPACITY - |waiting|]
    {
      channel := Push(channel, arriving[i]);
    }
  }
}
