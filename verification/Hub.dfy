/** The hub's state machine (backend/internal/websocket/hub.go, client.go): rooms of
    clients with bounded buffers, eviction and shutdown.  `C` is how clients are told
    apart. */
module Hub {
  import opened Common
  import opened Events

  const SEND_BUFFER := 16

  datatype Frame = Update(event: Event) | Snapshot(event: Event)

  datatype Broadcast = Broadcast(poll: PollId, event: Event)

  /** `since` and `until` are positions in the hub's log of broadcasts: where the client
      registered and, once closed, where it stopped. */
  datatype ClientState = ClientState(
    poll: PollId,
    buffer: seq<Frame>,
    drained: seq<Frame>,
    open: bool,
    since: nat,
    until: nat)

  datatype HubState<C> = HubState(
    rooms: map<PollId, set<C>>,
    clients: map<C, ClientState>,
    log: seq<Broadcast>,
    stopped: bool)

  // ---- Steps ------------------------------------------------------------------------------

  function RoomOf<C(==)>(rooms: map<PollId, set<C>>, p: PollId): set<C> {
    if p in rooms then rooms[p] else {}
  }

  /** Empty rooms are not kept. */
  function SetRoom<C(==)>(rooms: map<PollId, set<C>>, p: PollId, room: set<C>): (r: map<PollId, set<C>>)
    ensures RoomOf(r, p) == room
    ensures forall q :: q != p ==> RoomOf(r, q) == RoomOf(rooms, q)
    ensures forall q :: q in r <==> if q == p then room != {} else q in rooms
  {
    if room == {} then rooms - {p} else rooms[p := room]
  }

  lemma RoomsEqual<C>(a: map<PollId, set<C>>, b: map<PollId, set<C>>)
    requires forall p :: RoomOf(a, p) == RoomOf(b, p) && (p in a <==> p in b)
    ensures a == b
  {
    forall p | p in a ensures a[p] == b[p] {
      assert RoomOf(a, p) == RoomOf(b, p);
    }
  }

  function Closed(c: ClientState, at: nat): ClientState {
    c.(open := false, until := at)
  }

  function Sent(c: ClientState, f: Frame): ClientState {
    c.(buffer := c.buffer + [f])
  }

  function Taken(c: ClientState): ClientState
    requires c.buffer != []
  {
    c.(buffer := c.buffer[1..], drained := c.drained + [c.buffer[0]])
  }

  predicate Full(c: ClientState) {
    |c.buffer| >= SEND_BUFFER
  }

  /** What one broadcast makes of a client in the room. */
  function Offered(c: ClientState, f: Frame, at: nat): ClientState {
    if Full(c) then Closed(c, at) else Sent(c, f)
  }

  function Register<C(==)>(s: HubState<C>, c: C, poll: PollId): HubState<C> {
    if s.stopped then s
    else s.(rooms := SetRoom(s.rooms, poll, RoomOf(s.rooms, poll) + {c}),
            clients := s.clients[c := ClientState(poll, [], [], true, |s.log|, 0)])
  }

  function Unregister<C(==)>(s: HubState<C>, c: C): HubState<C> {
    if s.stopped || c !in s.clients || c !in RoomOf(s.rooms, s.clients[c].poll) then s
    else
      var poll := s.clients[c].poll;
      s.(rooms := SetRoom(s.rooms, poll, RoomOf(s.rooms, poll) - {c}),
         clients := s.clients[c := Closed(s.clients[c], |s.log|)])
  }

  /** Every client of the room gets the frame or, if its buffer is full, is closed and
      leaves; nothing here depends on the order the room is walked in. */
  function Deliver<C(==)>(s: HubState<C>, b: Broadcast): HubState<C> {
    if s.stopped then s
    else
      var room := RoomOf(s.rooms, b.poll);
      var kept := set c | c in room && c in s.clients && !Full(s.clients[c]);
      s.(rooms := SetRoom(s.rooms, b.poll, kept),
         clients := map c | c in s.clients ::
           if c in room then Offered(s.clients[c], Update(b.event), |s.log|) else s.clients[c],
         log := s.log + [b])
  }

  lemma RegisterIs<C>(s: HubState<C>, c: C, poll: PollId, rooms: map<PollId, set<C>>, clients: map<C, ClientState>)
    requires !s.stopped && Structured(s) && c !in s.clients
    requires rooms == s.rooms[poll := RoomOf(s.rooms, poll) + {c}]
    requires clients.Keys == s.clients.Keys + {c}
    requires forall d :: d in s.clients ==> clients[d] == s.clients[d]
    requires clients[c] == ClientState(poll, [], [], true, |s.log|, 0)
    ensures Register(s, c, poll) == HubState(rooms, clients, s.log, false)
    ensures Structured(Register(s, c, poll))
  {
    RegisterKeepsStructure(s, c, poll);
    assert c in RoomOf(s.rooms, poll) + {c};
  }

  lemma DeliverIs<C>(s: HubState<C>, b: Broadcast, rooms: map<PollId, set<C>>, clients: map<C, ClientState>)
    requires !s.stopped && Structured(s) && clients.Keys == s.clients.Keys
    requires forall c :: c in clients ==>
      clients[c] == if c in RoomOf(s.rooms, b.poll) then Offered(s.clients[c], Update(b.event), |s.log|)
                    else s.clients[c]
    requires RoomOf(rooms, b.poll) == set c | c in RoomOf(s.rooms, b.poll) && c in s.clients && !Full(s.clients[c])
    requires forall p :: p != b.poll ==> RoomOf(rooms, p) == RoomOf(s.rooms, p) && (p in rooms <==> p in s.rooms)
    requires b.poll in rooms <==> RoomOf(rooms, b.poll) != {}
    ensures Deliver(s, b) == HubState(rooms, clients, s.log + [b], false)
    ensures Structured(Deliver(s, b))
  {
    RoomsEqual(rooms, Deliver(s, b).rooms);
    DeliverKeepsStructure(s, b);
  }

  /** The write pump takes the next frame; a closed client still drains what it has. */
  function Drain<C(==)>(s: HubState<C>, c: C): HubState<C> {
    if c !in s.clients || s.clients[c].buffer == [] then s else s.(clients := s.clients[c := Taken(s.clients[c])])
  }

  /** The upgrade handler's own frame, sent from outside the hub; it is dropped when the
      buffer is full. */
  function SendSnapshot<C(==)>(s: HubState<C>, c: C, e: Event): HubState<C>
    requires c in s.clients && s.clients[c].open
  {
    if Full(s.clients[c]) then s else s.(clients := s.clients[c := Sent(s.clients[c], Snapshot(e))])
  }

  function Shutdown<C(==)>(s: HubState<C>): HubState<C> {
    if s.stopped then s
    else s.(rooms := map[],
            clients := map c | c in s.clients ::
              if c in RoomOf(s.rooms, s.clients[c].poll) then Closed(s.clients[c], |s.log|) else s.clients[c],
            stopped := true)
  }

  datatype Op<C> =
    | DoRegister(c: C, poll: PollId)
    | DoUnregister(c: C)
    | DoDeliver(b: Broadcast)
    | DoDrain(c: C)
    | DoSnapshot(c: C, e: Event)
    | DoShutdown

  /** A client registers once, and its snapshot is sent while its channel is open. */
  predicate Legal<C(==)>(s: HubState<C>, op: Op<C>) {
    match op
    case DoRegister(c, _) => c !in s.clients
    case DoSnapshot(c, _) => c in s.clients && s.clients[c].open
    case _ => true
  }

  function Step<C(==)>(s: HubState<C>, op: Op<C>): HubState<C>
    requires Legal(s, op)
  {
    match op
    case DoRegister(c, poll) => Register(s, c, poll)
    case DoUnregister(c) => Unregister(s, c)
    case DoDeliver(b) => Deliver(s, b)
    case DoDrain(c) => Drain(s, c)
    case DoSnapshot(c, e) => SendSnapshot(s, c, e)
    case DoShutdown => Shutdown(s)
  }

  ghost predicate IsRun<C>(ss: seq<HubState<C>>, ops: seq<Op<C>>) {
    && |ss| == |ops| + 1
    && ss[0] == HubState(map[], map[], [], false)
    && forall i {:trigger Legal(ss[i], ops[i])} :: 0 <= i < |ops| ==>
         Legal(ss[i], ops[i]) && ss[i + 1] == Step(ss[i], ops[i])
  }

  // ---- Structure -----------------------------------------------------------------------------

  /** A client is open exactly while it is in the room of its own poll; no other room
      holds it, and no room is empty. */
  ghost predicate Structured<C>(s: HubState<C>) {
    && (forall c :: c in s.clients ==> (s.clients[c].open <==> c in RoomOf(s.rooms, s.clients[c].poll)))
    && (forall p :: p in s.rooms ==> s.rooms[p] != {})
    && (forall p, c :: p in s.rooms && c in s.rooms[p] ==> c in s.clients && s.clients[c].poll == p)
    && (s.stopped ==> s.rooms == map[])
  }

  lemma RoomHoldsItsOpenClients<C>(s: HubState<C>, p: PollId)
    requires Structured(s)
    ensures forall c :: c in RoomOf(s.rooms, p) ==> c in s.clients && s.clients[c].poll == p && s.clients[c].open
  {
    forall c | c in RoomOf(s.rooms, p) ensures c in s.clients && s.clients[c].poll == p && s.clients[c].open {
      assert p in s.rooms && c in s.rooms[p];
    }
  }

  lemma RegisterKeepsStructure<C>(s: HubState<C>, c: C, poll: PollId)
    requires Structured(s) && c !in s.clients
    ensures Structured(Register(s, c, poll))
  {}

  lemma UnregisterKeepsStructure<C>(s: HubState<C>, c: C)
    requires Structured(s)
    ensures Structured(Unregister(s, c))
  {}

  lemma DeliverKeepsStructure<C>(s: HubState<C>, b: Broadcast)
    requires Structured(s)
    ensures Structured(Deliver(s, b))
  {
    RoomHoldsItsOpenClients(s, b.poll);
  }

  lemma StepKeepsStructure<C>(s: HubState<C>, op: Op<C>)
    requires Structured(s) && Legal(s, op)
    ensures Structured(Step(s, op))
  {
    match op
    case DoRegister(c, poll) => RegisterKeepsStructure(s, c, poll);
    case DoUnregister(c) => UnregisterKeepsStructure(s, c);
    case DoDeliver(b) => DeliverKeepsStructure(s, b);
    case _ =>
  }

  // ---- Gap-free delivery -----------------------------------------------------------------------

  /** The events of one poll among the broadcasts. */
  function For(p: PollId, log: seq<Broadcast>): seq<Event> {
    if |log| == 0 then []
    else For(p, log[..|log| - 1]) + (if log[|log| - 1].poll == p then [log[|log| - 1].event] else [])
  }

  function Updates(frames: seq<Frame>): seq<Event> {
    if |frames| == 0 then []
    else
      Updates(frames[..|frames| - 1]) + (if frames[|frames| - 1].Update? then [frames[|frames| - 1].event] else [])
  }

  lemma UpdatesAppend(frames: seq<Frame>, f: Frame)
    ensures Updates(frames + [f]) == Updates(frames) + (if f.Update? then [f.event] else [])
  {
    assert (frames + [f])[..|frames|] == frames;
  }

  lemma ForAppend(p: PollId, log: seq<Broadcast>, b: Broadcast)
    ensures For(p, log + [b]) == For(p, log) + (if b.poll == p then [b.event] else [])
  {
    assert (log + [b])[..|log|] == log;
  }

  function Received(c: ClientState): seq<Event> {
    Updates(c.drained + c.buffer)
  }

  /** What a client drained and still has to drain is, in order, every broadcast of its
      poll from its registration up to now or up to where it was closed. */
  ghost predicate GapFree(c: ClientState, log: seq<Broadcast>) {
    var end := if c.open then |log| else c.until;
    c.since <= end <= |log| && Received(c) == For(c.poll, log[c.since..end]) && |c.buffer| <= SEND_BUFFER
  }

  ghost predicate AllGapFree<C>(s: HubState<C>) {
    forall c :: c in s.clients ==> GapFree(s.clients[c], s.log)
  }

  lemma CloseKeepsGapFree(c: ClientState, log: seq<Broadcast>)
    requires GapFree(c, log) && c.open
    ensures GapFree(Closed(c, |log|), log)
  {}

  /** A broadcast a client does not take part in, because it is closed or watches another
      poll. */
  lemma BystanderStaysGapFree(c: ClientState, log: seq<Broadcast>, b: Broadcast)
    requires GapFree(c, log) && (!c.open || b.poll != c.poll)
    ensures GapFree(c, log + [b])
  {
    if c.open {
      assert log[c.since..|log|] + [b] == (log + [b])[c.since..|log| + 1];
      ForAppend(c.poll, log[c.since..|log|], b);
    } else {
      assert (log + [b])[c.since..c.until] == log[c.since..c.until];
    }
  }

  lemma SentStaysGapFree(c: ClientState, log: seq<Broadcast>, b: Broadcast)
    requires GapFree(c, log) && c.open && b.poll == c.poll && !Full(c)
    ensures GapFree(Sent(c, Update(b.event)), log + [b])
  {
    assert log[c.since..|log|] + [b] == (log + [b])[c.since..|log| + 1];
    ForAppend(c.poll, log[c.since..|log|], b);
    assert c.drained + (c.buffer + [Update(b.event)]) == c.drained + c.buffer + [Update(b.event)];
    UpdatesAppend(c.drained + c.buffer, Update(b.event));
  }

  lemma EvictedStaysGapFree(c: ClientState, log: seq<Broadcast>, b: Broadcast)
    requires GapFree(c, log) && c.open
    ensures GapFree(Closed(c, |log|), log + [b])
  {
    assert (log + [b])[c.since..|log|] == log[c.since..|log|];
  }

  lemma DeliverKeepsGapFree<C>(s: HubState<C>, b: Broadcast)
    requires Structured(s) && AllGapFree(s)
    ensures AllGapFree(Deliver(s, b))
  {
    forall c | c in s.clients && !s.stopped ensures GapFree(Deliver(s, b).clients[c], Deliver(s, b).log) {
      RoomHoldsItsOpenClients(s, b.poll);
      if c !in RoomOf(s.rooms, b.poll) {
        BystanderStaysGapFree(s.clients[c], s.log, b);
      } else if Full(s.clients[c]) {
        EvictedStaysGapFree(s.clients[c], s.log, b);
      } else {
        SentStaysGapFree(s.clients[c], s.log, b);
      }
    }
  }

  lemma DrainKeepsGapFree(c: ClientState, log: seq<Broadcast>)
    requires GapFree(c, log) && c.buffer != []
    ensures GapFree(Taken(c), log)
  {
    assert c.drained + [c.buffer[0]] + c.buffer[1..] == c.drained + c.buffer;
  }

  lemma SnapshotKeepsGapFree(c: ClientState, log: seq<Broadcast>, e: Event)
    requires GapFree(c, log) && !Full(c)
    ensures GapFree(Sent(c, Snapshot(e)), log)
  {
    assert c.drained + (c.buffer + [Snapshot(e)]) == c.drained + c.buffer + [Snapshot(e)];
    UpdatesAppend(c.drained + c.buffer, Snapshot(e));
  }

  lemma StepKeepsGapFree<C>(s: HubState<C>, op: Op<C>)
    requires Structured(s) && AllGapFree(s) && Legal(s, op)
    ensures AllGapFree(Step(s, op))
  {
    match op
    case DoDeliver(b) => DeliverKeepsGapFree(s, b);
    case DoDrain(c) =>
      if c in s.clients && s.clients[c].buffer != [] { DrainKeepsGapFree(s.clients[c], s.log); }
    case DoSnapshot(c, e) =>
      if !Full(s.clients[c]) { SnapshotKeepsGapFree(s.clients[c], s.log, e); }
    case DoRegister(c, poll) =>
      assert s.log[|s.log|..|s.log|] == [];
    case DoUnregister(c) =>
      if c in s.clients && s.clients[c].open { CloseKeepsGapFree(s.clients[c], s.log); }
    case DoShutdown =>
      forall c | c in s.clients && s.clients[c].open { CloseKeepsGapFree(s.clients[c], s.log); }
  }

  // ---- Whole runs ----------------------------------------------------------------------------------

  /** In every run of the hub: clients and rooms agree, every client received exactly its
      poll's broadcasts without a gap, its buffer is bounded, and a stopped hub has no
      rooms and no open client. */
  lemma {:induction false} HubSafety<C>(ss: seq<HubState<C>>, ops: seq<Op<C>>, n: nat)
    requires IsRun(ss, ops) && n <= |ops|
    ensures Structured(ss[n]) && AllGapFree(ss[n])
    ensures ss[n].stopped ==> ss[n].rooms == map[] && forall c :: c in ss[n].clients ==> !ss[n].clients[c].open
  {
    if n > 0 {
      HubSafety(ss, ops, n - 1);
      assert Legal(ss[n - 1], ops[n - 1]);
      StepKeepsStructure(ss[n - 1], ops[n - 1]);
      StepKeepsGapFree(ss[n - 1], ops[n - 1]);
    }
  }

  /** Once closed, a client is never sent to, closed or reopened again: only its own drain
      touches it, and unregistering it once more does nothing at all. */
  lemma StepLeavesClosedAlone<C>(s: HubState<C>, op: Op<C>, c: C)
    requires Structured(s) && Legal(s, op) && c in s.clients && !s.clients[c].open
    ensures c in Step(s, op).clients
    ensures var was, now := s.clients[c], Step(s, op).clients[c];
            !now.open && now.until == was.until && now.drained + now.buffer == was.drained + was.buffer
            && was.drained <= now.drained
    ensures Unregister(s, c) == s
  {
    if op == DoDrain(c) && s.clients[c].buffer != [] {
      var client := s.clients[c];
      assert client.drained + [client.buffer[0]] + client.buffer[1..] == client.drained + client.buffer;
    }
  }

  lemma {:induction false} ClosedIsFinal<C>(ss: seq<HubState<C>>, ops: seq<Op<C>>, c: C, i: nat, j: nat)
    requires IsRun(ss, ops) && i <= j <= |ops|
    requires c in ss[i].clients && !ss[i].clients[c].open
    ensures c in ss[j].clients
    ensures var was, now := ss[i].clients[c], ss[j].clients[c];
            !now.open && now.until == was.until && now.drained + now.buffer == was.drained + was.buffer
            && was.drained <= now.drained
    ensures Unregister(ss[j], c) == ss[j]
    decreases j - i
  {
    HubSafety(ss, ops, j);
    if i < j {
      ClosedIsFinal(ss, ops, c, i, j - 1);
      HubSafety(ss, ops, j - 1);
      assert Legal(ss[j - 1], ops[j - 1]);
      StepLeavesClosedAlone(ss[j - 1], ops[j - 1], c);
    }
  }

  /** The steps that close an open client: it unregisters, the hub shuts down, or its own
      poll's broadcast finds its buffer full. */
  predicate Closes<C(==)>(s: HubState<C>, op: Op<C>, c: C) {
    match op
    case DoUnregister(d) => d == c
    case DoShutdown => true
    case DoDeliver(b) => c in s.clients && s.clients[c].poll == b.poll && |s.clients[c].buffer| >= 16
    case _ => false
  }

  lemma StepClosesIff<C>(s: HubState<C>, op: Op<C>, c: C)
    requires Structured(s) && Legal(s, op) && c in s.clients && s.clients[c].open
    ensures c in Step(s, op).clients
    ensures Step(s, op).clients[c].open <==> !Closes(s, op, c)
  {
    assert s.clients[c].poll in s.rooms;
    match op
    case DoDeliver(b) => RoomHoldsItsOpenClients(s, b.poll);
    case _ =>
  }

  /** When the handler's own send is safe.  A client whose channel is open at one point of a
      run may be sent its snapshot at a later one if and only if none of the steps between
      closes it. */
  lemma {:induction false} SnapshotIsSafeIff<C>(ss: seq<HubState<C>>, ops: seq<Op<C>>, c: C, e: Event, i: nat, j: nat)
    requires IsRun(ss, ops) && i <= j <= |ops|
    requires c in ss[i].clients && ss[i].clients[c].open
    ensures c in ss[j].clients
    ensures Legal(ss[j], DoSnapshot(c, e)) <==> forall k :: i <= k < j ==> !Closes(ss[k], ops[k], c)
    decreases j - i
  {
    if i < j {
      SnapshotIsSafeIff(ss, ops, c, e, i, j - 1);
      HubSafety(ss, ops, j - 1);
      assert Legal(ss[j - 1], ops[j - 1]);
      if ss[j - 1].clients[c].open {
        StepClosesIff(ss[j - 1], ops[j - 1], c);
      } else {
        StepLeavesClosedAlone(ss[j - 1], ops[j - 1], c);
      }
    }
  }

  /** A registration reaches a running hub only, and puts the client in its poll's room with
      an open, empty channel, to be sent everything from then on. */
  lemma RegistrationOpens<C>(s: HubState<C>, c: C, poll: PollId)
    requires c !in s.clients
    ensures var t := Step(s, DoRegister(c, poll));
            if s.stopped then t == s
            else && c in t.clients && t.clients[c].open && t.clients[c].poll == poll
                 && t.clients[c].drained + t.clients[c].buffer == [] && t.clients[c].since == |s.log|
                 && poll in t.rooms && c in t.rooms[poll]
  {
    assert !s.stopped ==> c in RoomOf(Step(s, DoRegister(c, poll)).rooms, poll);
  }

  /** A shutdown stops the hub, and a stopped hub stays stopped. */
  lemma {:induction false} StoppedForGood<C>(ss: seq<HubState<C>>, ops: seq<Op<C>>, i: nat, j: nat)
    requires IsRun(ss, ops) && i < j <= |ops| && (ss[i].stopped || ops[i].DoShutdown?)
    ensures ss[j].stopped
    decreases j - i
  {
    assert Legal(ss[j - 1], ops[j - 1]);
    if i < j - 1 {
      StoppedForGood(ss, ops, i, j - 1);
    }
  }

  /** The frames this step adds to what a client will be sent: its poll's broadcast or its
      own snapshot, if fewer than sixteen are waiting. */
  function Given<C(==)>(s: HubState<C>, op: Op<C>, c: C): seq<Frame> {
    if c !in s.clients || !s.clients[c].open || |s.clients[c].buffer| >= 16 then []
    else match op
      case DoDeliver(b) => if b.poll == s.clients[c].poll then [Update(b.event)] else []
      case DoSnapshot(d, e) => if d == c then [Snapshot(e)] else []
      case _ => []
  }

  function AllGiven<C(==)>(ss: seq<HubState<C>>, ops: seq<Op<C>>, c: C, n: nat): seq<Frame>
    requires n <= |ops| && |ss| == |ops| + 1
  {
    if n == 0 then [] else AllGiven(ss, ops, c, n - 1) + Given(ss[n - 1], ops[n - 1], c)
  }

  lemma StepGives<C>(s: HubState<C>, op: Op<C>, c: C)
    requires Structured(s) && Legal(s, op) && c in s.clients
    ensures c in Step(s, op).clients
    ensures var was, now := s.clients[c], Step(s, op).clients[c];
            now.drained + now.buffer == was.drained + was.buffer + Given(s, op, c)
  {
    var was := s.clients[c];
    match op
    case DoDeliver(b) =>
      RoomHoldsItsOpenClients(s, b.poll);
      if was.open {
        assert was.poll in s.rooms;
      }
      assert was.drained + (was.buffer + [Update(b.event)]) == was.drained + was.buffer + [Update(b.event)];
    case DoSnapshot(d, e) =>
      assert was.drained + (was.buffer + [Snapshot(e)]) == was.drained + was.buffer + [Snapshot(e)];
    case DoDrain(d) =>
      if was.buffer != [] {
        assert was.drained + [was.buffer[0]] + was.buffer[1..] == was.drained + was.buffer;
      }
    case _ =>
  }

  /** In every run, what a client was sent and still waits to be sent is, frame by frame and
      in the order of the steps, the broadcasts of its poll and the snapshots that found its
      channel open with room in it; snapshots are neither lost nor swapped with updates. */
  lemma {:induction false} FramesAreExact<C>(ss: seq<HubState<C>>, ops: seq<Op<C>>, c: C, n: nat)
    requires IsRun(ss, ops) && n <= |ops|
    ensures if c in ss[n].clients then ss[n].clients[c].drained + ss[n].clients[c].buffer == AllGiven(ss, ops, c, n)
            else AllGiven(ss, ops, c, n) == []
  {
    if n > 0 {
      FramesAreExact(ss, ops, c, n - 1);
      HubSafety(ss, ops, n - 1);
      assert Legal(ss[n - 1], ops[n - 1]);
      if c in ss[n - 1].clients {
        StepGives(ss[n - 1], ops[n - 1], c);
      } else if c in ss[n].clients {
        RegistrationOpens(ss[n - 1], c, ops[n - 1].poll);
      }
    }
  }

  /** The oldest waiting frame goes out first, and only for this client. */
  lemma DrainTakesTheOldest<C>(s: HubState<C>, c: C, d: C)
    requires c in s.clients && d in s.clients
    ensures var was, now := s.clients[d], Step(s, DoDrain(c)).clients[d];
            if c == d && was.buffer != [] then
              now.drained == was.drained + [was.buffer[0]] && now.buffer == was.buffer[1..]
            else now == was
  {}

  /** The handler starts the pumps before it sends its snapshot, so a connection that dies
      at once can have its channel closed first. */
  lemma SnapshotCanComeTooLate<C>(c: C, poll: PollId, e: Event)
    ensures exists ss: seq<HubState<C>>, ops: seq<Op<C>> ::
      IsRun(ss, ops) && c in ss[|ops|].clients && !Legal(ss[|ops|], DoSnapshot(c, e))
  {
    var s0: HubState<C> := HubState(map[], map[], [], false);
    var s1 := Register(s0, c, poll);
    var ops := [DoRegister(c, poll), DoUnregister(c)];
    var ss := [s0, s1, Unregister(s1, c)];
    assert ss[1] == Step(ss[0], ops[0]) && ss[2] == Step(ss[1], ops[1]);
    assert !Legal(ss[|ops|], DoSnapshot(c, e));
  }
}
