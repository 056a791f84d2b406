/** The hub and its clients as objects.  The methods are the branches of the hub's
    loop; sending on a closed channel and closing one twice are preconditions nobody in
    here can break. */
module HubObjects {
  import opened Common
  import opened Events
  import opened Hub

  class Client {
    const poll: PollId
    var buffer: seq<Frame>
    var closed: bool
    ghost var drained: seq<Frame>
    ghost var since: nat
    ghost var until: nat

    constructor (poll: PollId)
      ensures this.poll == poll && buffer == [] && !closed && drained == []
    {
      this.poll := poll;
      buffer, closed, drained := [], false, [];
    }

    ghost function State(): ClientState
      reads this
    {
      ClientState(poll, buffer, drained, !closed, since, until)
    }

    method Send(f: Frame) returns (ok: bool)
      requires !closed
      modifies this`buffer
      ensures ok == !Full(old(State()))
      ensures State() == if ok then Sent(old(State()), f) else old(State())
      ensures ok <==> |old(buffer)| < 16
      ensures buffer == if ok then old(buffer) + [f] else old(buffer)
    {
      ok := |buffer| < SEND_BUFFER;
      if ok {
        buffer := buffer + [f];
      }
    }

    /** The write pump's receive. */
    method Receive() returns (f: Option<Frame>)
      modifies this`buffer, this`drained
      ensures f == if old(buffer) == [] then None else Some(old(buffer)[0])
      ensures State() == if old(buffer) == [] then old(State()) else Taken(old(State()))
    {
      if buffer == [] {
        return None;
      }
      f := Some(buffer[0]);
      drained := drained + [buffer[0]];
      buffer := buffer[1..];
    }

    method Close(ghost at: nat)
      requires !closed
      modifies this`closed, this`until
      ensures State() == Closed(old(State()), at)
    {
      closed := true;
      until := at;
    }
  }

  class HubLoop {
    var rooms: map<PollId, set<Client>>
    var stopped: bool
    ghost var known: set<Client>
    ghost var log: seq<Broadcast>

    constructor ()
      ensures Valid() && State() == HubState(map[], map[], [], false)
    {
      rooms, stopped, known, log := map[], false, {}, [];
    }

    ghost function State(): HubState<Client>
      reads this, known
    {
      HubState(rooms, map c | c in known :: c.State(), log, stopped)
    }

    ghost predicate Valid()
      reads this, known
    {
      Structured(State())
    }

    method OnRegister(c: Client)
      requires Valid() && c !in known && !stopped
      requires !c.closed && c.buffer == [] && c.drained == []
      modifies this, c`since, c`until
      ensures Valid() && State() == Register(old(State()), c, c.poll)
    {
      ghost var before := State();
      var room := if c.poll in rooms then rooms[c.poll] else {};
      rooms := rooms[c.poll := room + {c}];
      known := known + {c};
      c.since, c.until := |log|, 0;
      assert c.State() == ClientState(c.poll, [], [], true, |log|, 0);
      RegisterIs(before, c, c.poll, rooms, State().clients);
    }

    method Remove(c: Client)
      requires c in RoomOf(rooms, c.poll) ==> !c.closed
      modifies this`rooms, c
      ensures rooms == if c in RoomOf(old(rooms), c.poll)
                       then SetRoom(old(rooms), c.poll, RoomOf(old(rooms), c.poll) - {c}) else old(rooms)
      ensures c.State() == if c in RoomOf(old(rooms), c.poll) then Closed(old(c.State()), |log|) else old(c.State())
    {
      if c.poll !in rooms {
        return;
      }
      var room := rooms[c.poll];
      if c !in room {
        return;
      }
      rooms := rooms[c.poll := room - {c}];
      c.Close(|log|);
      if room - {c} == {} {
        rooms := rooms - {c.poll};
      }
    }

    method OnUnregister(c: Client)
      requires Valid() && c in known && !stopped
      modifies this`rooms, c
      ensures Valid() && State() == Unregister(old(State()), c)
    {
      ghost var before := State();
      assert before.clients[c] == c.State();
      Remove(c);
      UnregisterKeepsStructure(before, c);
      assert State().clients == Unregister(before, c).clients;
    }

    /** Send, or disconnect a client whose buffer is full. */
    method Offer(c: Client, f: Frame)
      requires c in RoomOf(rooms, c.poll) && !c.closed
      modifies this`rooms, c
      ensures c.State() == Offered(old(c.State()), f, |log|)
      ensures RoomOf(rooms, c.poll) == if Full(old(c.State())) then RoomOf(old(rooms), c.poll) - {c}
                                       else RoomOf(old(rooms), c.poll)
      ensures forall p :: p != c.poll ==> RoomOf(rooms, p) == RoomOf(old(rooms), p) && (p in rooms <==> p in old(rooms))
      ensures c.poll in rooms <==> if Full(old(c.State())) then RoomOf(rooms, c.poll) != {} else c.poll in old(rooms)
    {
      var ok := c.Send(f);
      if !ok {
        Remove(c);
      }
    }

    /** The room is walked in whatever order the map gives; clients that cannot keep up
        leave it on the way. */
    method WalkRoom(b: Broadcast)
      requires forall c :: c in RoomOf(rooms, b.poll) ==> c in known && c.poll == b.poll && !c.closed
      requires b.poll in rooms ==> rooms[b.poll] != {}
      modifies this`rooms, known
      ensures forall c :: c in known ==>
        c.State() == if c in RoomOf(old(rooms), b.poll) then Offered(old(c.State()), Update(b.event), |log|)
                     else old(c.State())
      ensures RoomOf(rooms, b.poll) == set c | c in RoomOf(old(rooms), b.poll) && !Full(old(c.State()))
      ensures forall p :: p != b.poll ==> RoomOf(rooms, p) == RoomOf(old(rooms), p)
      ensures forall p :: p != b.poll ==> (p in rooms <==> p in old(rooms))
      ensures b.poll in rooms <==> RoomOf(rooms, b.poll) != {}
    {
      var room := if b.poll in rooms then rooms[b.poll] else {};
      var left := room;
      while left != {}
        invariant left <= room
        invariant forall c :: c in known ==>
          c.State() == if c in room - left then Offered(old(c.State()), Update(b.event), |log|) else old(c.State())
        invariant forall c :: c in RoomOf(rooms, b.poll) <==> c in room && (c in left || !Full(old(c.State())))
        invariant forall p :: p != b.poll ==>
          RoomOf(rooms, p) == RoomOf(old(rooms), p) && (p in rooms <==> p in old(rooms))
        invariant b.poll in rooms <==> RoomOf(rooms, b.poll) != {}
      {
        var c :| c in left;
        assert c.State() == old(c.State());
        left := left - {c};
        Offer(c, Update(b.event));
      }
    }

    method OnBroadcast(b: Broadcast)
      requires Valid() && !stopped
      modifies this`rooms, this`log, known
      ensures Valid() && State() == Deliver(old(State()), b)
    {
      ghost var before := State();
      RoomHoldsItsOpenClients(before, b.poll);
      assert forall c :: c in known ==> before.clients[c] == c.State();
      WalkRoom(b);
      DeliverIs(before, b, rooms, State().clients);
      log := log + [b];
      assert State().clients == Deliver(before, b).clients;
    }

    method OnShutdown()
      requires Valid() && !stopped
      modifies this`rooms, this`stopped, known
      ensures Valid() && State() == Shutdown(old(State()))
    {
      ghost var before := State();
      forall p, c | p in rooms && c in rooms[p] ensures c in known && c.poll == p && !c.closed {
        RoomHoldsItsOpenClients(before, p);
        assert c in RoomOf(before.rooms, p) && before.clients[c] == c.State();
      }
      CloseAll();
      stopped := true;
      assert State().clients == Shutdown(before).clients;
      StepKeepsStructure(before, DoShutdown);
    }

    method CloseAll()
      requires forall p, c :: p in rooms && c in rooms[p] ==> c in known && c.poll == p && !c.closed
      modifies this`rooms, known
      ensures rooms == map[]
      ensures forall c :: c in known ==>
        c.State() == if c in RoomOf(old(rooms), c.poll) then Closed(old(c.State()), |log|) else old(c.State())
    {
      while rooms != map[]
        invariant rooms.Keys <= old(rooms).Keys && forall p :: p in rooms ==> rooms[p] == old(rooms)[p]
        invariant forall c :: c in known ==>
          c.State() == if c.poll !in rooms && c in RoomOf(old(rooms), c.poll) then Closed(old(c.State()), |log|)
                       else old(c.State())
        decreases |rooms|
      {
        var p :| p in rooms;
        forall c | c in rooms[p] ensures c in known && c.poll == p && !c.closed {
          assert c.State() == old(c.State());
        }
        CloseRoom(p);
        rooms := rooms - {p};
      }
    }

    method CloseRoom(p: PollId)
      requires p in rooms
      requires forall c :: c in rooms[p] ==> c in known && c.poll == p && !c.closed
      modifies known
      ensures forall c :: c in known ==>
        c.State() == if c in rooms[p] then Closed(old(c.State()), |log|) else old(c.State())
    {
      var left := rooms[p];
      while left != {}
        invariant left <= rooms[p]
        invariant forall c :: c in known ==>
          c.State() == if c in rooms[p] - left then Closed(old(c.State()), |log|) else old(c.State())
      {
        var c :| c in left;
        left := left - {c};
        c.Close(|log|);
      }
    }
  }
}
