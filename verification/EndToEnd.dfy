/** From the stored votes to a viewer's screen: in a run of non-overlapping calls in which
    what was announced about a poll was announced truly, everything that reaches its
    viewers is a true standing, in the order in which they were true, and what is on
    screen after one is that standing. */
module EndToEnd {
  import opened Common
  import opened Polls
  import opened Votes
  import opened ResultService
  import opened Calls
  import opened Lifecycle
  import opened Exactness
  import opened Shortfall
  import opened Durability
  import opened Outcomes
  import opened Events
  import opened Hub
  import opened Pipeline
  import opened ViewMerge

  // ---- From the services to the channel -----------------------------------------------------

  /** What the services put on a poll's channel for a standing. */
  function MessageOf(r: Results): Message {
    Message(r.poll, Encode(EventOf(r)))
  }

  /** The events of one poll among the published standings. */
  function Announced(p: PollId, published: seq<Results>): seq<Event> {
    if |published| == 0 then []
    else
      var last := published[|published| - 1];
      Announced(p, published[..|published| - 1]) + (if last.poll == p then [EventOf(last)] else [])
  }

  lemma AnnouncedAppend(p: PollId, published: seq<Results>, r: Results)
    ensures Announced(p, published + [r]) == if r.poll == p then Announced(p, published) + [EventOf(r)]
                                             else Announced(p, published)
  {
    assert (published + [r])[..|published|] == published;
  }

  /** Of what passes an instance's filter, everything is the services' own, in the order
      they published it. */
  ghost predicate Carries(messages: seq<Message>, published: seq<Results>) {
    forall p :: Sub(Genuine(p, messages), Announced(p, published))
  }

  lemma PublishedOne(p: PollId, r: Results)
    ensures Genuine(p, [MessageOf(r)]) == if r.poll == p then [EventOf(r)] else []
  {
    assert Accept(MessageOf(r)) == Some(EventOf(r));
  }

  lemma ArrivalCarries(messages: seq<Message>, published: seq<Results>, r: Results, p: PollId)
    requires Sub(Genuine(p, messages), Announced(p, published))
    ensures Sub(Genuine(p, messages + [MessageOf(r)]), Announced(p, published + [r]))
    ensures Sub(Genuine(p, messages), Announced(p, published + [r]))
  {
    var g, a := Genuine(p, messages), Announced(p, published);
    AnnouncedAppend(p, published, r);
    GenuineConcat(p, messages, [MessageOf(r)]);
    PublishedOne(p, r);
    SubAppend(g, a, EventOf(r));
    assert g + [] == g;
  }

  lemma JunkCarries(messages: seq<Message>, junk: Message, p: PollId)
    requires Accept(junk).None?
    ensures Genuine(p, messages + [junk]) == Genuine(p, messages)
  {
    GenuineConcat(p, messages, [junk]);
    AcceptedOne(junk, p);
  }

  /** So it is however the channel behaves: a standing arrives or is lost, and anything the
      filter rejects may come between. */
  lemma ChannelCarries(messages: seq<Message>, published: seq<Results>, r: Results, junk: Message)
    requires Carries(messages, published)
    ensures Carries(messages + [MessageOf(r)], published + [r])
    ensures Carries(messages, published + [r])
    ensures Accept(junk).None? ==> Carries(messages + [junk], published)
  {
    forall p ensures Sub(Genuine(p, messages + [MessageOf(r)]), Announced(p, published + [r]))
                  && Sub(Genuine(p, messages), Announced(p, published + [r])) {
      ArrivalCarries(messages, published, r, p);
    }
    if Accept(junk).None? {
      forall p ensures Genuine(p, messages + [junk]) == Genuine(p, messages) {
        JunkCarries(messages, junk, p);
      }
    }
  }

  lemma {:induction false} SubOfSub<T>(a: seq<T>, b: seq<T>, c: seq<T>)
    requires Sub(a, b) && Sub(b, c)
    ensures Sub(a, c)
    decreases |c|
  {
    if a != [] {
      var front := c[..|c| - 1];
      if Sub(b, front) {
        SubOfSub(a, b, front);
      } else if a[|a| - 1] == b[|b| - 1] && Sub(a[..|a| - 1], b[..|b| - 1]) {
        SubOfSub(a[..|a| - 1], b[..|b| - 1], front);
      } else {
        SubOfSub(a, b[..|b| - 1], front);
      }
    }
  }

  // ---- What was announced -------------------------------------------------------------------------

  /** The standing a step announced is about this poll. */
  predicate Tells(ws: seq<World>, ops: seq<Lifecycle.Op>, p: PollId, i: nat)
    requires i < |ops| && |ws| == |ops| + 1
  {
    ws[i + 1].published != ws[i].published && (ops[i].Cast? || ops[i].Close?) && ops[i].p == p
  }

  /** Whatever was announced about this poll was either not read from the cache or read when
      every increment lost for the poll had been followed by a reset.  By
      Durability.PublicationsAreTrueIff this is when all of it is true. */
  ghost predicate Honest(ws: seq<World>, ops: seq<Lifecycle.Op>, p: PollId)
    requires |ws| == |ops| + 1
  {
    forall i :: 0 <= i < |ops| && Tells(ws, ops, p, i) ==> LastLink(ops[i]) != Up || Mended(ws, ops, p, i + 1)
  }

  /** In particular if no increment was ever lost for this poll, whatever happened to others. */
  lemma NothingLostIsHonest(ws: seq<World>, ops: seq<Lifecycle.Op>, p: PollId)
    requires |ws| == |ops| + 1 && forall k :: 0 <= k < |ops| ==> !LosesSome(ws[k], ops[k], p)
    ensures Honest(ws, ops, p)
  {}

  // ---- True standings in order -----------------------------------------------------------------

  /** The event carries the standing of the poll as the stored votes give it at point k. */
  ghost predicate TrueAt(ws: seq<World>, k: nat, p: PollId, e: Event, now: Time) {
    && k < |ws| && p in ws[k].polls && ws[k].polls[p].id == p
    && e == EventOf(TrueStanding(ws[k].votes, ws[k].polls[p], now))
  }

  ghost predicate Stands(ws: seq<World>, k: nat, p: PollId, e: Event) {
    exists now :: TrueAt(ws, k, p, e, now)
  }

  /** Every event is a true standing, each at a later point of the run than the one before. */
  ghost predicate Witnessed(ws: seq<World>, p: PollId, events: seq<Event>, ks: seq<nat>, before: nat) {
    && |ks| == |events|
    && (forall i, j :: 0 <= i < j < |ks| ==> ks[i] < ks[j])
    && (forall i :: 0 <= i < |ks| ==> ks[i] < before && Stands(ws, ks[i], p, events[i]))
  }

  lemma WitnessedAppend(ws: seq<World>, p: PollId, events: seq<Event>, ks: seq<nat>, before: nat,
                       e: Event, k: nat, now: Time)
    requires Witnessed(ws, p, events, ks, before) && before <= k && TrueAt(ws, k, p, e, now)
    ensures Witnessed(ws, p, events + [e], ks + [k], k + 1)
  {
    forall i | 0 <= i < |ks + [k]|
      ensures (ks + [k])[i] < k + 1 && Stands(ws, (ks + [k])[i], p, (events + [e])[i])
    {
      if i < |ks| {
        assert ks[i] < before && Stands(ws, ks[i], p, events[i]);
      } else {
        assert TrueAt(ws, k, p, e, now);
      }
    }
  }

  lemma WitnessedFront(ws: seq<World>, p: PollId, events: seq<Event>, ks: seq<nat>, before: nat)
    requires Witnessed(ws, p, events, ks, before) && |ks| > 0
    ensures Witnessed(ws, p, events[..|events| - 1], ks[..|ks| - 1], ks[|ks| - 1])
    ensures ks[|ks| - 1] < before && Stands(ws, ks[|ks| - 1], p, events[|events| - 1])
  {
    var front, places := events[..|events| - 1], ks[..|ks| - 1];
    forall i | 0 <= i < |places| ensures Stands(ws, places[i], p, front[i]) {
      assert Stands(ws, ks[i], p, events[i]);
    }
  }

  lemma WitnessOf(ws: seq<World>, p: PollId, events: seq<Event>, ks: seq<nat>, before: nat, e: Event)
    returns (k: nat, now: Time)
    requires Witnessed(ws, p, events, ks, before) && e in events
    ensures TrueAt(ws, k, p, e, now)
  {
    var i :| 0 <= i < |events| && events[i] == e;
    assert Stands(ws, ks[i], p, events[i]);
    k := ks[i];
    now :| TrueAt(ws, k, p, e, now);
  }

  /** One step's announcement, as far as this poll is concerned. */
  lemma NextAnnouncement(ws: seq<World>, ops: seq<Lifecycle.Op>, lower: Validation.Folding, p: PollId, i: nat)
    requires Lifecycle.IsRun(ws, ops, lower) && i < |ops| && Honest(ws, ops, p)
    ensures || Announced(p, ws[i + 1].published) == Announced(p, ws[i].published)
            || exists e :: Announced(p, ws[i + 1].published) == Announced(p, ws[i].published) + [e]
                           && Stands(ws, i + 1, p, e)
  {
    PublicationsAreTrueIff(ws, ops, lower, i);
    if ws[i + 1].published != ws[i].published {
      var before, after := ws[i].published, ws[i + 1].published;
      var r := after[|before|];
      assert after == before + [r];
      AnnouncedAppend(p, before, r);
      if ops[i].p == p {
        assert Tells(ws, ops, p, i);
        RunInvariants(ws, ops, lower, i + 1);
        LivePollRefers(ws[i + 1], p);
        assert TrueAt(ws, i + 1, p, EventOf(r), ops[i].now);
        assert Stands(ws, i + 1, p, EventOf(r));
      }
    }
  }

  lemma {:induction false} AnnouncementsAreTrue(ws: seq<World>, ops: seq<Lifecycle.Op>, lower: Validation.Folding,
                                                p: PollId, m: nat) returns (ks: seq<nat>)
    requires Lifecycle.IsRun(ws, ops, lower) && m <= |ops| && Honest(ws, ops, p)
    ensures Witnessed(ws, p, Announced(p, ws[m].published), ks, m + 1)
  {
    if m == 0 {
      ks := [];
    } else {
      ks := AnnouncementsAreTrue(ws, ops, lower, p, m - 1);
      NextAnnouncement(ws, ops, lower, p, m - 1);
      var was, now := Announced(p, ws[m - 1].published), Announced(p, ws[m].published);
      if now == was {
        WitnessedLonger(ws, p, was, ks, m, m + 1);
      } else {
        var e :| now == was + [e] && Stands(ws, m, p, e);
        var at :| TrueAt(ws, m, p, e, at);
        WitnessedAppend(ws, p, was, ks, m, e, m, at);
        ks := ks + [m];
      }
    }
  }

  lemma WitnessedLonger(ws: seq<World>, p: PollId, events: seq<Event>, ks: seq<nat>, before: nat, later: nat)
    requires Witnessed(ws, p, events, ks, before) && before <= later
    ensures Witnessed(ws, p, events, ks, later)
  {}

  lemma WitnessedLast(ws: seq<World>, p: PollId, events: seq<Event>, ks: seq<nat>, k: nat, later: nat)
    requires |events| > 0 && k < later
    requires Witnessed(ws, p, events[..|events| - 1], ks, k) && Stands(ws, k, p, events[|events| - 1])
    ensures Witnessed(ws, p, events, ks + [k], later)
  {
    var now :| TrueAt(ws, k, p, events[|events| - 1], now);
    WitnessedAppend(ws, p, events[..|events| - 1], ks, k, events[|events| - 1], k, now);
    assert events == events[..|events| - 1] + [events[|events| - 1]];
    WitnessedLonger(ws, p, events, ks + [k], k + 1, later);
  }

  lemma SubLast<T>(a: seq<T>, b: seq<T>)
    requires Sub(a, b) && a != []
    ensures b != []
    ensures Sub(a, b[..|b| - 1]) || (a[|a| - 1] == b[|b| - 1] && Sub(a[..|a| - 1], b[..|b| - 1]))
  {}

  lemma {:induction false} SubIsWitnessed(ws: seq<World>, p: PollId, a: seq<Event>, b: seq<Event>,
                                          ks: seq<nat>, before: nat)
    returns (js: seq<nat>)
    requires Sub(a, b) && Witnessed(ws, p, b, ks, before)
    ensures Witnessed(ws, p, a, js, before)
    decreases |b|
  {
    if a == [] {
      js := [];
    } else {
      SubLast(a, b);
      WitnessedFront(ws, p, b, ks, before);
      var front, k := b[..|b| - 1], ks[|ks| - 1];
      if Sub(a, front) {
        js := SubIsWitnessed(ws, p, a, front, ks[..|ks| - 1], k);
        WitnessedLonger(ws, p, a, js, k, before);
      } else {
        js := SubIsWitnessed(ws, p, a[..|a| - 1], front, ks[..|ks| - 1], k);
        WitnessedLast(ws, p, a, js, k, before);
        js := js + [k];
      }
    }
  }

  /** What reaches any viewer through the hub, snapshots aside: true standings of its poll,
      each later in the run than the one before, whatever was dropped on the way. */
  lemma ViewersFollowTheTruth<C>(ws: seq<World>, ops: seq<Lifecycle.Op>, lower: Validation.Folding,
                                 ss: seq<State<C>>, es: seq<Move<C>>, n: nat, c: C) returns (ks: seq<nat>)
    requires Lifecycle.IsRun(ws, ops, lower) && Pipeline.IsRun(ss, es) && n <= |es| && c in ss[n].hub.clients
    requires Honest(ws, ops, ss[n].hub.clients[c].poll)
    requires Carries(ss[n].published, ws[|ops|].published)
    ensures Witnessed(ws, ss[n].hub.clients[c].poll, Received(ss[n].hub.clients[c]), ks, |ws|)
  {
    var client := ss[n].hub.clients[c];
    ReceivedIsSubsequence(ss, es, n, c);
    SubOfSub(Received(client), Genuine(client.poll, ss[n].published), Announced(client.poll, ws[|ops|].published));
    ks := AnnouncementsAreTrue(ws, ops, lower, client.poll, |ops|);
    ks := SubIsWitnessed(ws, client.poll, Received(client), Announced(client.poll, ws[|ops|].published), ks, |ws|);
  }

  // ---- Numbers on screen only grow -------------------------------------------------------------------

  lemma StepGrowsTallies(w: World, op: Lifecycle.Op, lower: Validation.Folding, p: PollId, o: OptionId)
    requires Lifecycle.Legal(w, op) && p in w.polls
    ensures Tally(w.votes, p, o) <= Tally(Lifecycle.Step(w, op, lower).votes, p, o)
    ensures Count(w.votes, p) <= Count(Lifecycle.Step(w, op, lower).votes, p)
  {
    StepVotes(w, op, lower);
    if op.Cast? {
      TallyAppend(w.votes, Vote(op.p, op.o, op.voter), p, o);
    } else if op.PurgeVotes? {
      PurgeIsLocal(w.votes, op.p, p, o);
      PurgeKeepsCount(w.votes, op.p, p);
    }
  }

  lemma {:induction false} PurgeKeepsCount(votes: seq<Vote>, q: PollId, p: PollId)
    requires p != q
    ensures Count(Without(votes, q), p) == Count(votes, p)
  {
    if |votes| > 0 {
      var front, last := votes[..|votes| - 1], votes[|votes| - 1];
      PurgeKeepsCount(front, q, p);
      var kept := Without(front, q);
      assert Without(votes, q) == if last.poll == q then kept else kept + [last];
      TallyAppend(kept, last, p, "");
    }
  }

  lemma {:induction false} TalliesGrow(ws: seq<World>, ops: seq<Lifecycle.Op>, lower: Validation.Folding,
                                       p: PollId, i: nat, j: nat, o: OptionId)
    requires Lifecycle.IsRun(ws, ops, lower) && i <= j <= |ops|
    requires p in ws[i].polls && p in ws[j].polls
    ensures Tally(ws[i].votes, p, o) <= Tally(ws[j].votes, p, o)
    ensures Count(ws[i].votes, p) <= Count(ws[j].votes, p)
    decreases j - i
  {
    if i < j {
      ThereThroughout(ws, ops, lower, p, i, j);
      TalliesGrow(ws, ops, lower, p, i, j - 1, o);
      assert Lifecycle.Legal(ws[j - 1], ops[j - 1]);
      StepGrowsTallies(ws[j - 1], ops[j - 1], lower, p, o);
    }
  }

  lemma RowOfTrueStanding(votes: seq<Vote>, poll: Poll, now: Time, id: OptionId)
    ensures CountIn(EventOf(TrueStanding(votes, poll, now)).rows, id)
         == if HasId(poll.options, id) then Some(Tally(votes, poll.id, id)) else None
  {
    var counts := TallyMap(votes, poll);
    var rows := EventOf(TrueStanding(votes, poll, now)).rows;
    assert rows == Map((o: PollOption) => Row(o.id, Lookup(counts, o.id)), poll.options);
    if HasId(poll.options, id) {
      RowsOfStanding(poll.options, counts, id);
    } else {
      NoRow(rows, id);
    }
  }

  lemma {:induction false} NoRow(rows: seq<Row>, id: OptionId)
    requires forall i :: 0 <= i < |rows| ==> rows[i].id != id
    ensures CountIn(rows, id).None?
  {
    if |rows| > 0 {
      NoRow(rows[..|rows| - 1], id);
    }
  }

  lemma NumbersOnlyGrow(ws: seq<World>, ops: seq<Lifecycle.Op>, lower: Validation.Folding, p: PollId,
                        events: seq<Event>, ks: seq<nat>, i: nat, j: nat, id: OptionId)
    requires Lifecycle.IsRun(ws, ops, lower) && Witnessed(ws, p, events, ks, |ws|) && i < j < |events|
    ensures events[i].total <= events[j].total
    ensures CountIn(events[i].rows, id).Some? && CountIn(events[j].rows, id).Some? ==>
              CountIn(events[i].rows, id).value <= CountIn(events[j].rows, id).value
  {
    var a, b := ks[i], ks[j];
    var s :| TrueAt(ws, a, p, events[i], s);
    var t :| TrueAt(ws, b, p, events[j], t);
    TalliesGrow(ws, ops, lower, p, a, b, id);
    RowOfTrueStanding(ws[a].votes, ws[a].polls[p], s, id);
    RowOfTrueStanding(ws[b].votes, ws[b].polls[p], t, id);
    RunInvariants(ws, ops, lower, a);
    RunInvariants(ws, ops, lower, b);
    TrueTotal(ws[a], p);
    TrueTotal(ws[b], p);
  }

  /** Of two events that reach a viewer, the later shows no option with fewer votes and no
      smaller total. */
  lemma ViewersNumbersOnlyGrow<C>(ws: seq<World>, ops: seq<Lifecycle.Op>, lower: Validation.Folding,
                                  ss: seq<State<C>>, es: seq<Move<C>>, n: nat, c: C, i: nat, j: nat, id: OptionId)
    requires Lifecycle.IsRun(ws, ops, lower) && Pipeline.IsRun(ss, es) && n <= |es| && c in ss[n].hub.clients
    requires Honest(ws, ops, ss[n].hub.clients[c].poll)
    requires Carries(ss[n].published, ws[|ops|].published)
    requires i < j < |Received(ss[n].hub.clients[c])|
    ensures var seen := Received(ss[n].hub.clients[c]);
            && seen[i].total <= seen[j].total
            && (CountIn(seen[i].rows, id).Some? && CountIn(seen[j].rows, id).Some? ==>
                  CountIn(seen[i].rows, id).value <= CountIn(seen[j].rows, id).value)
  {
    var ks := ViewersFollowTheTruth(ws, ops, lower, ss, es, n, c);
    NumbersOnlyGrow(ws, ops, lower, ss[n].hub.clients[c].poll, Received(ss[n].hub.clients[c]), ks, i, j, id);
  }

  // ---- The screen --------------------------------------------------------------------------------------

  /** The events of the frames a browser has been sent, snapshots included. */
  function Shown(frames: seq<Frame>): seq<Event> {
    Map((f: Frame) => f.event, frames)
  }

  lemma LastUpdateIsReceived(client: ClientState)
    requires |client.drained| > 0 && client.drained[|client.drained| - 1].Update?
    ensures client.drained[|client.drained| - 1].event in Received(client)
  {
    var front, last := client.drained[..|client.drained| - 1], client.drained[|client.drained| - 1];
    assert client.drained == front + [last];
    UpdatesAppend(front, last);
    UpdatesPrefix(client.drained, client.buffer);
    assert last.event == Updates(client.drained)[|Updates(client.drained)| - 1];
  }

  lemma {:induction false} UpdatesPrefix(a: seq<Frame>, b: seq<Frame>)
    ensures Updates(a) <= Updates(a + b)
  {
    if b == [] {
      assert a + b == a;
    } else {
      UpdatesPrefix(a, b[..|b| - 1]);
      assert (a + b)[..|a + b| - 1] == a + b[..|b| - 1];
    }
  }

  /** The options of a poll are the same at any two points of a run at which it has votes. */
  lemma OptionsAreFrozen(ws: seq<World>, ops: seq<Lifecycle.Op>, lower: Validation.Folding, p: PollId, i: nat, k: nat)
    requires Lifecycle.IsRun(ws, ops, lower) && i <= |ops| && k <= |ops|
    requires p in ws[i].polls && p in ws[k].polls
    requires Count(ws[i].votes, p) > 0 && Count(ws[k].votes, p) > 0
    ensures ws[i].polls[p].options == ws[k].polls[p].options
  {
    if i <= k {
      KeptForGood(ws, ops, lower, p, i, k);
    } else {
      KeptForGood(ws, ops, lower, p, k, i);
    }
  }

  /** The last of the frames decides the screen of a browser that has the poll's options. */
  lemma LastFrameDecides(cache: map<PollId, View>, frames: seq<Frame>, was: Poll,
                         counted: map<OptionId, int>, fetched: Time, poll: Poll, counts: map<OptionId, int>, now: Time)
    requires poll.id in cache && was.id == poll.id && was.options == poll.options
    requires cache[poll.id] == ViewOf(StandingOf(was, counted, fetched), cache[poll.id].yourVote)
    requires |frames| > 0 && frames[|frames| - 1].event == EventOf(StandingOf(poll, counts, now))
    ensures ApplyAll(cache, Shown(frames))[poll.id] == ViewOf(StandingOf(poll, counts, now), cache[poll.id].yourVote)
  {
    var shown := Shown(frames);
    assert shown == shown[..|shown| - 1] + [EventOf(StandingOf(poll, counts, now))];
    ViewerShowsTheStanding(cache, shown[..|shown| - 1], poll, counts, now);
  }

  lemma LastFrameIsTrue<C>(ws: seq<World>, ops: seq<Lifecycle.Op>, lower: Validation.Folding,
                           ss: seq<State<C>>, es: seq<Move<C>>, n: nat, c: C) returns (k: nat, now: Time)
    requires Lifecycle.IsRun(ws, ops, lower) && Pipeline.IsRun(ss, es) && n <= |es| && c in ss[n].hub.clients
    requires Honest(ws, ops, ss[n].hub.clients[c].poll)
    requires Carries(ss[n].published, ws[|ops|].published)
    requires var drained := ss[n].hub.clients[c].drained; |drained| > 0 && drained[|drained| - 1].Update?
    ensures var client := ss[n].hub.clients[c];
            TrueAt(ws, k, client.poll, client.drained[|client.drained| - 1].event, now)
  {
    var client := ss[n].hub.clients[c];
    var last := client.drained[|client.drained| - 1].event;
    var ks := ViewersFollowTheTruth(ws, ops, lower, ss, es, n, c);
    LastUpdateIsReceived(client);
    k, now := WitnessOf(ws, client.poll, Received(client), ks, |ws|, last);
  }

  /** The end of the road.  A browser fetched the poll at point `i` of the run, its socket
      has sent it frames, and the last of them came through the channel.  Then that frame
      is a true standing of the poll at some point k; and unless the options were edited
      between i and k, which no poll with votes allows, the screen shows exactly that
      standing, whatever was dropped before it. */
  lemma ScreenShowsTheTruth<C>(ws: seq<World>, ops: seq<Lifecycle.Op>, lower: Validation.Folding,
                               ss: seq<State<C>>, es: seq<Move<C>>, n: nat, c: C,
                               cache: map<PollId, View>, i: nat, fetched: Time)
    returns (k: nat, now: Time)
    requires Lifecycle.IsRun(ws, ops, lower) && Pipeline.IsRun(ss, es) && n <= |es| && c in ss[n].hub.clients
    requires Honest(ws, ops, ss[n].hub.clients[c].poll)
    requires Carries(ss[n].published, ws[|ops|].published)
    requires var drained := ss[n].hub.clients[c].drained; |drained| > 0 && drained[|drained| - 1].Update?
    requires var p := ss[n].hub.clients[c].poll;
             i <= |ops| && p in ws[i].polls && p in cache
             && cache[p] == ViewOf(TrueStanding(ws[i].votes, ws[i].polls[p], fetched), cache[p].yourVote)
    ensures var p := ss[n].hub.clients[c].poll;
            && k <= |ops| && p in ws[k].polls
            && (Count(ws[i].votes, p) > 0 && Count(ws[k].votes, p) > 0 ==>
                  ws[i].polls[p].options == ws[k].polls[p].options)
            && (ws[i].polls[p].options == ws[k].polls[p].options ==>
                  var screen := ApplyAll(cache, Shown(ss[n].hub.clients[c].drained))[p];
                  && screen == ViewOf(TrueStanding(ws[k].votes, ws[k].polls[p], now), cache[p].yourVote)
                  && (screen.status == Active <==> TakesVotesAt(ws[k].polls[p], now)))
  {
    var client := ss[n].hub.clients[c];
    var p := client.poll;
    k, now := LastFrameIsTrue(ws, ops, lower, ss, es, n, c);
    if Count(ws[i].votes, p) > 0 && Count(ws[k].votes, p) > 0 {
      OptionsAreFrozen(ws, ops, lower, p, i, k);
    }
    var was, poll := ws[i].polls[p], ws[k].polls[p];
    if was.options == poll.options {
      IdOfPoll(ws, ops, lower, p, i);
      StandingShows(poll, TallyMap(ws[k].votes, poll), now);
      LastFrameDecides(cache, client.drained, was, TallyMap(ws[i].votes, was), fetched,
                       poll, TallyMap(ws[k].votes, poll), now);
    }
  }

  lemma LastDrainedUpdate(client: ClientState)
    requires client.buffer == [] && Received(client) != []
    ensures |client.drained| > 0 && client.drained[|client.drained| - 1].Update? ==>
      client.drained[|client.drained| - 1].event == Received(client)[|Received(client)| - 1]
  {
    assert client.drained + client.buffer == client.drained;
    if |client.drained| > 0 {
      UpdatesAppend(client.drained[..|client.drained| - 1], client.drained[|client.drained| - 1]);
    }
  }

  /** And it is up to date.  If every announcement about the poll reached this instance and
      nothing of it was lost inside, then once the stages and the client's buffer have
      drained, an open client that registered before the last announcement has received
      it, as its last event; so a browser last sent a frame of the channel shows it. */
  lemma ViewersCatchUp<C>(published: seq<Results>, ss: seq<State<C>>, es: seq<Move<C>>, n: nat, c: C)
    requires Pipeline.IsRun(ss, es) && n <= |es| && c in ss[n].hub.clients && ss[n].hub.clients[c].open
    requires var p := ss[n].hub.clients[c].poll;
             Genuine(p, ss[n].published) == Announced(p, published)
             && Losses(ss, es, p, n) == 0 && OnTheWay(ss[n], p) == []
    requires var client := ss[n].hub.clients[c];
             client.buffer == [] && client.since <= |ss[n].hub.log|
             && |For(client.poll, ss[n].hub.log[..client.since])| < |Announced(client.poll, published)|
    ensures var client := ss[n].hub.clients[c];
            var all := Announced(client.poll, published);
            && Received(client) != [] && Received(client)[|Received(client)| - 1] == all[|all| - 1]
            && (|client.drained| > 0 && client.drained[|client.drained| - 1].Update? ==>
                  client.drained[|client.drained| - 1].event == all[|all| - 1])
  {
    OpenClientsHaveEverything(ss, es, n, c);
    LastDrainedUpdate(ss[n].hub.clients[c]);
  }
}
