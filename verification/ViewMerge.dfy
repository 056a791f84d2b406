/** Merging a full tally into what a viewer sees (frontend/src/hooks/usePollResults.ts). */
module ViewMerge {
  import opened Common
  import opened Polls
  import opened ResultService
  import opened Events

  datatype View = View(
    poll: PollId,
    results: seq<OptionResult>,
    total: int,
    status: Status,
    computedAt: Time,
    yourVote: Option<OptionId>)

  /** The rows as a Map: of two rows for one option, the later. */
  function CountIn(rows: seq<Row>, id: OptionId): Option<int> {
    if |rows| == 0 then None
    else if rows[|rows| - 1].id == id then Some(rows[|rows| - 1].count)
    else CountIn(rows[..|rows| - 1], id)
  }

  function Recounted(o: OptionResult, e: Event): OptionResult {
    var c := CountIn(e.rows, o.id);
    o.(count := if c.Some? then c.value else o.count)
  }

  function Merge(v: View, e: Event): View {
    v.(results := Map((o: OptionResult) => Recounted(o, e), v.results),
       total := e.total, status := e.status, computedAt := e.timestamp)
  }

  /** The query cache: an event writes only into its own poll's entry, and only if the
      first fetch has landed. */
  function ApplyEvent(cache: map<PollId, View>, e: Event): map<PollId, View> {
    if e.poll in cache then cache[e.poll := Merge(cache[e.poll], e)] else cache
  }

  function ApplyAll(cache: map<PollId, View>, es: seq<Event>): (r: map<PollId, View>)
    ensures r.Keys == cache.Keys
  {
    if |es| == 0 then cache else ApplyEvent(ApplyAll(cache, es[..|es| - 1]), es[|es| - 1])
  }

  /** Of two rows for one option the later counts, and rows for others do not matter. */
  lemma LaterRowCounts(rows: seq<Row>, r: Row, id: OptionId)
    ensures CountIn(rows + [r], id) == if r.id == id then Some(r.count) else CountIn(rows, id)
  {
    assert (rows + [r])[..|rows|] == rows;
  }

  // ---- Dropped messages are harmless -------------------------------------------------------------

  ghost predicate Covers(e: Event, v: View) {
    forall i :: 0 <= i < |v.results| ==> CountIn(e.rows, v.results[i].id).Some?
  }

  /** Same poll, same options in the same order with the same text, same own vote: what a
      merge never changes. */
  ghost predicate SameFrame(v: View, w: View) {
    && v.poll == w.poll && v.yourVote == w.yourVote && |v.results| == |w.results|
    && forall i :: 0 <= i < |v.results| ==> v.results[i].id == w.results[i].id && v.results[i].text == w.results[i].text
  }

  /** An event wipes out whatever was shown before exactly if it has a row for every
      option shown. */
  lemma SelfSufficientIffCovering(e: Event, v: View)
    ensures Covers(e, v) <==> forall w :: SameFrame(v, w) ==> Merge(w, e) == Merge(v, e)
  {
    if Covers(e, v) {
      forall w | SameFrame(v, w) ensures Merge(w, e) == Merge(v, e) {
        assert Merge(w, e).results == Merge(v, e).results;
      }
    } else {
      var i :| 0 <= i < |v.results| && CountIn(e.rows, v.results[i].id).None?;
      var w := v.(results := v.results[i := v.results[i].(count := v.results[i].count + 1)]);
      assert SameFrame(v, w);
      assert Merge(w, e).results[i].count != Merge(v, e).results[i].count;
    }
  }

  /** The frame and the other polls survive every sequence of events. */
  lemma {:induction false} EventsKeepFrames(cache: map<PollId, View>, es: seq<Event>, p: PollId)
    ensures p in cache ==> SameFrame(cache[p], ApplyAll(cache, es)[p])
    ensures p in cache && (forall e :: e in es ==> e.poll != p) ==> ApplyAll(cache, es)[p] == cache[p]
  {
    if |es| > 0 {
      EventsKeepFrames(cache, es[..|es| - 1], p);
      forall e | e in es[..|es| - 1] ensures e in es {}
    }
  }

  /** Whatever came before it, and whatever of that was dropped, the view after a covering
      event is the view that event alone would have given. */
  lemma LastEventDecides(cache: map<PollId, View>, seen: seq<Event>, last: Event)
    requires last.poll in cache && Covers(last, cache[last.poll])
    ensures ApplyAll(cache, seen + [last])[last.poll] == Merge(cache[last.poll], last)
  {
    var p := last.poll;
    EventsKeepFrames(cache, seen, p);
    assert (seen + [last])[..|seen|] == seen;
    SelfSufficientIffCovering(last, cache[p]);
  }

  // ---- Back to the server's standing ---------------------------------------------------------------

  function ViewOf(r: Results, yourVote: Option<OptionId>): View {
    View(r.poll, r.options, r.total, r.status, r.computedAt, yourVote)
  }

  lemma {:induction false} RowsOfStanding(options: seq<PollOption>, counts: map<OptionId, int>, id: OptionId)
    requires HasId(options, id)
    ensures CountIn(Map((o: PollOption) => Row(o.id, Lookup(counts, o.id)), options), id) == Some(Lookup(counts, id))
  {
    var rows := Map((o: PollOption) => Row(o.id, Lookup(counts, o.id)), options);
    var front := options[..|options| - 1];
    assert rows[..|rows| - 1] == Map((o: PollOption) => Row(o.id, Lookup(counts, o.id)), front);
    if options[|options| - 1].id != id {
      var i :| 0 <= i < |options| && options[i].id == id;
      assert front[i].id == id;
      RowsOfStanding(front, counts, id);
    }
  }

  /** A viewer of a poll who has the poll's options on screen shows, after any events of
      which the last carries a standing of the poll, exactly that standing. */
  lemma ViewerShowsTheStanding(cache: map<PollId, View>, seen: seq<Event>, poll: Poll, counts: map<OptionId, int>,
                               now: Time)
    requires poll.id in cache
      && SameFrame(cache[poll.id], ViewOf(StandingOf(poll, counts, now), cache[poll.id].yourVote))
    ensures var standing := StandingOf(poll, counts, now);
            ApplyAll(cache, seen + [EventOf(standing)])[poll.id] == ViewOf(standing, cache[poll.id].yourVote)
  {
    var standing := StandingOf(poll, counts, now);
    var e, v := EventOf(standing), cache[poll.id];
    assert e.rows == Map((o: PollOption) => Row(o.id, Lookup(counts, o.id)), poll.options);
    forall i | 0 <= i < |v.results|
      ensures CountIn(e.rows, v.results[i].id) == Some(standing.options[i].count)
    {
      assert v.results[i].id == poll.options[i].id && HasId(poll.options, poll.options[i].id);
      RowsOfStanding(poll.options, counts, poll.options[i].id);
    }
    LastEventDecides(cache, seen, e);
    assert Merge(v, e).results == standing.options;
  }
}
