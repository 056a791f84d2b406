/** The realtime event and its wire form (backend/internal/events/events.go). */
module Events {
  import opened Common
  import opened Polls
  import opened ResultService

  datatype Row = Row(id: OptionId, count: int)

  datatype Event = Event(poll: PollId, rows: seq<Row>, total: int, status: Status, timestamp: Time)

  /** The bytes on a channel: something this application encoded, or anything else. */
  datatype Payload = Encoded(event: Event) | Unrecognised

  function Encode(e: Event): Payload {
    Encoded(e)
  }

  function Decode(p: Payload): Option<Event> {
    if p.Encoded? then Some(p.event) else None
  }

  /** A standing as an event: counts travel, option text does not. */
  function EventOf(r: Results): Event {
    Event(r.poll, Map((o: OptionResult) => Row(o.id, o.count), r.options), r.total, r.status, r.computedAt)
  }

  method ToEventCounts(r: Results) returns (rows: seq<Row>)
    ensures rows == EventOf(r).rows
  {
    rows := [];
    for i := 0 to |r.options|
      invariant rows == EventOf(r).rows[..i]
    {
      rows := rows + [Row(r.options[i].id, r.options[i].count)];
    }
  }
}
