/** The live counters (backend/internal/redis/counters.go): one hash per poll,
    option ID to count.  A key whose hash would be empty does not exist. */
module Counters {
  import opened Common

  /** A stored hash value: one that parses as an integer, or one that does not. */
  datatype Field = Num(n: int) | Junk

  type Hash = map<OptionId, Field>

  /** What the increment script replies: an integer, or an error because the field
      it was asked to increment is not a number. */
  datatype ScriptReply = Reply(n: int) | ScriptError

  const COLD_KEY := -1

  predicate Readable(h: Hash) {
    h != map[] && forall o :: o in h ==> h[o].Num?
  }

  /** The count a reader of the hash sees for an option; a missing field reads as zero. */
  function CountOf(h: Hash, o: OptionId): int {
    if o in h && h[o].Num? then h[o].n else 0
  }

  function ToHash(counts: map<OptionId, int>): (h: Hash)
    ensures h.Keys == counts.Keys
    ensures forall o :: CountOf(h, o) == if o in counts then counts[o] else 0
    ensures counts != map[] ==> Readable(h)
  {
    var h := map o | o in counts :: Num(counts[o]);
    assert counts != map[] ==> h != map[] by {
      if counts != map[] {
        var o :| o in counts;
        assert o in h;
      }
    }
    h
  }

  function FromHash(h: Hash): map<OptionId, int>
    requires Readable(h)
  {
    map o | o in h :: h[o].n
  }

  /** The increment-if-warm script, as Redis carries it out in one step. */
  function Script(h: Hash, o: OptionId): (Hash, ScriptReply) {
    if h == map[] then (h, Reply(COLD_KEY))
    else if o in h && h[o].Junk? then (h, ScriptError)
    else (h[o := Num(CountOf(h, o) + 1)], Reply(CountOf(h, o) + 1))
  }

  /** The script can answer "cold" for a hash that exists, and only for a counter
      that stood at minus two; counters that never go negative are never misread. */
  lemma ColdReplyMeaning(h: Hash, o: OptionId)
    ensures Script(h, o).1 == Reply(COLD_KEY) <==> h == map[] || (o in h && h[o] == Num(-2))
  {}

  /** No increment turns an unreadable hash into a readable one, or the reverse. */
  lemma ScriptKeepsReadability(h: Hash, o: OptionId)
    ensures Readable(Script(h, o).0) <==> Readable(h)
    ensures forall x :: x != o ==> CountOf(Script(h, o).0, x) == CountOf(h, x)
  {
    var h' := Script(h, o).0;
    if !Readable(h) && h != map[] {
      var x :| x in h && h[x].Junk?;
      assert x in h' && h'[x].Junk?;
    }
    assert h != map[] && Script(h, o).1.Reply? ==> o in h';
  }

  function HashOf(hashes: map<PollId, Hash>, p: PollId): Hash {
    if p in hashes then hashes[p] else map[]
  }

  function Put(hashes: map<PollId, Hash>, p: PollId, h: Hash): (r: map<PollId, Hash>)
    ensures HashOf(r, p) == h
    ensures forall q :: q != p ==> HashOf(r, q) == HashOf(hashes, q)
  {
    if h == map[] then hashes - {p} else hashes[p := h]
  }

  /** HSET with a list of field/value pairs. */
  function HSet(h: Hash, values: seq<(OptionId, int)>): Hash {
    if |values| == 0 then h
    else HSet(h, values[..|values| - 1])[values[|values| - 1].0 := Num(values[|values| - 1].1)]
  }

  lemma {:induction false} HSetWrites(values: seq<(OptionId, int)>, counts: map<OptionId, int>)
    requires forall i :: 0 <= i < |values| ==> values[i].0 in counts && values[i].1 == counts[values[i].0]
    ensures forall o :: o in HSet(map[], values) <==> exists i :: 0 <= i < |values| && values[i].0 == o
    ensures forall o :: o in HSet(map[], values) ==> o in counts && HSet(map[], values)[o] == Num(counts[o])
  {
    if |values| > 0 {
      var front, last := values[..|values| - 1], values[|values| - 1];
      HSetWrites(front, counts);
      forall o ensures o in HSet(map[], values) <==> exists i :: 0 <= i < |values| && values[i].0 == o {
        if o in HSet(map[], front) {
          var i :| 0 <= i < |front| && front[i].0 == o;
          assert values[i].0 == o;
        }
      }
    }
  }

  class CounterStore {
    var hashes: map<PollId, Hash>

    constructor ()
      ensures hashes == map[]
    {
      hashes := map[];
    }

    method IncrementOption(p: PollId, o: OptionId, link: Link) returns (warm: Result<bool>)
      modifies this
      ensures hashes == if Applied(link) && HashOf(old(hashes), p) != map[]
                        then Put(old(hashes), p, Script(HashOf(old(hashes), p), o).0) else old(hashes)
      ensures var reply := Script(HashOf(old(hashes), p), o).1;
              warm == if link != Up || reply == ScriptError then Err(Internal) else Ok(reply.n != COLD_KEY)
      // a key is neither created nor removed, and no other key and no other option changes
      ensures HashOf(hashes, p) == map[] <==> HashOf(old(hashes), p) == map[]
      ensures forall q :: q != p ==> HashOf(hashes, q) == HashOf(old(hashes), q)
      ensures forall x :: x != o ==> CountOf(HashOf(hashes, p), x) == CountOf(HashOf(old(hashes), p), x)
    {
      var reply := Script(HashOf(hashes, p), o).1;
      if Applied(link) && p in hashes && hashes[p] != map[] {
        hashes := Put(hashes, p, Script(hashes[p], o).0);
      }
      if link != Up || reply.ScriptError? {
        return Err(Internal);
      }
      return Ok(reply.n != COLD_KEY);
    }

    /** None is "cold": nothing there, or not what this application wrote. */
    method Results(p: PollId, link: Link) returns (counts: Result<Option<map<OptionId, int>>>)
      ensures var h := HashOf(hashes, p);
              counts == if link != Up then Err(Internal)
                        else if Readable(h) then Ok(Some(FromHash(h))) else Ok(None)
    {
      if link != Up {
        return Err(Internal);
      }
      var raw := HashOf(hashes, p);
      if raw == map[] {
        return Ok(None);
      }
      var parsed: map<OptionId, int> := map[];
      var left := raw.Keys;
      while left != {}
        invariant left <= raw.Keys
        invariant parsed.Keys == raw.Keys - left
        invariant forall o :: o in parsed ==> raw[o] == Num(parsed[o])
      {
        var o :| o in left;
        if raw[o].Junk? {
          return Ok(None);
        }
        parsed := parsed[o := raw[o].n];
        left := left - {o};
      }
      assert parsed == FromHash(raw);
      return Ok(Some(parsed));
    }

    /** Delete and rewrite in one transaction. */
    method ReplaceResults(p: PollId, counts: map<OptionId, int>, link: Link) returns (ok: bool)
      modifies this
      ensures hashes == if Applied(link) then Put(old(hashes), p, ToHash(counts)) else old(hashes)
      ensures ok == (link == Up)
      // a reader finds exactly the given counts, and no other key changes
      ensures Applied(link) && counts != map[] ==>
                Readable(HashOf(hashes, p)) && FromHash(HashOf(hashes, p)) == counts
      ensures forall q :: q != p ==> HashOf(hashes, q) == HashOf(old(hashes), q)
    {
      var values: seq<(OptionId, int)> := [];
      var left := counts.Keys;
      while left != {}
        invariant left <= counts.Keys
        invariant forall i :: 0 <= i < |values| ==> values[i].0 in counts && values[i].1 == counts[values[i].0]
        invariant forall o :: o in counts && o !in left ==> exists i :: 0 <= i < |values| && values[i].0 == o
      {
        var o :| o in left;
        ghost var before := values;
        values := values + [(o, counts[o])];
        left := left - {o};
        assert values[|before|].0 == o;
        assert forall i :: 0 <= i < |before| ==> values[i] == before[i];
      }
      if Applied(link) {
        HSetWrites(values, counts);
        assert HSet(map[], values) == ToHash(counts);
        hashes := Put(hashes, p, HSet(map[], values));
      }
      ok := link == Up;
    }

    method DeleteResults(p: PollId, link: Link) returns (ok: bool)
      modifies this
      ensures hashes == if Applied(link) then Put(old(hashes), p, map[]) else old(hashes)
      ensures ok == (link == Up)
      ensures ok ==> HashOf(hashes, p) == map[]
      ensures forall q :: q != p ==> HashOf(hashes, q) == HashOf(old(hashes), q)
    {
      if Applied(link) {
        hashes := Put(hashes, p, map[]);
      }
      ok := link == Up;
    }
  }
}
