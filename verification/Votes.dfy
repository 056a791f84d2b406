/** The votes collection (backend/internal/repositories/vote_repository.go): the
    durable record every result is derived from. */
module Votes {
  import opened Common

  datatype Vote = Vote(poll: PollId, option: OptionId, voter: VoterId)

  datatype OptionCount = OptionCount(option: OptionId, count: nat)

  // ---- What the queries mean --------------------------------------------------

  /** Votes for one option of one poll: the definition of a correct count. */
  function Tally(votes: seq<Vote>, p: PollId, o: OptionId): nat {
    if |votes| == 0 then 0
    else
      var last := votes[|votes| - 1];
      Tally(votes[..|votes| - 1], p, o) + (if last.poll == p && last.option == o then 1 else 0)
  }

  function Count(votes: seq<Vote>, p: PollId): nat {
    if |votes| == 0 then 0
    else Count(votes[..|votes| - 1], p) + (if votes[|votes| - 1].poll == p then 1 else 0)
  }

  function Without(votes: seq<Vote>, p: PollId): (r: seq<Vote>)
    ensures forall v :: v in r <==> v in votes && v.poll != p
  {
    if |votes| == 0 then []
    else
      var last := votes[|votes| - 1];
      Without(votes[..|votes| - 1], p) + (if last.poll == p then [] else [last])
  }

  predicate HasVoted(votes: seq<Vote>, p: PollId, voter: VoterId) {
    exists i :: 0 <= i < |votes| && votes[i].poll == p && votes[i].voter == voter
  }

  /** The unique (pollId, voterId) index. */
  ghost predicate Unique(votes: seq<Vote>) {
    forall i, j :: 0 <= i < j < |votes| ==> votes[i].poll != votes[j].poll || votes[i].voter != votes[j].voter
  }

  lemma TallyAppend(votes: seq<Vote>, v: Vote, p: PollId, o: OptionId)
    ensures Tally(votes + [v], p, o) == Tally(votes, p, o) + (if v.poll == p && v.option == o then 1 else 0)
    ensures Count(votes + [v], p) == Count(votes, p) + (if v.poll == p then 1 else 0)
  {
    assert (votes + [v])[..|votes|] == votes;
  }

  lemma {:induction false} TallyPositiveIff(votes: seq<Vote>, p: PollId, o: OptionId)
    ensures Tally(votes, p, o) > 0 <==> exists i :: 0 <= i < |votes| && votes[i].poll == p && votes[i].option == o
  {
    if |votes| > 0 {
      TallyPositiveIff(votes[..|votes| - 1], p, o);
      if Tally(votes[..|votes| - 1], p, o) > 0 {
        var i :| 0 <= i < |votes| - 1 && votes[..|votes| - 1][i].poll == p && votes[..|votes| - 1][i].option == o;
        assert votes[i].poll == p && votes[i].option == o;
      }
    }
  }

  lemma {:induction false} CountPositiveIff(votes: seq<Vote>, p: PollId)
    ensures Count(votes, p) > 0 <==> exists i :: 0 <= i < |votes| && votes[i].poll == p
  {
    if |votes| > 0 {
      CountPositiveIff(votes[..|votes| - 1], p);
      if Count(votes[..|votes| - 1], p) > 0 {
        var i :| 0 <= i < |votes| - 1 && votes[..|votes| - 1][i].poll == p;
        assert votes[i].poll == p;
      }
    }
  }

  /** Purging one poll takes nothing away from any other. */
  lemma {:induction false} PurgeIsLocal(votes: seq<Vote>, q: PollId, p: PollId, o: OptionId)
    ensures Tally(Without(votes, q), p, o) == if p == q then 0 else Tally(votes, p, o)
  {
    if |votes| > 0 {
      var front, last := votes[..|votes| - 1], votes[|votes| - 1];
      PurgeIsLocal(front, q, p, o);
      var kept := Without(front, q);
      assert Without(votes, q) == if last.poll == q then kept else kept + [last];
      TallyAppend(kept, last, p, o);
    }
  }

  lemma {:induction false} PurgeKeepsUnique(votes: seq<Vote>, q: PollId)
    requires Unique(votes)
    ensures Unique(Without(votes, q))
  {
    if |votes| > 0 {
      var front, last := votes[..|votes| - 1], votes[|votes| - 1];
      PurgeKeepsUnique(front, q);
      forall v | v in Without(front, q) ensures v.poll != last.poll || v.voter != last.voter {
        var i :| 0 <= i < |front| && front[i] == v;
      }
    }
  }

  function Sum(ids: seq<OptionId>, count: OptionId -> int): int {
    if |ids| == 0 then 0 else Sum(ids[..|ids| - 1], count) + count(ids[|ids| - 1])
  }

  lemma {:induction false} SumOfEqual(ids: seq<OptionId>, f: OptionId -> int, g: OptionId -> int)
    requires forall i :: 0 <= i < |ids| ==> f(ids[i]) == g(ids[i])
    ensures Sum(ids, f) == Sum(ids, g)
  {
    if |ids| > 0 {
      SumOfEqual(ids[..|ids| - 1], f, g);
    }
  }

  /** Adding one vote raises the sum over distinct options by one if its option is
      among them. */
  lemma {:induction false} SumAppend(ids: seq<OptionId>, votes: seq<Vote>, v: Vote, p: PollId)
    requires Distinct(ids)
    ensures Sum(ids, o => Tally(votes + [v], p, o))
         == Sum(ids, o => Tally(votes, p, o)) + (if v.poll == p && v.option in ids then 1 else 0)
  {
    if |ids| > 0 {
      SumAppend(ids[..|ids| - 1], votes, v, p);
      TallyAppend(votes, v, p, ids[|ids| - 1]);
    }
  }

  lemma {:induction false} SumOfZero(ids: seq<OptionId>, p: PollId)
    ensures Sum(ids, o => Tally([], p, o)) == 0
  {
    if |ids| > 0 {
      SumOfZero(ids[..|ids| - 1], p);
    }
  }

  /** Conservation: when every vote of a poll names one of its (distinct) options,
      the per-option counts add up to the number of vote documents. */
  lemma {:induction false} TalliesAddUp(ids: seq<OptionId>, votes: seq<Vote>, p: PollId)
    requires Distinct(ids)
    requires forall v :: v in votes && v.poll == p ==> v.option in ids
    ensures Sum(ids, o => Tally(votes, p, o)) == Count(votes, p)
  {
    if |votes| == 0 {
      SumOfZero(ids, p);
    } else {
      var front, last := votes[..|votes| - 1], votes[|votes| - 1];
      TalliesAddUp(ids, front, p);
      SumAppend(ids, front, last, p);
      TallyAppend(front, last, p, "");
      assert votes == front + [last];
    }
  }

  // ---- The collection -----------------------------------------------------------

  /** The result of the $group stage: one row for each option that has votes, in
      no particular order. */
  ghost predicate IsTallyRows(rows: seq<OptionCount>, votes: seq<Vote>, p: PollId) {
    && (forall i, j :: 0 <= i < j < |rows| ==> rows[i].option != rows[j].option)
    && (forall i :: 0 <= i < |rows| ==> rows[i].count == Tally(votes, p, rows[i].option))
    && (forall o :: Tally(votes, p, o) > 0 ==> exists i :: 0 <= i < |rows| && rows[i].option == o)
  }

  class VoteCollection {
    var docs: seq<Vote>

    constructor ()
      ensures docs == []
    {
      docs := [];
    }

    /** Insert if absent: the unique index decides, not a read. */
    method Create(v: Vote, link: Link) returns (r: Result<()>)
      modifies this
      ensures docs == if Applied(link) && !HasVoted(old(docs), v.poll, v.voter) then old(docs) + [v] else old(docs)
      ensures r == if link != Up then Err(Internal)
                   else if HasVoted(old(docs), v.poll, v.voter) then Err(AlreadyVoted) else Ok(())
      ensures old(Unique(docs)) ==> Unique(docs)
    {
      var duplicate := HasVoted(docs, v.poll, v.voter);
      if Applied(link) && !duplicate {
        docs := docs + [v];
      }
      return if link != Up then Err(Internal) else if duplicate then Err(AlreadyVoted) else Ok(());
    }

    /** The $match/$group pipeline. */
    method CountsByPoll(p: PollId, ok: bool) returns (r: Result<seq<OptionCount>>)
      ensures if ok then r.Ok? && IsTallyRows(r.value, docs, p) else r == Err(Internal)
    {
      if !ok {
        return Err(Internal);
      }
      var groups: map<OptionId, nat> := map[];
      for i := 0 to |docs|
        invariant forall o :: o in groups <==> Tally(docs[..i], p, o) > 0
        invariant forall o :: o in groups ==> groups[o] == Tally(docs[..i], p, o)
      {
        assert docs[..i + 1][..i] == docs[..i];
        if docs[i].poll == p {
          var o := docs[i].option;
          groups := groups[o := (if o in groups then groups[o] else 0) + 1];
        }
      }
      assert docs[..|docs|] == docs;
      var rows: seq<OptionCount> := [];
      var left := groups.Keys;
      while left != {}
        invariant left <= groups.Keys
        invariant forall i :: 0 <= i < |rows| ==> rows[i].option in groups && rows[i].option !in left
        invariant forall i :: 0 <= i < |rows| ==> rows[i].count == groups[rows[i].option]
        invariant forall i, j :: 0 <= i < j < |rows| ==> rows[i].option != rows[j].option
        invariant forall o :: o in groups && o !in left ==> exists i :: 0 <= i < |rows| && rows[i].option == o
      {
        var o :| o in left;
        ghost var before := rows;
        rows := rows + [OptionCount(o, groups[o])];
        left := left - {o};
        assert rows[|before|].option == o;
        assert forall i :: 0 <= i < |before| ==> rows[i] == before[i];
      }
      return Ok(rows);
    }

    method CountByPoll(p: PollId, ok: bool) returns (r: Result<nat>)
      ensures r == if ok then Ok(Count(docs, p)) else Err(Internal)
    {
      if !ok {
        return Err(Internal);
      }
      var n := 0;
      for i := 0 to |docs|
        invariant n == Count(docs[..i], p)
      {
        assert docs[..i + 1][..i] == docs[..i];
        if docs[i].poll == p {
          n := n + 1;
        }
      }
      assert docs[..|docs|] == docs;
      return Ok(n);
    }

    method DeleteByPoll(p: PollId, link: Link) returns (ok: bool)
      modifies this
      ensures docs == if Applied(link) then Without(old(docs), p) else old(docs)
      ensures ok == (link == Up)
      ensures forall v: Vote :: v.poll != p ==> (v in docs <==> v in old(docs))
      ensures ok ==> forall v :: v in docs ==> v.poll != p
      ensures old(Unique(docs)) ==> Unique(docs)
    {
      if Applied(link) {
        if Unique(docs) {
          PurgeKeepsUnique(docs, p);
        }
        docs := Without(docs, p);
      }
      ok := link == Up;
    }
  }
}
