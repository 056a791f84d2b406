/** The services as objects over the stores they change, each call proved to make of
    the stores what the module Calls says. */
module Services {
  import opened Common
  import opened Polls
  import opened Votes
  import opened Counters
  import opened ResultService
  import opened Validation
  import opened Calls

  /** The polls collection (backend/internal/repositories/poll_repository.go). */
  class PollCollection {
    var docs: map<PollId, Poll>
    var nextId: PollId

    constructor ()
      ensures docs == map[] && nextId == 0
    {
      docs, nextId := map[], 0;
    }

    method Create(draft: Poll, link: Link) returns (r: Result<Poll>)
      modifies this
      ensures var poll := draft.(id := old(nextId));
              && docs == (if Applied(link) then old(docs)[old(nextId) := poll] else old(docs))
              && nextId == (if Applied(link) then old(nextId) + 1 else old(nextId))
              && r == (if link == Up then Ok(poll) else Err(Internal))
    {
      var poll := draft.(id := nextId);
      if Applied(link) {
        docs := docs[nextId := poll];
        nextId := nextId + 1;
      }
      return if link == Up then Ok(poll) else Err(Internal);
    }

    method FindByID(p: PollId, ok: bool) returns (r: Result<Poll>)
      ensures r == Find(docs, p, ok)
    {
      if !ok {
        return Err(Internal);
      }
      if p !in docs {
        return Err(NotFound);
      }
      return Ok(docs[p]);
    }

    /** Find-and-modify: the owner is part of the filter. */
    method Update(p: PollId, owner: UserId, u: PollUpdate, link: Link) returns (r: Result<Poll>)
      modifies this`docs
      ensures docs == AfterUpdate(old(docs), p, owner, u, link)
      ensures r == UpdateAnswer(old(docs), p, owner, u, link)
      ensures !Owns(old(docs), p, owner) ==> docs == old(docs) && r.Err?
      ensures docs.Keys == old(docs.Keys) && forall q :: q in docs && q != p ==> docs[q] == old(docs)[q]
      ensures p in docs ==> docs[p].id == old(docs)[p].id && docs[p].owner == old(docs)[p].owner
      ensures r.Ok? ==> p in docs && r.value == docs[p]
    {
      var matches := p in docs && docs[p].owner == owner;
      if Applied(link) && !Conflicting(u) && matches {
        docs := docs[p := Updated(docs[p], u)];
      }
      if link != Up || Conflicting(u) {
        return Err(Internal);
      }
      if !matches {
        return Err(NotFound);
      }
      return Ok(docs[p]);
    }

    method Delete(p: PollId, owner: UserId, link: Link) returns (r: Result<()>)
      modifies this`docs
      ensures docs == if Applied(link) && Owns(old(docs), p, owner) then old(docs) - {p} else old(docs)
      ensures r == if link != Up then Err(Internal) else if Owns(old(docs), p, owner) then Ok(()) else Err(NotFound)
      ensures !Owns(old(docs), p, owner) ==> docs == old(docs) && r.Err?
      ensures forall q :: q != p ==> (q in docs <==> q in old(docs)) && (q in docs ==> docs[q] == old(docs)[q])
      ensures r.Ok? ==> p !in docs
    {
      var matches := p in docs && docs[p].owner == owner;
      if Applied(link) && matches {
        docs := docs - {p};
      }
      return if link != Up then Err(Internal) else if matches then Ok(()) else Err(NotFound);
    }
  }

  /** Where published standings go; publishing may fail and nobody is told. */
  class Outbox {
    var sent: seq<Results>

    constructor ()
      ensures sent == []
    {
      sent := [];
    }

    method PublishResults(r: Results, publish: bool)
      modifies this
      ensures sent == if publish then old(sent) + [r] else old(sent)
    {
      if publish {
        sent := sent + [r];
      }
    }
  }

  class Backend {
    const polls: PollCollection
    const votes: VoteCollection
    const counters: CounterStore
    const outbox: Outbox

    constructor ()
      ensures fresh(polls) && fresh(votes) && fresh(counters) && fresh(outbox)
      ensures State() == World(map[], [], map[], [], 0)
    {
      polls := new PollCollection();
      votes := new VoteCollection();
      counters := new CounterStore();
      outbox := new Outbox();
    }

    ghost function State(): World
      reads polls, votes, counters, outbox
    {
      World(polls.docs, votes.docs, counters.hashes, outbox.sent, polls.nextId)
    }
  }

  /** Equal up to how the store of hashes is written down: a missing key and an empty
      hash are the same thing. */
  ghost predicate Same(a: World, b: World) {
    && a.polls == b.polls && a.votes == b.votes && a.published == b.published && a.nextId == b.nextId
    && forall q :: HashOf(a.hashes, q) == HashOf(b.hashes, q)
  }

  class VoteService {
    const db: Backend
    const results: ResultReader

    constructor (db: Backend)
      ensures this.db == db && fresh(results)
      ensures results.votes == db.votes && results.counters == db.counters
    {
      this.db := db;
      this.results := new ResultReader(db.votes, db.counters);
    }

    ghost predicate Wired() {
      results.votes == db.votes && results.counters == db.counters
    }

    method Cast(p: PollId, o: OptionId, voter: VoterId, now: Time, f: CastFaults) returns (r: Result<Results>)
      requires Wired()
      modifies db.votes, db.counters, db.outbox
      ensures Same(db.State(), CastStep(old(db.State()), p, o, voter, now, f))
      ensures r == CastAnswer(old(db.State()), p, o, voter, now, f)
    {
      if voter == "" {
        return Err(Internal);
      }
      if o == "" || |o| > MAX_OPTION_ID_LENGTH {
        return Err(Validation);
      }
      var found := db.polls.FindByID(p, f.find);
      if found.Err? {
        return Err(found.code);
      }
      var poll := found.value;
      var offered := HasOption(poll, o);
      if !offered {
        return Err(Validation);
      }
      if !poll.AcceptsVotes(now) {
        return Err(PollClosed);
      }
      var stored := db.votes.Create(Vote(p, o, voter), f.insert);
      if stored.Err? {
        return Err(stored.code);
      }
      r := CountAndAnnounce(poll, o, now, f);
    }

    /** Everything after the insert is cache maintenance. */
    method CountAndAnnounce(poll: Poll, o: OptionId, now: Time, f: CastFaults) returns (r: Result<Results>)
      requires Wired()
      modifies db.counters, db.outbox
      ensures var recorded := RecordStep(old(db.State()), poll, o, f);
              && Same(db.State(), WithPublished(ForPollStep(recorded, poll, f.read),
                                                ForPollResult(recorded, poll, f.read, now), f.publish))
              && r == ForPollResult(recorded, poll, f.read, now)
    {
      results.RecordVote(poll, o, f.increment, f.coldAggregate, f.coldReplace, now);
      r := results.ForPoll(poll, f.read, now);
      if r.Ok? {
        db.outbox.PublishResults(r.value, f.publish);
      }
    }

    method Standing(p: PollId, find: bool, f: ReadFaults, now: Time) returns (r: Result<Results>)
      requires Wired()
      modifies db.counters
      ensures Same(db.State(), ReadStep(old(db.State()), p, find, f))
      ensures r == ReadAnswer(old(db.State()), p, find, f, now)
    {
      var found := db.polls.FindByID(p, find);
      if found.Err? {
        return Err(found.code);
      }
      r := results.ForPoll(found.value, f, now);
    }
  }

  class PollService {
    const db: Backend
    const results: ResultReader
    const lower: Folding

    constructor (db: Backend, lower: Folding)
      ensures this.db == db && this.lower == lower && fresh(results)
      ensures results.votes == db.votes && results.counters == db.counters
    {
      this.db := db;
      this.lower := lower;
      this.results := new ResultReader(db.votes, db.counters);
    }

    ghost predicate Wired() {
      results.votes == db.votes && results.counters == db.counters
    }

    method ValidateExpiry(v: Validator, expiresAt: Option<Time>, now: Time) returns (r: Option<Time>)
      modifies v
      ensures v.fields == WithProblem(old(v.fields), "expiresAt", ExpiryProblem(expiresAt, now))
      ensures r == if ExpiryProblem(expiresAt, now).None? then expiresAt else None
    {
      if expiresAt.None? {
        return None;
      }
      if !(expiresAt.value > now) {
        v.Add("expiresAt", ExpiryNotInFuture);
        return None;
      }
      if expiresAt.value > now + MAX_POLL_LIFETIME {
        v.Add("expiresAt", ExpiryTooFarAhead);
        return None;
      }
      return expiresAt;
    }

    method CheckCreate(input: CreateInput, now: Time)
      returns (ok: bool, question: string, texts: seq<string>, expiresAt: Option<Time>)
      ensures ok <==> ValidCreate(input, now, lower)
      ensures question == CleanText(input.question) && texts == Cleaned(input.options)
      ensures ok ==> expiresAt == input.expiresAt
    {
      var v := new Validator();
      question := v.Question("question", input.question);
      texts := v.Options("options", input.options, lower);
      expiresAt := ValidateExpiry(v, input.expiresAt, now);
      ok := v.fields == map[];
    }

    method MintOptions(texts: seq<string>, minted: seq<OptionId>) returns (options: seq<PollOption>)
      requires |minted| >= |texts|
      ensures options == FreshOptions(texts, minted)
    {
      options := [];
      for i := 0 to |texts|
        invariant options == FreshOptions(texts, minted)[..i]
      {
        options := options + [PollOption(minted[i], texts[i])];
      }
    }

    method Create(owner: UserId, input: CreateInput, minted: seq<OptionId>, now: Time, link: Link)
      returns (r: Result<Poll>)
      requires |minted| >= |Cleaned(input.options)|
      modifies db.polls
      ensures Same(db.State(), CreateStep(old(db.State()), owner, input, minted, now, lower, link))
      ensures r == CreateAnswer(old(db.State()), owner, input, minted, now, lower, link)
    {
      var ok, question, texts, expiresAt := CheckCreate(input, now);
      if !ok {
        return Err(Validation);
      }
      var options := MintOptions(texts, minted);
      r := db.polls.Create(Poll(0, owner, question, options, Active, expiresAt), link);
    }

    method GetOwned(owner: UserId, p: PollId, ok: bool) returns (r: Result<Poll>)
      ensures r == FindOwned(db.polls.docs, owner, p, ok)
    {
      var found := db.polls.FindByID(p, ok);
      if found.Err? {
        return found;
      }
      if found.value.owner != owner {
        return Err(Forbidden);
      }
      return found;
    }

    /** Labels onto option IDs, through a text-to-ID table and the set of IDs handed out. */
    method RebuildOptions(poll: Poll, texts: seq<string>, minted: seq<OptionId>) returns (options: seq<PollOption>)
      requires |minted| >= |texts|
      ensures options == RebuiltOptions(poll.options, texts, minted)
    {
      var existing: map<string, OptionId> := map[];
      for i := 0 to |poll.options|
        invariant forall t :: t in existing <==> ExistingId(poll.options[..i], t).Some?
        invariant forall t :: t in existing ==> ExistingId(poll.options[..i], t) == Some(existing[t])
      {
        assert poll.options[..i + 1][..i] == poll.options[..i];
        existing := existing[poll.options[i].text := poll.options[i].id];
      }
      assert poll.options[..|poll.options|] == poll.options;
      options := [];
      var used: set<OptionId> := {};
      for i := 0 to |texts|
        invariant options == RebuiltOptions(poll.options, texts[..i], minted)
        invariant forall id :: id in used <==> HasId(options, id)
      {
        assert texts[..i + 1][..i] == texts[..i];
        var id := if texts[i] in existing && existing[texts[i]] !in used then existing[texts[i]] else minted[i];
        ghost var before := options;
        used := used + {id};
        options := options + [PollOption(id, texts[i])];
        forall x ensures x in used <==> HasId(options, x) {
          if HasId(before, x) {
            var k :| 0 <= k < |before| && before[k].id == x;
            assert options[k].id == x;
          }
          assert options[|before|].id == id;
        }
      }
      assert texts[..|texts|] == texts;
    }

    method CheckUpdate(poll: Poll, input: UpdateInput, minted: seq<OptionId>, now: Time)
      returns (ok: bool, update: PollUpdate)
      requires |minted| >= |LabelsOf(input)|
      ensures ok <==> ValidUpdate(input, now, lower)
      ensures ok ==> update == EditOf(poll, input, minted)
    {
      var v := new Validator();
      update := PollUpdate(None, None, None, None, input.clearExpiry);
      if input.question.Some? {
        var question := v.Question("question", input.question.value);
        update := update.(question := Some(question));
      }
      if input.options.Some? {
        var texts := v.Options("options", input.options.value, lower);
        if v.fields == map[] {
          var options := RebuildOptions(poll, texts, minted);
          update := update.(options := Some(options));
        }
      }
      if input.expiresAt.Some? {
        var expiry := ValidateExpiry(v, input.expiresAt, now);
        update := update.(expiresAt := expiry);
      }
      ok := v.fields == map[];
    }

    method Update(owner: UserId, p: PollId, input: UpdateInput, minted: seq<OptionId>, now: Time, f: EditFaults)
      returns (r: Result<Poll>)
      requires |minted| >= |LabelsOf(input)|
      requires p in db.polls.docs ==> db.polls.docs[p].id == p
      modifies db.polls
      ensures Same(db.State(), UpdateStep(old(db.State()), owner, p, input, minted, now, lower, f))
      ensures r == UpdateResult(old(db.State()), owner, p, input, minted, now, lower, f)
    {
      var found := GetOwned(owner, p, f.find);
      if found.Err? {
        return found;
      }
      var poll := found.value;
      if input.question.Some? || input.options.Some? {
        var counted := db.votes.CountByPoll(poll.id, f.count);
        if counted.Err? {
          return Err(counted.code);
        }
        if counted.value > 0 {
          return Err(Conflict);
        }
      }
      var ok, update := CheckUpdate(poll, input, minted, now);
      if !ok {
        return Err(Validation);
      }
      if update.question.None? && update.options.None? && update.expiresAt.None? && !update.clearExpiry {
        return Err(Validation);
      }
      r := db.polls.Update(poll.id, owner, update, f.update);
    }

    method Close(owner: UserId, p: PollId, now: Time, find: bool, update: Link, f: ReadFaults, publish: bool)
      returns (r: Result<Poll>)
      requires Wired()
      requires p in db.polls.docs ==> db.polls.docs[p].id == p
      modifies db.polls, db.counters, db.outbox
      ensures Same(db.State(), CloseStep(old(db.State()), owner, p, now, find, update, f, publish))
      ensures r == CloseAnswer(old(db.State()), owner, p, find, update)
    {
      var found := GetOwned(owner, p, find);
      if found.Err? {
        return found;
      }
      if found.value.status == Closed {
        return found;
      }
      r := db.polls.Update(found.value.id, owner, CLOSING, update);
      if r.Err? {
        return;
      }
      var standing := results.ForPoll(r.value, f, now);
      if standing.Ok? {
        db.outbox.PublishResults(standing.value, publish);
      }
    }

    method Delete(owner: UserId, p: PollId, f: DeleteFaults) returns (r: Result<()>)
      requires p in db.polls.docs ==> db.polls.docs[p].id == p
      modifies db.polls, db.votes, db.counters
      ensures Same(db.State(), DeleteStep(old(db.State()), owner, p, f))
      ensures r == DeleteAnswer(old(db.State()), owner, p, f)
    {
      var found := GetOwned(owner, p, f.find);
      if found.Err? {
        return Err(found.code);
      }
      var poll := found.value;
      var removed := db.polls.Delete(poll.id, owner, f.remove);
      if removed.Err? {
        return removed;
      }
      var purged := db.votes.DeleteByPoll(poll.id, f.votes);
      if !purged {
        return Err(Internal);
      }
      var _ := db.counters.DeleteResults(poll.id, f.hash);
      return Ok(());
    }
  }
}
