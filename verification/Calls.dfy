/** The two stores and the outbox as one value, and what each service call makes of
    them when calls do not overlap (backend/internal/services/poll_service.go,
    vote_service.go; backend/internal/repositories/poll_repository.go). */
module Calls {
  import opened Common
  import opened Polls
  import opened Votes
  import opened Counters
  import opened ResultService
  import opened Validation

  const MAX_OPTION_ID_LENGTH := 64
  const MAX_POLL_LIFETIME: Time := 30 * 24 * 60 * 60 * 1000

  datatype World = World(
    polls: map<PollId, Poll>,
    votes: seq<Vote>,
    hashes: map<PollId, Hash>,
    published: seq<Results>,
    nextId: PollId)

  // ---- Poll documents ---------------------------------------------------------------

  /** A partial update; None means "leave unchanged". */
  datatype PollUpdate = PollUpdate(
    question: Option<string>,
    options: Option<seq<PollOption>>,
    status: Option<Status>,
    expiresAt: Option<Time>,
    clearExpiry: bool)

  function Updated(poll: Poll, u: PollUpdate): Poll {
    poll.(question := if u.question.Some? then u.question.value else poll.question,
          options := if u.options.Some? then u.options.value else poll.options,
          status := if u.status.Some? then u.status.value else poll.status,
          expiresAt := if u.clearExpiry then None else if u.expiresAt.Some? then u.expiresAt else poll.expiresAt)
  }

  /** Setting and unsetting one field in a single update is refused by the database. */
  predicate Conflicting(u: PollUpdate) {
    u.clearExpiry && u.expiresAt.Some?
  }

  predicate Owns(polls: map<PollId, Poll>, p: PollId, owner: UserId) {
    p in polls && polls[p].owner == owner
  }

  function AfterUpdate(polls: map<PollId, Poll>, p: PollId, owner: UserId, u: PollUpdate, link: Link)
    : map<PollId, Poll>
  {
    if Applied(link) && !Conflicting(u) && Owns(polls, p, owner) then polls[p := Updated(polls[p], u)] else polls
  }

  function UpdateAnswer(polls: map<PollId, Poll>, p: PollId, owner: UserId, u: PollUpdate, link: Link): Result<Poll> {
    if link != Up || Conflicting(u) then Err(Internal)
    else if !Owns(polls, p, owner) then Err(NotFound)
    else Ok(Updated(polls[p], u))
  }

  function Find(polls: map<PollId, Poll>, p: PollId, ok: bool): Result<Poll> {
    if !ok then Err(Internal) else if p !in polls then Err(NotFound) else Ok(polls[p])
  }

  function FindOwned(polls: map<PollId, Poll>, owner: UserId, p: PollId, ok: bool): Result<Poll> {
    var found := Find(polls, p, ok);
    if found.Ok? && found.value.owner != owner then Err(Forbidden) else found
  }

  // ---- Option edits --------------------------------------------------------------------

  /** The ID on record for a text; of two options with the same text, the later. */
  function ExistingId(options: seq<PollOption>, text: string): Option<OptionId> {
    if |options| == 0 then None
    else if options[|options| - 1].text == text then Some(options[|options| - 1].id)
    else ExistingId(options[..|options| - 1], text)
  }

  /** Labels onto options: a label keeps the ID on record for it unless an earlier
      label took that ID; otherwise it gets the ID minted for its place. */
  function RebuiltOptions(existing: seq<PollOption>, texts: seq<string>, minted: seq<OptionId>): (r: seq<PollOption>)
    requires |minted| >= |texts|
    ensures |r| == |texts|
  {
    if |texts| == 0 then []
    else
      var n := |texts| - 1;
      var earlier := RebuiltOptions(existing, texts[..n], minted);
      var known := ExistingId(existing, texts[n]);
      earlier + [PollOption(if known.None? || HasId(earlier, known.value) then minted[n] else known.value, texts[n])]
  }

  function FreshOptions(texts: seq<string>, minted: seq<OptionId>): (r: seq<PollOption>)
    requires |minted| >= |texts|
    ensures |r| == |texts| && forall i :: 0 <= i < |r| ==> r[i] == PollOption(minted[i], texts[i])
  {
    seq(|texts|, i requires 0 <= i < |texts| => PollOption(minted[i], texts[i]))
  }

  // ---- Requests ---------------------------------------------------------------------------

  datatype CreateInput = CreateInput(question: string, options: seq<string>, expiresAt: Option<Time>)

  datatype UpdateInput = UpdateInput(
    question: Option<string>,
    options: Option<seq<string>>,
    expiresAt: Option<Time>,
    clearExpiry: bool)

  function ExpiryProblem(expiry: Option<Time>, now: Time): Option<Problem> {
    if expiry.None? then None
    else if expiry.value <= now then Some(ExpiryNotInFuture)
    else if expiry.value > now + MAX_POLL_LIFETIME then Some(ExpiryTooFarAhead)
    else None
  }

  predicate ValidCreate(input: CreateInput, now: Time, lower: Folding) {
    && QuestionProblem(CleanText(input.question)).None?
    && OptionsProblem(Cleaned(input.options), lower).None?
    && ExpiryProblem(input.expiresAt, now).None?
  }

  predicate ValidUpdate(input: UpdateInput, now: Time, lower: Folding) {
    && (input.question.Some? ==> QuestionProblem(CleanText(input.question.value)).None?)
    && (input.options.Some? ==> OptionsProblem(Cleaned(input.options.value), lower).None?)
    && ExpiryProblem(input.expiresAt, now).None?
  }

  predicate EditsContent(input: UpdateInput) {
    input.question.Some? || input.options.Some?
  }

  /** The IDs minted for a request: enough of them, pairwise different, and none
      already used by the poll being edited. */
  ghost predicate FreshFor(minted: seq<OptionId>, wanted: nat, existing: seq<PollOption>) {
    && |minted| >= wanted
    && Distinct(minted)
    && forall i :: 0 <= i < |minted| ==> !HasId(existing, minted[i])
  }

  function LabelsOf(input: UpdateInput): seq<string> {
    if input.options.Some? then Cleaned(input.options.value) else []
  }

  function EditOf(poll: Poll, input: UpdateInput, minted: seq<OptionId>): PollUpdate
    requires |minted| >= |LabelsOf(input)|
  {
    PollUpdate(
      if input.question.Some? then Some(CleanText(input.question.value)) else None,
      if input.options.Some? then Some(RebuiltOptions(poll.options, LabelsOf(input), minted)) else None,
      None,
      input.expiresAt,
      input.clearExpiry)
  }

  // ---- Service calls ------------------------------------------------------------------------

  datatype CastFaults = CastFaults(
    find: bool,
    insert: Link,
    increment: Link,
    coldAggregate: bool,
    coldReplace: Link,
    read: ReadFaults,
    publish: bool)

  const NO_FAULTS := CastFaults(true, Up, Up, true, Up, ReadFaults(Up, true, Up), true)

  function CastRefusal(w: World, p: PollId, o: OptionId, voter: VoterId, now: Time, find: bool): Option<Code> {
    if voter == "" then Some(Internal)
    else if o == "" || |o| > MAX_OPTION_ID_LENGTH then Some(Validation)
    else
      var found := Find(w.polls, p, find);
      if found.Err? then Some(found.code)
      else if !HasId(found.value.options, o) then Some(Validation)
      else if !found.value.AcceptsVotes(now) then Some(PollClosed)
      else None
  }

  /** Whether a Cast puts its vote in the votes collection. */
  predicate Stores(w: World, p: PollId, o: OptionId, voter: VoterId, now: Time, f: CastFaults) {
    && CastRefusal(w, p, o, voter, now, f.find).None?
    && Applied(f.insert)
    && !HasVoted(w.votes, p, voter)
  }

  function InsertRefusal(w: World, p: PollId, voter: VoterId, insert: Link): Option<Code> {
    if insert != Up then Some(Internal) else if HasVoted(w.votes, p, voter) then Some(AlreadyVoted) else None
  }

  function WithVote(w: World, v: Vote): World {
    w.(votes := w.votes + [v])
  }

  function WithHash(w: World, p: PollId, h: Hash): World {
    w.(hashes := Put(w.hashes, p, h))
  }

  function WithPublished(w: World, r: Result<Results>, publish: bool): World {
    if r.Ok? && publish then w.(published := w.published + [r.value]) else w
  }

  /** The read every viewer makes. */
  function ForPollStep(w: World, poll: Poll, f: ReadFaults): World {
    WithHash(w, poll.id, AfterForPoll(w.votes, HashOf(w.hashes, poll.id), poll, f))
  }

  function ForPollResult(w: World, poll: Poll, f: ReadFaults, now: Time): Result<Results> {
    ForPollAnswer(w.votes, HashOf(w.hashes, poll.id), poll, f, now)
  }

  /** The cache maintenance of a stored vote. */
  function RecordStep(w: World, poll: Poll, o: OptionId, f: CastFaults): World {
    WithHash(w, poll.id, AfterRecordVote(w.votes, HashOf(w.hashes, poll.id), poll, o,
                                         f.increment, f.coldAggregate, f.coldReplace))
  }

  function CastStep(w: World, p: PollId, o: OptionId, voter: VoterId, now: Time, f: CastFaults): World {
    if CastRefusal(w, p, o, voter, now, f.find).Some? then w
    else
      var stored := if Stores(w, p, o, voter, now, f) then WithVote(w, Vote(p, o, voter)) else w;
      if InsertRefusal(w, p, voter, f.insert).Some? then stored
      else
        var recorded := RecordStep(stored, w.polls[p], o, f);
        WithPublished(ForPollStep(recorded, w.polls[p], f.read),
                      ForPollResult(recorded, w.polls[p], f.read, now), f.publish)
  }

  function CastAnswer(w: World, p: PollId, o: OptionId, voter: VoterId, now: Time, f: CastFaults): Result<Results> {
    var refused := CastRefusal(w, p, o, voter, now, f.find);
    if refused.Some? then Err(refused.value)
    else
      var failed := InsertRefusal(w, p, voter, f.insert);
      if failed.Some? then Err(failed.value)
      else ForPollResult(RecordStep(WithVote(w, Vote(p, o, voter)), w.polls[p], o, f), w.polls[p], f.read, now)
  }

  function ReadStep(w: World, p: PollId, find: bool, f: ReadFaults): World {
    var found := Find(w.polls, p, find);
    if found.Err? then w else ForPollStep(w, found.value, f)
  }

  function ReadAnswer(w: World, p: PollId, find: bool, f: ReadFaults, now: Time): Result<Results> {
    var found := Find(w.polls, p, find);
    if found.Err? then Err(found.code) else ForPollResult(w, found.value, f, now)
  }

  function NewPoll(w: World, owner: UserId, input: CreateInput, minted: seq<OptionId>): Poll
    requires |minted| >= |Cleaned(input.options)|
  {
    Poll(w.nextId, owner, CleanText(input.question), FreshOptions(Cleaned(input.options), minted), Active,
         input.expiresAt)
  }

  function CreateStep(w: World, owner: UserId, input: CreateInput, minted: seq<OptionId>,
                      now: Time, lower: Folding, link: Link): World
    requires |minted| >= |Cleaned(input.options)|
  {
    if !ValidCreate(input, now, lower) || !Applied(link) then w
    else w.(polls := w.polls[w.nextId := NewPoll(w, owner, input, minted)], nextId := w.nextId + 1)
  }

  function CreateAnswer(w: World, owner: UserId, input: CreateInput, minted: seq<OptionId>,
                        now: Time, lower: Folding, link: Link): Result<Poll>
    requires |minted| >= |Cleaned(input.options)|
  {
    if !ValidCreate(input, now, lower) then Err(Validation)
    else if link != Up then Err(Internal) else Ok(NewPoll(w, owner, input, minted))
  }

  datatype EditFaults = EditFaults(find: bool, count: bool, update: Link)

  function UpdateRefusal(w: World, owner: UserId, p: PollId, input: UpdateInput,
                         now: Time, lower: Folding, f: EditFaults): Option<Code>
  {
    var found := FindOwned(w.polls, owner, p, f.find);
    if found.Err? then Some(found.code)
    else if EditsContent(input) && !f.count then Some(Internal)
    else if EditsContent(input) && Count(w.votes, p) > 0 then Some(Conflict)
    else if !ValidUpdate(input, now, lower) then Some(Validation)
    else if !EditsContent(input) && input.expiresAt.None? && !input.clearExpiry then Some(Validation)
    else None
  }

  function UpdateStep(w: World, owner: UserId, p: PollId, input: UpdateInput, minted: seq<OptionId>,
                      now: Time, lower: Folding, f: EditFaults): World
    requires |minted| >= |LabelsOf(input)|
  {
    if UpdateRefusal(w, owner, p, input, now, lower, f).Some? then w
    else w.(polls := AfterUpdate(w.polls, p, owner, EditOf(w.polls[p], input, minted), f.update))
  }

  function UpdateResult(w: World, owner: UserId, p: PollId, input: UpdateInput, minted: seq<OptionId>,
                        now: Time, lower: Folding, f: EditFaults): Result<Poll>
    requires |minted| >= |LabelsOf(input)|
  {
    var refused := UpdateRefusal(w, owner, p, input, now, lower, f);
    if refused.Some? then Err(refused.value)
    else UpdateAnswer(w.polls, p, owner, EditOf(w.polls[p], input, minted), f.update)
  }

  const CLOSING := PollUpdate(None, None, Some(Closed), None, false)

  function CloseStep(w: World, owner: UserId, p: PollId, now: Time,
                     find: bool, update: Link, f: ReadFaults, publish: bool): World
  {
    var found := FindOwned(w.polls, owner, p, find);
    if found.Err? || found.value.status == Closed then w
    else
      var closed := w.(polls := AfterUpdate(w.polls, p, owner, CLOSING, update));
      var answer := UpdateAnswer(w.polls, p, owner, CLOSING, update);
      if answer.Err? then closed
      else WithPublished(ForPollStep(closed, answer.value, f), ForPollResult(closed, answer.value, f, now), publish)
  }

  function CloseAnswer(w: World, owner: UserId, p: PollId, find: bool, update: Link): Result<Poll> {
    var found := FindOwned(w.polls, owner, p, find);
    if found.Err? || found.value.status == Closed then found
    else UpdateAnswer(w.polls, p, owner, CLOSING, update)
  }

  // ---- Delete, one store at a time ---------------------------------------------------------

  function RemovePollStep(w: World, owner: UserId, p: PollId, find: bool, link: Link): World {
    if FindOwned(w.polls, owner, p, find).Err? || !Applied(link) then w else w.(polls := w.polls - {p})
  }

  function PurgeVotesStep(w: World, p: PollId, link: Link): World {
    if Applied(link) then w.(votes := Without(w.votes, p)) else w
  }

  function PurgeHashStep(w: World, p: PollId, link: Link): World {
    if Applied(link) then WithHash(w, p, map[]) else w
  }

  datatype DeleteFaults = DeleteFaults(find: bool, remove: Link, votes: Link, hash: Link)

  /** The poll goes first; each later step runs only when the one before reported success. */
  function DeleteStep(w: World, owner: UserId, p: PollId, f: DeleteFaults): World {
    var removed := RemovePollStep(w, owner, p, f.find, f.remove);
    if FindOwned(w.polls, owner, p, f.find).Err? || f.remove != Up then removed
    else
      var purged := PurgeVotesStep(removed, p, f.votes);
      if f.votes != Up then purged else PurgeHashStep(purged, p, f.hash)
  }

  function DeleteAnswer(w: World, owner: UserId, p: PollId, f: DeleteFaults): Result<()> {
    var found := FindOwned(w.polls, owner, p, f.find);
    if found.Err? then Err(found.code) else if f.remove != Up || f.votes != Up then Err(Internal) else Ok(())
  }
}
