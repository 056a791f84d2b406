/** What each call answers and stores, said in terms of the request, the documents and the
    clock: who may do what when, what a standing shows, what an edit changes. */
module Outcomes {
  import opened Common
  import opened Polls
  import opened Votes
  import opened Counters
  import opened ResultService
  import opened Validation
  import opened Calls
  import opened Lifecycle
  import opened Exactness
  import opened Durability

  // ---- What a standing shows -----------------------------------------------------------------

  function Total(options: seq<OptionResult>): int {
    if |options| == 0 then 0 else Total(options[..|options| - 1]) + options[|options| - 1].count
  }

  /** A standing of a poll at an instant: its own ID, every option in order with its text,
      the sum of the counts shown, and "active" exactly while the poll takes votes. */
  ghost predicate Shows(r: Results, poll: Poll, now: Time) {
    && r.poll == poll.id && r.computedAt == now
    && |r.options| == |poll.options|
    && (forall i :: 0 <= i < |r.options| ==>
          r.options[i].id == poll.options[i].id && r.options[i].text == poll.options[i].text)
    && r.total == Total(r.options)
    && (r.status == Active <==> TakesVotesAt(poll, now))
  }

  lemma {:induction false} TotalIsSum(poll: Poll, counts: map<OptionId, int>, now: Time, n: nat)
    requires n <= |poll.options|
    ensures Total(StandingOf(poll, counts, now).options[..n]) == Sum(Ids(poll.options)[..n], o => Lookup(counts, o))
  {
    var shown, ids := StandingOf(poll, counts, now).options, Ids(poll.options);
    if n > 0 {
      TotalIsSum(poll, counts, now, n - 1);
      assert shown[..n][..n - 1] == shown[..n - 1] && ids[..n][..n - 1] == ids[..n - 1];
    }
  }

  lemma StandingShows(poll: Poll, counts: map<OptionId, int>, now: Time)
    ensures Shows(StandingOf(poll, counts, now), poll, now)
  {
    var r := StandingOf(poll, counts, now);
    TotalIsSum(poll, counts, now, |poll.options|);
    assert r.options[..|poll.options|] == r.options && Ids(poll.options)[..|poll.options|] == Ids(poll.options);
  }

  lemma AnswerShowsThePoll(votes: seq<Vote>, h: Hash, poll: Poll, f: ReadFaults, now: Time)
    ensures var answer := ForPollAnswer(votes, h, poll, f, now);
            answer.Ok? ==> Shows(answer.value, poll, now)
  {
    if ServedFromCache(h, f) {
      StandingShows(poll, FromHash(h), now);
    } else {
      StandingShows(poll, TallyMap(votes, poll), now);
    }
  }

  /** A read of a poll: not found, or failed, or a standing of that poll at that instant,
      with the status a voter would meet, whatever the stores do and wherever the counts
      come from. */
  lemma ReadOutcome(w: World, p: PollId, find: bool, f: ReadFaults, now: Time)
    ensures var answer := ReadAnswer(w, p, find, f, now);
            && (answer == Err(NotFound) <==> find && p !in w.polls)
            && (answer.Err? ==> answer.code == NotFound || answer.code == Internal)
            && (find && p in w.polls && f.aggregate ==> answer.Ok?)
            && (answer.Ok? ==> p in w.polls && Shows(answer.value, w.polls[p], now))
  {
    if find && p in w.polls {
      AnswerShowsThePoll(w.votes, HashOf(w.hashes, w.polls[p].id), w.polls[p], f, now);
    }
  }

  // ---- Cast ----------------------------------------------------------------------------------------

  /** A request to vote that names a voter and one of the poll's options. */
  ghost predicate Choice(w: World, p: PollId, o: OptionId, voter: VoterId) {
    && voter != "" && 0 < |o| <= 64 && p in w.polls
    && exists i :: 0 <= i < |w.polls[p].options| && w.polls[p].options[i].id == o
  }

  ghost predicate Voted(votes: seq<Vote>, p: PollId, voter: VoterId) {
    exists v :: v in votes && v.poll == p && v.voter == voter
  }

  lemma VotedIs(votes: seq<Vote>, p: PollId, voter: VoterId)
    ensures HasVoted(votes, p, voter) <==> Voted(votes, p, voter)
  {
    if HasVoted(votes, p, voter) {
      var i :| 0 <= i < |votes| && votes[i].poll == p && votes[i].voter == voter;
      assert votes[i] in votes;
    }
  }

  /** Who can vote.  With the stores working, a vote is taken if and only if it names a
      voter and an option of the poll, the poll takes votes at that instant, and the voter
      has none there yet; a valid choice on a poll that takes no votes is answered "poll
      closed", a second one "already voted", and neither leaves a trace. */
  lemma CastOutcome(w: World, p: PollId, o: OptionId, voter: VoterId, now: Time, f: CastFaults)
    requires f.find && f.insert == Up
    ensures var answer, w' := CastAnswer(w, p, o, voter, now, f), CastStep(w, p, o, voter, now, f);
            && (f.read.aggregate ==>
                  (answer.Ok? <==>
                     Choice(w, p, o, voter) && TakesVotesAt(w.polls[p], now) && !Voted(w.votes, p, voter)))
            && (answer == Err(PollClosed) <==> Choice(w, p, o, voter) && !TakesVotesAt(w.polls[p], now))
            && (answer == Err(AlreadyVoted) <==>
                  Choice(w, p, o, voter) && TakesVotesAt(w.polls[p], now) && Voted(w.votes, p, voter))
            && (answer.Err? && f.read.aggregate ==> w' == w)
            && (answer.Err? && answer.code != Internal ==> w' == w)
  {
    VotedIs(w.votes, p, voter);
  }

  /** The other refusals, whatever the stores do. */
  lemma CastRefusals(w: World, p: PollId, o: OptionId, voter: VoterId, now: Time, f: CastFaults)
    ensures var answer := CastAnswer(w, p, o, voter, now, f);
            && (voter == "" ==> answer == Err(Internal))
            && (voter != "" && (o == "" || |o| > 64) ==> answer == Err(Validation))
            && (voter != "" && 0 < |o| <= 64 && f.find && p !in w.polls ==> answer == Err(NotFound))
            && (voter != "" && 0 < |o| <= 64 && f.find && p in w.polls && !Choice(w, p, o, voter) ==>
                  answer == Err(Validation))
            && (f.find && Choice(w, p, o, voter) && !TakesVotesAt(w.polls[p], now) ==> answer == Err(PollClosed))
            && (!Choice(w, p, o, voter) || !TakesVotesAt(w.polls[p], now) ==>
                  answer.Err? && CastStep(w, p, o, voter, now, f) == w)
  {}

  /** A successful Cast stores exactly the vote asked for, and answers a standing of its
      poll. */
  lemma CastSuccess(w: World, p: PollId, o: OptionId, voter: VoterId, now: Time, f: CastFaults)
    requires CastAnswer(w, p, o, voter, now, f).Ok?
    ensures p in w.polls && TakesVotesAt(w.polls[p], now)
    ensures CastStep(w, p, o, voter, now, f).votes == w.votes + [Vote(p, o, voter)]
    ensures CastStep(w, p, o, voter, now, f).polls == w.polls
    ensures Shows(CastAnswer(w, p, o, voter, now, f).value, w.polls[p], now)
  {
    CastRefusals(w, p, o, voter, now, f);
    CastVotes(w, p, o, voter, now, f);
    CastChangesNothingIffNotStored(w, p, o, voter, now, f);
    var recorded := RecordStep(WithVote(w, Vote(p, o, voter)), w.polls[p], o, f);
    AnswerShowsThePoll(recorded.votes, HashOf(recorded.hashes, w.polls[p].id), w.polls[p], f.read, now);
  }

  // ---- Create ----------------------------------------------------------------------------------------

  const THIRTY_DAYS: Time := 2592000000

  ghost predicate ExpiryInRange(expiry: Option<Time>, now: Time) {
    forall end :: expiry == Some(end) ==> now < end <= now + THIRTY_DAYS
  }

  lemma ExpiryAcceptedIff(expiry: Option<Time>, now: Time)
    ensures ExpiryProblem(expiry, now).None? <==> ExpiryInRange(expiry, now)
    ensures ExpiryProblem(expiry, now) == Some(ExpiryNotInFuture) <==> expiry.Some? && expiry.value <= now
  {}

  ghost predicate GoodQuestion(question: string) {
    3 <= |CleanText(question)| <= 300
  }

  ghost predicate GoodRequest(input: CreateInput, now: Time, lower: Folding) {
    && GoodQuestion(input.question) && AcceptableLabels(Cleaned(input.options), lower)
    && ExpiryInRange(input.expiresAt, now)
  }

  lemma ValidCreateIff(input: CreateInput, now: Time, lower: Folding)
    ensures ValidCreate(input, now, lower) <==> GoodRequest(input, now, lower)
  {
    QuestionAcceptedIff(input.question);
    OptionsAcceptedIff(input.options, lower);
    ExpiryAcceptedIff(input.expiresAt, now);
  }

  /** The poll a request describes, under the ID and owner it was given. */
  ghost predicate AsRequested(poll: Poll, id: PollId, owner: UserId, input: CreateInput, minted: seq<OptionId>) {
    && poll.id == id && poll.owner == owner && poll.question == CleanText(input.question)
    && Texts(poll.options) == Cleaned(input.options) && Ids(poll.options) <= minted
    && poll.status == Active && poll.expiresAt == input.expiresAt
  }

  /** Creating a poll: the request is refused if and only if it breaks a rule; otherwise the
      one new document is the poll as requested, open until the expiry asked for, and that
      is the answer. */
  lemma CreateOutcome(w: World, owner: UserId, input: CreateInput, minted: seq<OptionId>,
                      now: Time, lower: Folding, link: Link)
    requires |minted| >= |Cleaned(input.options)|
    ensures var answer := CreateAnswer(w, owner, input, minted, now, lower, link);
            var w' := CreateStep(w, owner, input, minted, now, lower, link);
            && (answer == Err(Validation) <==> !GoodRequest(input, now, lower))
            && (answer.Ok? <==> GoodRequest(input, now, lower) && link == Up)
            && (if GoodRequest(input, now, lower) && link != Down then
                  && w'.polls.Keys == w.polls.Keys + {w.nextId} && w'.nextId == w.nextId + 1
                  && (forall q :: q in w.polls && q != w.nextId ==> w'.polls[q] == w.polls[q])
                  && AsRequested(w'.polls[w.nextId], w.nextId, owner, input, minted)
                  && w' == w.(polls := w'.polls, nextId := w'.nextId)
                  && (answer.Ok? ==> answer.value == w'.polls[w.nextId])
                else w' == w)
  {
    ValidCreateIff(input, now, lower);
    var options := FreshOptions(Cleaned(input.options), minted);
    assert Texts(options) == Cleaned(input.options) && Ids(options) == minted[..|options|];
  }

  // ---- Edit --------------------------------------------------------------------------------------------

  ghost predicate MayManage(w: World, owner: UserId, p: PollId) {
    p in w.polls && w.polls[p].owner == owner
  }

  ghost predicate GoodEdit(input: UpdateInput, now: Time, lower: Folding) {
    && (forall q :: input.question == Some(q) ==> GoodQuestion(q))
    && (forall labels :: input.options == Some(labels) ==> AcceptableLabels(Cleaned(labels), lower))
    && ExpiryInRange(input.expiresAt, now)
    && (input.question != None || input.options != None || input.expiresAt != None || input.clearExpiry)
  }

  ghost predicate TouchesContent(input: UpdateInput) {
    input.question != None || input.options != None
  }

  ghost predicate HasVotes(votes: seq<Vote>, p: PollId) {
    exists v :: v in votes && v.poll == p
  }

  lemma HasVotesIs(votes: seq<Vote>, p: PollId)
    ensures Count(votes, p) > 0 <==> HasVotes(votes, p)
  {
    CountPositiveIff(votes, p);
    if Count(votes, p) > 0 {
      var i :| 0 <= i < |votes| && votes[i].poll == p;
      assert votes[i] in votes;
    }
  }

  lemma GoodEditIff(input: UpdateInput, now: Time, lower: Folding)
    ensures ValidUpdate(input, now, lower) && (EditsContent(input) || input.expiresAt.Some? || input.clearExpiry)
       <==> GoodEdit(input, now, lower)
  {
    ExpiryAcceptedIff(input.expiresAt, now);
    if input.question.Some? {
      QuestionAcceptedIff(input.question.value);
    }
    if input.options.Some? {
      OptionsAcceptedIff(input.options.value, lower);
    }
  }

  /** Who can edit what when, with the stores working: only the owner, content only while
      there are no votes, only by the rules, and not with an expiry both set and removed. */
  lemma EditOutcome(w: World, owner: UserId, p: PollId, input: UpdateInput, minted: seq<OptionId>,
                    now: Time, lower: Folding, f: EditFaults)
    requires |minted| >= |LabelsOf(input)| && f.find && f.count && f.update == Up
    ensures var answer := UpdateResult(w, owner, p, input, minted, now, lower, f);
            && (answer == Err(NotFound) <==> p !in w.polls)
            && (answer == Err(Forbidden) <==> p in w.polls && w.polls[p].owner != owner)
            && (answer == Err(Conflict) <==> MayManage(w, owner, p) && TouchesContent(input) && HasVotes(w.votes, p))
            && (answer.Ok? <==>
                  && MayManage(w, owner, p) && !(TouchesContent(input) && HasVotes(w.votes, p))
                  && GoodEdit(input, now, lower) && !(input.clearExpiry && input.expiresAt != None))
            && (answer.Err? ==> UpdateStep(w, owner, p, input, minted, now, lower, f) == w)
  {
    HasVotesIs(w.votes, p);
    GoodEditIff(input, now, lower);
  }

  /** An edit whose stores fail: a poll that cannot be looked up, votes that cannot be
      counted when content is touched, and an update that is not acknowledged are each an
      internal error, and only the last can have changed anything. */
  lemma EditFailures(w: World, owner: UserId, p: PollId, input: UpdateInput, minted: seq<OptionId>,
                     now: Time, lower: Folding, f: EditFaults)
    requires |minted| >= |LabelsOf(input)|
    ensures var answer := UpdateResult(w, owner, p, input, minted, now, lower, f);
            var w' := UpdateStep(w, owner, p, input, minted, now, lower, f);
            && (!f.find ==> answer == Err(Internal) && w' == w)
            && (f.find && MayManage(w, owner, p) && TouchesContent(input) && !f.count ==>
                  answer == Err(Internal) && w' == w)
            && (f.update != Up ==> answer.Err?)
            && (f.update == Down ==> w' == w)
  {}

  lemma {:induction false} RebuiltKeepsLabels(existing: seq<PollOption>, texts: seq<string>, minted: seq<OptionId>)
    requires |minted| >= |texts|
    ensures Texts(RebuiltOptions(existing, texts, minted)) == texts
  {
    if |texts| > 0 {
      var n := |texts| - 1;
      var earlier := RebuiltOptions(existing, texts[..n], minted);
      RebuiltKeepsLabels(existing, texts[..n], minted);
      assert forall i :: 0 <= i < n ==> Texts(earlier)[i] == texts[i];
      assert texts == texts[..n] + [texts[n]];
    }
  }

  /** What an edit asked for of each field, and nothing else. */
  ghost predicate EditedAs(before: Poll, after: Poll, input: UpdateInput) {
    && after.id == before.id && after.owner == before.owner && after.status == before.status
    && after.question == (match input.question case Some(q) => CleanText(q) case None => before.question)
    && (match input.options
        case Some(labels) => Texts(after.options) == Cleaned(labels)
        case None => after.options == before.options)
    && after.expiresAt == (if input.clearExpiry then None
                           else if input.expiresAt != None then input.expiresAt else before.expiresAt)
  }

  /** A successful edit answers the stored poll, in which every field is what was asked for
      or what it was; no other document, vote, counter or announcement changes. */
  lemma EditSuccess(w: World, owner: UserId, p: PollId, input: UpdateInput, minted: seq<OptionId>,
                    now: Time, lower: Folding, f: EditFaults)
    requires |minted| >= |LabelsOf(input)|
    requires UpdateResult(w, owner, p, input, minted, now, lower, f).Ok?
    ensures var w' := UpdateStep(w, owner, p, input, minted, now, lower, f);
            && p in w.polls && w'.polls.Keys == w.polls.Keys
            && UpdateResult(w, owner, p, input, minted, now, lower, f).value == w'.polls[p]
            && EditedAs(w.polls[p], w'.polls[p], input)
            && (forall q :: q in w.polls && q != p ==> w'.polls[q] == w.polls[q])
            && w' == w.(polls := w'.polls)
  {
    if input.options.Some? {
      RebuiltKeepsLabels(w.polls[p].options, LabelsOf(input), minted);
    }
  }

  /** The collection's own filter: an update that does not come from the owner of the poll
      changes no document and reports no success. */
  lemma OnlyTheOwnersUpdateMatches(polls: map<PollId, Poll>, p: PollId, owner: UserId, u: PollUpdate, link: Link)
    ensures UpdateAnswer(polls, p, owner, u, link).Ok? ==> p in polls && polls[p].owner == owner
    ensures AfterUpdate(polls, p, owner, u, link) != polls ==> p in polls && polls[p].owner == owner
    ensures link == Up && !(u.clearExpiry && u.expiresAt != None) ==>
              (UpdateAnswer(polls, p, owner, u, link) == Err(NotFound) <==> !(p in polls && polls[p].owner == owner))
  {}

  // ---- Close ---------------------------------------------------------------------------------------------

  /** Closing: only the owner can, the stored poll is then closed and otherwise what it was,
      and closing it again answers the same and changes nothing. */
  lemma CloseOutcome(w: World, owner: UserId, p: PollId, now: Time, find: bool, link: Link, f: ReadFaults,
                     publish: bool)
    requires find
    ensures var answer := CloseAnswer(w, owner, p, find, link);
            var w' := CloseStep(w, owner, p, now, find, link, f, publish);
            && (answer == Err(NotFound) <==> p !in w.polls)
            && (answer == Err(Forbidden) <==> p in w.polls && w.polls[p].owner != owner)
            && (answer.Ok? <==> MayManage(w, owner, p) && (w.polls[p].status == Closed || link == Up))
            && (answer.Ok? ==> p in w'.polls && answer.value == w'.polls[p] && ClosedFrom(w.polls[p], w'.polls[p]))
            && (answer.Ok? && w.polls[p].status == Closed ==> w' == w)
            && (!MayManage(w, owner, p) ==> w' == w)
            && w'.votes == w.votes && w'.polls.Keys == w.polls.Keys
            && forall q :: q in w.polls && q != p ==> w'.polls[q] == w.polls[q]
  {}

  ghost predicate ClosedFrom(before: Poll, after: Poll) {
    && after.status == Closed
    && after.id == before.id && after.owner == before.owner && after.question == before.question
    && after.options == before.options && after.expiresAt == before.expiresAt
  }

  /** The first successful close of a poll announces it once, as closed, unless both stores
      fail the read or publishing fails. */
  lemma CloseAnnounces(w: World, owner: UserId, p: PollId, now: Time, find: bool, link: Link, f: ReadFaults,
                       publish: bool)
    requires find && MayManage(w, owner, p) && w.polls[p].status == Active && link == Up
    ensures var w' := CloseStep(w, owner, p, now, find, link, f, publish);
            if publish && (f.aggregate || ServedFromCache(HashOf(w.hashes, w.polls[p].id), f)) then
              && |w'.published| == |w.published| + 1 && w.published <= w'.published
              && Shows(w'.published[|w.published|], w'.polls[p], now) && w'.published[|w.published|].status == Closed
            else w'.published == w.published
  {
    AnswerShowsThePoll(w.votes, HashOf(w.hashes, w.polls[p].id), w.polls[p].(status := Closed), f, now);
  }

  // ---- Delete ----------------------------------------------------------------------------------------------

  /** Deleting: only the owner can; it is reported done exactly when the poll's and the
      votes' stores both answered, whatever Redis says; a refused one changes nothing, and
      once the first store has carried it out the poll is gone. */
  lemma DeleteOutcome(w: World, owner: UserId, p: PollId, f: DeleteFaults)
    requires f.find
    ensures var answer, w' := DeleteAnswer(w, owner, p, f), DeleteStep(w, owner, p, f);
            && (answer == Err(NotFound) <==> p !in w.polls)
            && (answer == Err(Forbidden) <==> p in w.polls && w.polls[p].owner != owner)
            && (answer.Ok? <==> MayManage(w, owner, p) && f.remove == Up && f.votes == Up)
            && (!MayManage(w, owner, p) || f.remove == Down ==> w' == w)
            && (MayManage(w, owner, p) && f.remove != Down ==> w'.polls == w.polls - {p})
            && w'.published == w.published && w'.nextId == w.nextId
  {}

  // ---- Announcements ---------------------------------------------------------------------------------------

  /** Whatever a step of a run announces is a standing of the poll it is about, at that
      instant, with the status that poll then has; after a close, closed. */
  ghost predicate AnnouncesShown(w: World, w': World, op: Op)
    requires op.Cast? || op.Close?
  {
    && op.p in w'.polls && |w'.published| == |w.published| + 1 && w.published <= w'.published
    && Shows(w'.published[|w.published|], w'.polls[op.p], op.now)
    && (op.Close? ==> w'.published[|w.published|].status == Closed)
  }

  lemma StepAnnouncesShown(w: World, op: Op, lower: Folding)
    requires WellFormed(w) && Legal(w, op)
    ensures var w' := Step(w, op, lower);
            w'.published == w.published || ((op.Cast? || op.Close?) && AnnouncesShown(w, w', op))
  {
    if op.Cast? {
      CastPublishes(w, op.p, op.o, op.voter, op.now, op.cast);
      if CastAnswer(w, op.p, op.o, op.voter, op.now, op.cast).Ok? {
        CastSuccess(w, op.p, op.o, op.voter, op.now, op.cast);
      }
    } else if op.Close? && CloseReads(w, op.owner, op.p, op.find, op.link) {
      CloseAnnounces(w, op.owner, op.p, op.now, op.find, op.link, op.read, op.publish);
    }
  }

  lemma AnnouncementsShowTheStatus(ws: seq<World>, ops: seq<Op>, lower: Folding, i: nat)
    requires IsRun(ws, ops, lower) && i < |ops|
    ensures || ws[i + 1].published == ws[i].published
            || ((ops[i].Cast? || ops[i].Close?) && AnnouncesShown(ws[i], ws[i + 1], ops[i]))
  {
    RunInvariants(ws, ops, lower, i);
    assert Legal(ws[i], ops[i]);
    StepAnnouncesShown(ws[i], ops[i], lower);
  }

  // ---- What stays done -----------------------------------------------------------------------------------------

  /** A poll created with success is in the collection from the next point of the run on,
      as requested. */
  lemma CreatedPollsAppear(ws: seq<World>, ops: seq<Op>, lower: Folding, i: nat)
    requires IsRun(ws, ops, lower) && i < |ops| && ops[i].Create? && Legal(ws[i], ops[i])
    requires CreateAnswer(ws[i], ops[i].owner, ops[i].create, ops[i].minted, ops[i].now, lower, ops[i].link).Ok?
    ensures ws[i].nextId in ws[i + 1].polls
    ensures AsRequested(ws[i + 1].polls[ws[i].nextId], ws[i].nextId, ops[i].owner, ops[i].create, ops[i].minted)
  {
    CreateOutcome(ws[i], ops[i].owner, ops[i].create, ops[i].minted, ops[i].now, lower, ops[i].link);
  }

  /** A successful edit is what the next point of the run holds. */
  lemma EditsAreStored(ws: seq<World>, ops: seq<Op>, lower: Folding, i: nat)
    requires IsRun(ws, ops, lower) && i < |ops| && ops[i].Edit? && Legal(ws[i], ops[i])
    requires |ops[i].minted| >= |LabelsOf(ops[i].update)|
    requires UpdateResult(ws[i], ops[i].owner, ops[i].p, ops[i].update, ops[i].minted, ops[i].now, lower,
                          ops[i].edit).Ok?
    ensures ops[i].p in ws[i].polls && ops[i].p in ws[i + 1].polls
    ensures EditedAs(ws[i].polls[ops[i].p], ws[i + 1].polls[ops[i].p], ops[i].update)
  {
    EditSuccess(ws[i], ops[i].owner, ops[i].p, ops[i].update, ops[i].minted, ops[i].now, lower, ops[i].edit);
  }

  lemma CloseIsStored(ws: seq<World>, ops: seq<Op>, lower: Folding, i: nat)
    requires IsRun(ws, ops, lower) && i < |ops| && ops[i].Close?
    requires ops[i].find && CloseAnswer(ws[i], ops[i].owner, ops[i].p, ops[i].find, ops[i].link).Ok?
    ensures ops[i].p in ws[i + 1].polls && ws[i + 1].polls[ops[i].p].status == Closed
  {
    var op := ops[i];
    assert Legal(ws[i], ops[i]);
    CloseOutcome(ws[i], op.owner, op.p, op.now, op.find, op.link, op.read, op.publish);
  }

  /** Once a close has succeeded, no Cast on the poll succeeds at any later point of any
      run, at any instant and by any voter, and every read shows the poll closed. */
  lemma ClosedForGood(ws: seq<World>, ops: seq<Op>, lower: Folding, i: nat, j: nat,
                      o: OptionId, voter: VoterId, now: Time, f: CastFaults)
    requires IsRun(ws, ops, lower) && i < j <= |ops| && ops[i].Close? && ops[i].p in ws[j].polls
    requires ops[i].find && CloseAnswer(ws[i], ops[i].owner, ops[i].p, ops[i].find, ops[i].link).Ok?
    ensures CastAnswer(ws[j], ops[i].p, o, voter, now, f).Err?
    ensures CastStep(ws[j], ops[i].p, o, voter, now, f) == ws[j]
    ensures var answer := ReadAnswer(ws[j], ops[i].p, true, f.read, now);
            answer.Ok? ==> answer.value.status == Closed
  {
    CloseIsStored(ws, ops, lower, i);
    KeptForGood(ws, ops, lower, ops[i].p, i + 1, j);
    CastRefusals(ws[j], ops[i].p, o, voter, now, f);
    ReadOutcome(ws[j], ops[i].p, true, f.read, now);
  }
}
