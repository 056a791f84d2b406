/** Whole runs of non-overlapping calls: the cache refines the tally of the stored
    votes, content freezes at the first vote, closing is final, and a delete is safe
    wherever it stops. */
module Lifecycle {
  import opened Common
  import opened Polls
  import opened Votes
  import opened Counters
  import opened ResultService
  import opened Validation
  import opened Calls

  datatype Op =
    | Create(owner: UserId, create: CreateInput, minted: seq<OptionId>, now: Time, link: Link)
    | Cast(p: PollId, o: OptionId, voter: VoterId, now: Time, cast: CastFaults)
    | Read(p: PollId, find: bool, read: ReadFaults)
    | Rebuild(p: PollId, aggregate: bool, link: Link)
    | Edit(owner: UserId, p: PollId, update: UpdateInput, minted: seq<OptionId>, now: Time, edit: EditFaults)
    | Close(owner: UserId, p: PollId, now: Time, find: bool, link: Link, read: ReadFaults, publish: bool)
    // the three stores of a delete; a crash is a run without the later ones
    | RemovePoll(owner: UserId, p: PollId, find: bool, link: Link)
    | PurgeVotes(p: PollId, link: Link)
    | PurgeHash(p: PollId, link: Link)
    // what happens to Redis from outside
    | Expire(p: PollId)
    | Corrupt(p: PollId, h: Hash)

  /** What the environment promises: minted IDs are fresh, the later steps of a
      delete follow its first, and nothing but this application writes a hash of
      numbers. */
  ghost predicate Legal(w: World, op: Op) {
    match op
    case Create(_, input, minted, _, _) => FreshFor(minted, |Cleaned(input.options)|, [])
    case Edit(_, p, input, minted, _, _) =>
      FreshFor(minted, |LabelsOf(input)|, if p in w.polls then w.polls[p].options else [])
    case PurgeVotes(p, _) => p !in w.polls && p < w.nextId
    case PurgeHash(p, _) => p !in w.polls && p < w.nextId
    case Corrupt(p, h) => !Readable(h) && p < w.nextId
    case _ => true
  }

  ghost function Step(w: World, op: Op, lower: Folding): World
    requires Legal(w, op)
  {
    match op
    case Create(owner, input, minted, now, link) => CreateStep(w, owner, input, minted, now, lower, link)
    case Cast(p, o, voter, now, f) => CastStep(w, p, o, voter, now, f)
    case Read(p, find, f) => ReadStep(w, p, find, f)
    case Rebuild(p, aggregate, link) =>
      if p !in w.polls then w
      else WithHash(w, p, AfterRebuild(w.votes, HashOf(w.hashes, p), w.polls[p], aggregate, link))
    case Edit(owner, p, input, minted, now, f) => UpdateStep(w, owner, p, input, minted, now, lower, f)
    case Close(owner, p, now, find, link, f, publish) => CloseStep(w, owner, p, now, find, link, f, publish)
    case RemovePoll(owner, p, find, link) => RemovePollStep(w, owner, p, find, link)
    case PurgeVotes(p, link) => PurgeVotesStep(w, p, link)
    case PurgeHash(p, link) => PurgeHashStep(w, p, link)
    case Expire(p) => WithHash(w, p, map[])
    case Corrupt(p, h) => WithHash(w, p, h)
  }

  const EMPTY := World(map[], [], map[], [], 0)

  ghost predicate IsRun(ws: seq<World>, ops: seq<Op>, lower: Folding) {
    && |ws| == |ops| + 1
    && ws[0] == EMPTY
    && forall i {:trigger Legal(ws[i], ops[i])} :: 0 <= i < |ops| ==>
         Legal(ws[i], ops[i]) && ws[i + 1] == Step(ws[i], ops[i], lower)
  }

  // ---- Well-formedness: references, uniqueness, distinct options ----------------------------

  ghost predicate GoodOptions(options: seq<PollOption>) {
    MIN_OPTIONS <= |options| <= MAX_OPTIONS && Distinct(Ids(options)) && Distinct(Texts(options))
  }

  ghost predicate GoodPoll(w: World, p: PollId)
    requires p in w.polls
  {
    p < w.nextId && w.polls[p].id == p && GoodOptions(w.polls[p].options)
  }

  ghost predicate GoodVote(w: World, v: Vote) {
    v.poll < w.nextId && (v.poll in w.polls ==> HasId(w.polls[v.poll].options, v.option))
  }

  ghost predicate WellFormed(w: World) {
    && (forall p :: p in w.polls ==> GoodPoll(w, p))
    && (forall v :: v in w.votes ==> GoodVote(w, v))
    && Unique(w.votes)
    && (forall q :: q >= w.nextId ==> HashOf(w.hashes, q) == map[])
  }

  lemma ExistingIdIs(options: seq<PollOption>, text: string)
    ensures ExistingId(options, text).Some? ==>
      exists i :: 0 <= i < |options| && options[i] == PollOption(ExistingId(options, text).value, text)
    ensures ExistingId(options, text).None? ==> forall i :: 0 <= i < |options| ==> options[i].text != text
  {
    if |options| > 0 && options[|options| - 1].text != text {
      var front := options[..|options| - 1];
      ExistingIdIs(front, text);
      if ExistingId(front, text).Some? {
        var i :| 0 <= i < |front| && front[i] == PollOption(ExistingId(front, text).value, text);
        assert options[i] == front[i];
      }
    }
  }

  /** An edit returns the labels in order; a label already on the poll keeps its ID,
      every other gets a minted one. */
  lemma {:induction false} EditKeepsIdentity(existing: seq<PollOption>, texts: seq<string>, minted: seq<OptionId>)
    requires Distinct(Ids(existing)) && Distinct(Texts(existing)) && Distinct(texts)
    requires FreshFor(minted, |texts|, existing)
    ensures var r := RebuiltOptions(existing, texts, minted);
            && (forall i :: 0 <= i < |texts| ==> r[i].text == texts[i])
            && (forall i, j :: 0 <= i < |texts| && 0 <= j < |existing| && existing[j].text == texts[i]
                  ==> r[i].id == existing[j].id)
            && (forall i :: 0 <= i < |texts| && texts[i] !in Texts(existing) ==> r[i].id == minted[i])
  {
    if |texts| > 0 {
      var n := |texts| - 1;
      var earlier := RebuiltOptions(existing, texts[..n], minted);
      EditKeepsIdentity(existing, texts[..n], minted);
      var known := ExistingId(existing, texts[n]);
      ExistingIdIs(existing, texts[n]);
      if known.Some? {
        var j :| 0 <= j < |existing| && existing[j] == PollOption(known.value, texts[n]);
        OneIdPerText(existing, j);
        forall i | 0 <= i < n ensures earlier[i].id != known.value {
          assert texts[..n][i] == texts[i];
          if texts[i] in Texts(existing) {
            var k :| 0 <= k < |existing| && Texts(existing)[k] == texts[i];
            assert existing[k].text == texts[i];
          } else {
            assert HasId(existing, known.value) && earlier[i].id == minted[i];
          }
        }
        assert !HasId(earlier, known.value);
      }
    }
  }

  lemma OneIdPerText(options: seq<PollOption>, j: nat)
    requires j < |options| && Distinct(Ids(options)) && Distinct(Texts(options))
    ensures forall k :: 0 <= k < |options| && options[k].text == options[j].text ==> k == j
    ensures forall k :: 0 <= k < |options| && options[k].id == options[j].id ==> k == j
  {
    forall k | 0 <= k < |options| && k != j
      ensures options[k].text != options[j].text && options[k].id != options[j].id
    {
      assert Texts(options)[k] != Texts(options)[j] && Ids(options)[k] != Ids(options)[j];
    }
  }

  lemma EditGivesDistinctIds(existing: seq<PollOption>, texts: seq<string>, minted: seq<OptionId>)
    requires Distinct(Ids(existing)) && Distinct(Texts(existing)) && Distinct(texts)
    requires FreshFor(minted, |texts|, existing)
    ensures var r := RebuiltOptions(existing, texts, minted);
            Distinct(Ids(r)) && Texts(r) == texts
  {
    var r := RebuiltOptions(existing, texts, minted);
    EditKeepsIdentity(existing, texts, minted);
    forall i, j | 0 <= i < j < |texts| ensures r[i].id != r[j].id {
      if texts[i] in Texts(existing) {
        var k :| 0 <= k < |existing| && Texts(existing)[k] == texts[i];
        assert existing[k].text == texts[i];
        assert HasId(existing, r[i].id);
        if texts[j] in Texts(existing) {
          var m :| 0 <= m < |existing| && Texts(existing)[m] == texts[j];
          assert existing[m].text == texts[j] && k != m;
          assert Ids(existing)[k] != Ids(existing)[m];
        }
      } else if texts[j] in Texts(existing) {
        var m :| 0 <= m < |existing| && Texts(existing)[m] == texts[j];
        assert existing[m].text == texts[j];
        assert HasId(existing, r[j].id);
      }
    }
    assert Texts(r) == texts;
  }

  /** Reordering a poll's own labels reorders its options and nothing else: every
      option of the result is one the poll had, and the poll loses none. */
  lemma ReorderingKeepsOptions(existing: seq<PollOption>, texts: seq<string>, minted: seq<OptionId>)
    requires Distinct(Ids(existing)) && Distinct(Texts(existing)) && Distinct(texts)
    requires FreshFor(minted, |texts|, existing)
    requires forall t :: t in texts <==> t in Texts(existing)
    ensures var r := RebuiltOptions(existing, texts, minted);
            forall option :: option in r <==> option in existing
  {
    var r := RebuiltOptions(existing, texts, minted);
    EditKeepsIdentity(existing, texts, minted);
    forall option ensures option in r <==> option in existing {
      if option in r {
        var i :| 0 <= i < |r| && r[i] == option;
        assert texts[i] in texts;
        var k :| 0 <= k < |existing| && Texts(existing)[k] == texts[i];
        assert existing[k].text == texts[i] && existing[k] == option;
      }
      if option in existing {
        var k :| 0 <= k < |existing| && existing[k] == option;
        assert Texts(existing)[k] in texts;
        var i :| 0 <= i < |texts| && texts[i] == option.text;
        assert r[i] == option;
      }
    }
  }

  lemma AcceptedLabelsAreDistinct(values: seq<string>, lower: Folding)
    requires OptionsProblem(Cleaned(values), lower).None?
    ensures MIN_OPTIONS <= |Cleaned(values)| <= MAX_OPTIONS && Distinct(Cleaned(values))
  {
    OptionsAcceptedIff(values, lower);
  }

  lemma EditKeepsOptionsGood(poll: Poll, input: UpdateInput, minted: seq<OptionId>, now: Time, lower: Folding)
    requires GoodOptions(poll.options) && FreshFor(minted, |LabelsOf(input)|, poll.options)
    requires ValidUpdate(input, now, lower)
    ensures GoodOptions(Updated(poll, EditOf(poll, input, minted)).options)
  {
    if input.options.Some? {
      AcceptedLabelsAreDistinct(input.options.value, lower);
      EditGivesDistinctIds(poll.options, LabelsOf(input), minted);
    }
  }

  lemma NewOptionsAreGood(input: CreateInput, minted: seq<OptionId>, now: Time, lower: Folding)
    requires FreshFor(minted, |Cleaned(input.options)|, []) && ValidCreate(input, now, lower)
    ensures GoodOptions(FreshOptions(Cleaned(input.options), minted))
  {
    AcceptedLabelsAreDistinct(input.options, lower);
    var r := FreshOptions(Cleaned(input.options), minted);
    assert Texts(r) == Cleaned(input.options);
  }

  // ---- What one step may touch -----------------------------------------------------------------

  /** The poll a call is about. */
  function Subject(w: World, op: Op): PollId {
    if op.Create? then w.nextId else op.p
  }

  lemma StepVotes(w: World, op: Op, lower: Folding)
    requires Legal(w, op)
    ensures Step(w, op, lower).votes ==
      (match op
       case Cast(p, o, voter, now, f) =>
         if Stores(w, p, o, voter, now, f) then w.votes + [Vote(p, o, voter)] else w.votes
       case PurgeVotes(p, link) => if Applied(link) then Without(w.votes, p) else w.votes
       case _ => w.votes)
  {}

  lemma StepHash(w: World, op: Op, lower: Folding, q: PollId)
    requires Legal(w, op) && WellFormed(w) && q != Subject(w, op)
    ensures HashOf(Step(w, op, lower).hashes, q) == HashOf(w.hashes, q)
  {
    if !op.Create? && op.p in w.polls {
      assert GoodPoll(w, op.p);
    }
  }

  lemma StepDocument(w: World, op: Op, lower: Folding, q: PollId)
    requires Legal(w, op) && q != Subject(w, op)
    ensures q in Step(w, op, lower).polls <==> q in w.polls
    ensures q in w.polls ==> Step(w, op, lower).polls[q] == w.polls[q]
  {}

  /** Every call leaves every other poll, its votes and its counters alone. */
  lemma StepIsLocal(w: World, op: Op, lower: Folding, q: PollId)
    requires Legal(w, op) && WellFormed(w) && q != Subject(w, op)
    ensures var w' := Step(w, op, lower);
            && (q in w'.polls <==> q in w.polls)
            && (q in w.polls ==> w'.polls[q] == w.polls[q])
            && HashOf(w'.hashes, q) == HashOf(w.hashes, q)
            && (forall v: Vote :: v.poll == q ==> (v in w'.votes <==> v in w.votes))
            && (forall o :: Tally(w'.votes, q, o) == Tally(w.votes, q, o))
  {
    StepHash(w, op, lower, q);
    StepDocument(w, op, lower, q);
    StepVotes(w, op, lower);
    if op.Cast? {
      forall x { TallyAppend(w.votes, Vote(op.p, op.o, op.voter), q, x); }
    } else if op.PurgeVotes? {
      forall x { PurgeIsLocal(w.votes, op.p, q, x); }
    }
  }

  lemma StepNextId(w: World, op: Op, lower: Folding)
    requires Legal(w, op)
    ensures Step(w, op, lower).nextId ==
      if op.Create? && ValidCreate(op.create, op.now, lower) && Applied(op.link) then w.nextId + 1 else w.nextId
  {}

  /** What a call may do to the document of a poll that exists before and after. */
  lemma StepPoll(w: World, op: Op, lower: Folding, p: PollId)
    requires Legal(w, op) && p in w.polls && p != w.nextId
    requires p in Step(w, op, lower).polls
    ensures var poll, poll' := w.polls[p], Step(w, op, lower).polls[p];
            match op
            case Edit(owner, q, input, minted, now, f) =>
              || poll' == poll
              || (q == p && UpdateRefusal(w, owner, p, input, now, lower, f).None?
                  && poll' == Updated(poll, EditOf(poll, input, minted)))
            case Close(owner, q, now, find, link, f, publish) => poll' == poll || poll' == poll.(status := Closed)
            case _ => poll' == poll
  {}

  lemma StepKeepsPollGood(w: World, op: Op, lower: Folding, p: PollId)
    requires WellFormed(w) && Legal(w, op) && p in Step(w, op, lower).polls
    ensures GoodPoll(Step(w, op, lower), p)
  {
    StepNextId(w, op, lower);
    if p in w.polls {
      assert GoodPoll(w, p);
      StepPoll(w, op, lower, p);
      if op.Edit? && op.p == p && UpdateRefusal(w, op.owner, p, op.update, op.now, lower, op.edit).None? {
        EditKeepsOptionsGood(w.polls[p], op.update, op.minted, op.now, lower);
      }
    } else {
      assert op.Create?;
      NewOptionsAreGood(op.create, op.minted, op.now, lower);
    }
  }

  lemma UnbornHasNoHash(w: World, op: Op, lower: Folding, q: PollId)
    requires WellFormed(w) && Legal(w, op) && q >= Step(w, op, lower).nextId
    ensures HashOf(Step(w, op, lower).hashes, q) == map[]
  {
    StepNextId(w, op, lower);
    if q != Subject(w, op) {
      StepHash(w, op, lower, q);
    } else if q in w.polls {
      assert GoodPoll(w, q);
    }
  }

  /** Options change only while there are no votes, so an old vote keeps naming one. */
  lemma OldVoteStaysGood(w: World, op: Op, lower: Folding, v: Vote)
    requires WellFormed(w) && Legal(w, op) && v in w.votes
    ensures GoodVote(Step(w, op, lower), v)
  {
    StepNextId(w, op, lower);
    assert GoodVote(w, v);
    if v.poll in w.polls && v.poll in Step(w, op, lower).polls {
      StepPoll(w, op, lower, v.poll);
      CountPositiveIff(w.votes, v.poll);
      var i :| 0 <= i < |w.votes| && w.votes[i] == v;
      assert w.votes[i].poll == v.poll;
    }
  }

  /** Reference integrity: every vote of a live poll names one of its options. */
  lemma StepKeepsReferences(w: World, op: Op, lower: Folding, v: Vote)
    requires WellFormed(w) && Legal(w, op) && v in Step(w, op, lower).votes
    ensures GoodVote(Step(w, op, lower), v)
  {
    StepVotes(w, op, lower);
    if v in w.votes {
      OldVoteStaysGood(w, op, lower, v);
    } else {
      assert op.Cast? && v.poll in w.polls;
      assert GoodPoll(w, v.poll);
    }
  }

  lemma StepKeepsUnique(w: World, op: Op, lower: Folding)
    requires WellFormed(w) && Legal(w, op)
    ensures Unique(Step(w, op, lower).votes)
  {
    StepVotes(w, op, lower);
    if op.PurgeVotes? {
      PurgeKeepsUnique(w.votes, op.p);
    }
  }

  lemma StepKeepsWellFormed(w: World, op: Op, lower: Folding)
    requires WellFormed(w) && Legal(w, op)
    ensures WellFormed(Step(w, op, lower))
  {
    var w' := Step(w, op, lower);
    forall p | p in w'.polls ensures GoodPoll(w', p) {
      StepKeepsPollGood(w, op, lower, p);
    }
    forall v | v in w'.votes ensures GoodVote(w', v) {
      StepKeepsReferences(w, op, lower, v);
    }
    forall q | q >= w'.nextId ensures HashOf(w'.hashes, q) == map[] {
      UnbornHasNoHash(w, op, lower, q);
    }
    StepKeepsUnique(w, op, lower);
  }

  // ---- A smallest poll, for examples ---------------------------------------------------------

  const BEFORE := CreateInput("Why?", ["x", "y"], None)

  lemma ShortLabelsPass(a: string, b: string, lower: Folding)
    requires |a| == |b| == 1 && 'a' <= a[0] <= 'z' && 'a' <= b[0] <= 'z' && lower(a) != lower(b)
    ensures Cleaned([a, b]) == [a, b] && OptionsProblem([a, b], lower).None?
  {
    assert IsClean(a) && IsClean(b);
    CleanTextFixesExactlyTheClean(a);
    CleanTextFixesExactlyTheClean(b);
    CleanedTwice([a, b]);
    OptionsAcceptedIff([a, b], lower);
  }

  function FreshPoll(owner: UserId): World {
    World(map[0 := Poll(0, owner, "Why?", [PollOption("a", "x"), PollOption("b", "y")], Active, None)],
          [], map[], [], 1)
  }

  lemma BeforeIsValid(now: Time, lower: Folding)
    requires lower("x") != lower("y")
    ensures ValidCreate(BEFORE, now, lower) && Cleaned(BEFORE.options) == ["x", "y"]
    ensures CleanText(BEFORE.question) == "Why?"
  {
    ShortLabelsPass("x", "y", lower);
    assert CleanText("Why?") == "Why?" by {
      assert IsClean("Why?");
      CleanTextFixesExactlyTheClean("Why?");
    }
  }

  lemma FreshPollIsReached(owner: UserId, now: Time, lower: Folding)
    requires lower("x") != lower("y")
    ensures var create := Create(owner, BEFORE, ["a", "b"], now, Up);
            Legal(EMPTY, create) && Step(EMPTY, create, lower) == FreshPoll(owner)
  {
    BeforeIsValid(now, lower);
    assert FreshOptions(["x", "y"], ["a", "b"]) == [PollOption("a", "x"), PollOption("b", "y")];
  }

  lemma FreshPollIsWellFormed(owner: UserId, now: Time, lower: Folding)
    requires lower("x") != lower("y")
    ensures WellFormed(FreshPoll(owner))
  {
    FreshPollIsReached(owner, now, lower);
    StepKeepsWellFormed(EMPTY, Create(owner, BEFORE, ["a", "b"], now, Up), lower);
  }
}
