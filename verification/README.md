# Verified model of a live-polling service

Dafny 4.11 model and proofs for Pulse, a live-polling application with a Go
backend and a React front end. Votes are documents in MongoDB; a Redis hash per
poll caches the per-option counts; new standings travel over Redis Pub/Sub and a
WebSocket hub to the viewers' browsers. The project states what that design
promises and proves how far the code keeps it.

Run `dafny verify dfyconfig.toml` in this directory.

## How it is built

| file | contents |
|---|---|
| `Common`, `Polls`, `Votes`, `Counters`, `Events` | the documents, the votes collection, the counter hash with its increment script, the event |
| `ResultService`, `Calls`, `Services` | reading a standing through the cache; what each call makes of the stores, as functions; the services as objects proved against those functions |
| `Lifecycle`, `Exactness`, `Shortfall`, `Durability` | whole runs of calls that do not overlap: references, cache exactness and exactly how far it falls short, freeze, closing, delete |
| `Outcomes` | what each call answers and stores, in terms of the request, the documents and the clock |
| `Concurrent`, `Drift`, `Alone` | one poll under overlapping calls: the invariants, the exact drift, its bounds and when there is none; one call at a time, the two models agree |
| `Hub`, `HubObjects`, `Channels`, `Pipeline` | the hub's state machine and its objects, channel names, the lossy path from publication to viewer |
| `EndToEnd` | stored votes to screen: what reaches a viewer is true, in order, never shrinks, and catches up |
| `RateLimit`, `Reconnect`, `ViewMerge`, `Validation` | the rate limiter, the browser's socket, merging events into a view, text rules |

A call to a remote store is given a `Link`: it works, it never arrives, or it is
carried out and only the reply is lost. A method of a service object takes the
links of its store calls, the clock and the minted IDs as parameters, and its
postcondition equates the new stores with a function of the old ones (equality up
to the fact that Redis does not distinguish an empty hash from a missing key). The
theorems over runs are about those functions. Poll IDs are numbers minted in
order; option, voter and key names are strings.

## Where the code and its own comments part

- `result_service.go:75` ("nothing here can return a wrong number") and `:100`
  ("can never make the numbers worse"). For calls that do not overlap a rebuild only
  repairs (`Exactness.DriftIsOnlyDownwardAndRepairable`), and an answer is right iff it
  goes through MongoDB or every increment lost for its poll was followed by something
  that rewrote or dropped the hash (`Shortfall.SerialRefinement`). Both fail under overlap:
  `Drift.CountedTwice` and `Drift.RebuildMakesItWorse` are schedules in which one
  vote is counted twice and in which an old snapshot erases an exact count. Exactly
  when: a rebuild's write leaves an option's counter exact iff no vote for it was
  stored since the rebuild aggregated (`Drift.RebuildWritesTheTruthIff`). As long as that
  write stays in force (no later rewrite, expiry or corruption of the hash) and no
  increment is lost, once none is pending the counter is exact iff, at the write, the
  votes for the option that were in the snapshot and pending were as many as those that
  were in neither (`Drift.SettledCounterExactIff`, which also gives the difference). The
  drift at every moment is `Drift.DriftIdentity`, its limits `Drift.DriftBounds`.
- `docs/realtime.md:21-24` says that after a crash between the insert and the increment
  the counters are rebuilt on the next read. They are when the hash is cold. A warm hash
  serves that read and all later ones: each counter stays short by exactly the
  increments lost (`Shortfall.ShortIsOwed`, `Shortfall.AnswersFallShortByOwed`) until a
  reset, and is exact iff every loss has been followed by one
  (`Shortfall.ExactIffMended`). A reset is a carried-out rebuild, the expiry or
  corruption of the key, or a call whose final read of the counters fails and whose
  rebuild then succeeds (`Resets`). `Shortfall.NextReadMissesAVote` is a run in which the
  next read shows one vote of two.
- `validation.go:69-71` and `docs/api.md:177-178` say that zero-width characters are
  stripped, so that a question cannot be made of invisible characters and one option
  cannot impersonate another. The code drops control characters, U+FEFF and U+200B only:
  three U+2060 are an accepted question, and "y" and "y" with U+200D after it are two
  accepted options (`Validation.UnseenCharactersPass`). Exactly the dropped characters
  make no difference to a label (`Validation.DroppedIffNoDifference`), and a text is
  blank iff it has nothing but those and spaces (`Validation.BlankIff`).
- `client.go:85-87` says closing a client's channel cannot race with a send. The
  upgrade handler sends its snapshot from outside the hub, after the pumps have
  started, so it can find the channel closed (`Hub.SnapshotCanComeTooLate`). The send is
  safe iff since registration the client was not unregistered, the hub was not shut
  down and no broadcast of its poll found its buffer full (`Hub.SnapshotIsSafeIff`).
- `subscriber.go:15-16` says the oldest messages are dropped; the code drops the
  newest (`Pipeline.Subscribe`).
- `rate_limit.go:29-30` allows for twice the limit across a window's edge. A window
  opens with a hit, so a stretch one window long holds at most 2·limit − 1
  (`RateLimit.RateBound`, reached in `RateLimit.RateBoundIsTight`).
- Closing is final, an expiry is not: a poll that takes no votes takes them again by one
  call only, an edit by its owner that nothing refuses, of a poll nobody closed, which
  removes the expiry or moves it far enough (`Durability.PollReopensIff`).
- An edit counts votes and then writes. A vote checked before the write and stored after
  the count, on either side of the write, keeps a valid option iff
  the request leaves the options alone, lists the voted option's label or is not carried
  out (`Durability.EditRacingACast`); `Durability.RacedEditOrphansAVote` is a state and a
  request for which the vote is orphaned.
- `subscriber.go:87` slices out of range on the one name `poll:updates`, which the
  subscribed pattern never delivers (`Channels.OnlyTheOverlapFails`).

## Model

| member | source | states |
|---|---|---|
| `Shortfall.SerialRefinement` | backend/internal/services/result_service.go:80-129 | after any run of non-overlapping calls, flushes, expiries, junk hashes and store failures, a read of a live poll is the tally of the stored votes in declared option order, with the number of vote documents as total, iff it goes through MongoDB or every increment lost for this poll was followed by a reset |
| `Shortfall.AnswersFallShortByOwed` | backend/internal/services/result_service.go:80-129 | after any run a read answers each option in declared order with its tally less, if the cache serves it, the increments lost since the last reset; it fails only if cache and aggregation both do |
| `Shortfall.ShortIsOwed` | backend/internal/services/vote_service.go:98-107 | at every point of every run each counter of a readable hash falls short of its tally by exactly the increments lost since the hash was last reset |
| `Shortfall.ExactIffMended` | backend/internal/services/result_service.go:94-101 | at every point of every run a poll's cache is exact iff every increment lost for it was followed by a reset |
| `Shortfall.StepShort` | backend/internal/services/vote_service.go:98-119 | one call resets the shortfall of a counter, raises it by the one increment it loses, or leaves it |
| `Shortfall.NextReadMissesAVote` | docs/realtime.md:21-24 | a run of a new poll, a faultless vote and a vote whose insert reply is lost, after which a faultless read shows one vote of two |
| `Exactness.AnswerIsTrueIff` | backend/internal/services/result_service.go:80-92 | a read that finds counters not above the tallies answers the truth iff the hash it was served from agrees, or it was not served from one and the aggregation works |
| `Exactness.DriftIsOnlyDownwardAndRepairable` | backend/internal/services/result_service.go:94-129 | in every run, lost increments included: no readable counter exceeds the truth, answers through MongoDB are exact, one carried-out rebuild makes the poll exact and its hash readable |
| `Exactness.CastKeepsExactIff` | backend/internal/services/vote_service.go:98-119 | one Cast: an exact poll stays exact iff the Cast does not miss its increment on a readable hash without also rebuilding it |
| `Exactness.RunInvariants` | backend/internal/services/result_service.go:68-79 | well-formedness and never-too-high hold at every point of every run, exactness at every point before the first lost increment |
| `Exactness.RebuildIsExact` | backend/internal/services/result_service.go:102-129 | whatever the hash held, a carried-out rebuild agrees with the votes for every option ID there could be, and is readable if the poll has options |
| `Exactness.RecordKeepsAgrees` | backend/internal/services/result_service.go:131-155 | counting a stored vote keeps an exact hash exact if the increment arrived or the hash was unreadable |
| `Exactness.RecordKeepsUnder` | backend/internal/services/result_service.go:131-155 | counting a stored vote never makes a counter too high |
| `Exactness.ColdVoteWritesTheWholeTally` | backend/internal/redis/counters.go:22-31 | a vote that finds no hash leaves the full tally there, never a hash of one |
| `Exactness.AgreeingHashAnswersTruly` | backend/internal/services/result_service.go:166-186 | a standing assembled from an agreeing hash equals the one assembled from the votes, and is given without the aggregation |
| `Exactness.TrueTotal` | backend/internal/services/result_service.go:166-186 | the total shown is the number of the poll's vote documents |
| `Exactness.StepKeepsExact` | backend/internal/services/result_service.go:68-129 | every kind of call keeps exactness (Casts that drift excepted) and keeps counters from being too high |
| `Votes.TalliesAddUp` | backend/internal/repositories/vote_repository.go:60-103 | if every vote of a poll names one of its distinct options, the per-option counts sum to the document count |
| `Votes.PurgeIsLocal` | backend/internal/repositories/vote_repository.go:87-94 | deleting one poll's votes leaves every other poll's tallies as they were and its own at zero |
| `Votes.VoteCollection.Create` | backend/internal/repositories/vote_repository.go:24-43 | insert if absent: at most one vote per poll and voter, the duplicate error exactly when one exists |
| `Votes.VoteCollection.CountsByPoll` | backend/internal/repositories/vote_repository.go:60-85 | one row for each option with votes, each with its tally |
| `Votes.VoteCollection.CountByPoll` | backend/internal/repositories/vote_repository.go:96-103 | the number of the poll's votes |
| `Votes.VoteCollection.DeleteByPoll` | backend/internal/repositories/vote_repository.go:87-94 | exactly the poll's votes go |
| `Counters.CounterStore.IncrementOption` | backend/internal/redis/counters.go:32-54 | increments only a hash that exists, refuses a non-numeric field, reports cold by the sentinel |
| `Counters.CounterStore.Results` | backend/internal/redis/counters.go:56-83 | the counts exactly if the hash exists and every field parses, else cold |
| `Counters.CounterStore.ReplaceResults` | backend/internal/redis/counters.go:85-114 | the hash becomes exactly the given counts, in one step or not at all |
| `Counters.HSetWrites` | backend/internal/redis/counters.go:97-108 | the list of pairs written in any order is the map it was built from |
| `Counters.ScriptKeepsReadability` | backend/internal/redis/counters.go:32-39 | an increment neither makes a junk hash readable nor breaks a readable one, and leaves other counters alone |
| `ResultService.ResultReader.Assemble` | backend/internal/services/result_service.go:165-186 | every option in declared order with its count, missing counts as zero, the total their sum |
| `ResultService.ResultReader.Rebuild` | backend/internal/services/result_service.go:94-129 | answers the true standing and writes the complete tally, zeroes included, of this poll only |
| `ResultService.ResultReader.ForPoll` | backend/internal/services/result_service.go:68-92 | cache if readable, otherwise the rebuild; other polls' hashes untouched |
| `ResultService.ResultReader.RecordVote` | backend/internal/services/result_service.go:131-155 | increment if warm, rebuild if cold, nothing on error |
| `Services.VoteService.Cast` | backend/internal/services/vote_service.go:56-120 | checks in order, insert, cache maintenance, answer, publication: the stores and the answer are those of the specification |
| `Services.VoteService.Standing` | backend/internal/services/vote_service.go:122-129 | a read changes only this poll's hash and answers from it |
| `Services.PollService.Create` | backend/internal/services/poll_service.go:106-140 | a valid request stores the cleaned poll, an invalid one stores nothing |
| `Services.PollService.Update` | backend/internal/services/poll_service.go:187-241 | refusals in order, then exactly the fields asked for change |
| `Services.PollService.RebuildOptions` | backend/internal/services/poll_service.go:297-323 | the table-and-set loop computes the specified option list |
| `Services.PollService.ValidateExpiry` | backend/internal/services/poll_service.go:325-342 | accepts exactly expiries in the future and within thirty days |
| `Services.PollService.Close` | backend/internal/services/poll_service.go:243-264 | closes, reads and announces once; closing again does nothing |
| `Services.PollService.Delete` | backend/internal/services/poll_service.go:266-295 | poll, then votes, then counters, stopping at the first error that matters |
| `Services.PollCollection.Update` | backend/internal/repositories/poll_repository.go:91-127 | only the owner's poll matches; None leaves a field; setting and unsetting the expiry together is refused |
| `Services.PollCollection.Delete` | backend/internal/repositories/poll_repository.go:129-139 | only the owner's poll is removed, a miss is reported |
| `Polls.HasOption` | backend/internal/models/poll.go:50-59 | true exactly for the poll's own option IDs |
| `Outcomes.ReadOutcome` | backend/internal/services/vote_service.go:122-129 | a read answers "not found" exactly for a poll that is not there, and otherwise, if it answers, a standing of that poll at that instant: own ID, options in order with text, their sum as total, "active" exactly while the poll is not closed and its expiry, if any, lies ahead; with a working aggregation it answers |
| `Outcomes.StandingShows` | backend/internal/services/result_service.go:165-186 | whatever the counts, an assembled standing shows that ID, those options, that sum and that status |
| `Outcomes.CastOutcome` | backend/internal/services/vote_service.go:65-103 | with the stores working a vote is taken iff it names a voter and an option of the poll, the poll is active with its expiry ahead, and the voter has none there; a valid choice on a poll that is closed or expired answers "poll closed", a second vote "already voted", and neither leaves a trace |
| `Outcomes.CastRefusals` | backend/internal/services/vote_service.go:65-91 | the other refusals in order, whatever the stores do, each without a trace |
| `Outcomes.CastSuccess` | backend/internal/services/vote_service.go:92-119 | a successful Cast stored exactly the vote asked for, changed no document and answers a standing of its poll |
| `Outcomes.CreateOutcome` | backend/internal/services/poll_service.go:106-140 | refused iff question, labels or expiry break a rule; otherwise the one new document is the poll as requested under a new ID, active, with the expiry asked for, and it is the answer |
| `Outcomes.ExpiryAcceptedIff` | backend/internal/services/poll_service.go:325-342 | an expiry is accepted iff it lies ahead by at most 2,592,000,000 milliseconds |
| `Outcomes.EditOutcome` | backend/internal/services/poll_service.go:194-241 | with the stores working: "not found", "forbidden" and "conflict" exactly for a missing poll, another's poll, and content of a poll with votes; success iff none of these and the request keeps the rules, asks for something and does not both set and remove the expiry; any error changes nothing |
| `Outcomes.EditFailures` | backend/internal/services/poll_service.go:187-214 | a poll that cannot be looked up, votes that cannot be counted when content is touched, and an unacknowledged update are errors, and only the last can have changed anything |
| `Outcomes.EditSuccess` | backend/internal/repositories/poll_repository.go:91-127 | a successful edit answers the stored poll: question, labels and expiry are what was asked for or what they were, ID, owner and status are what they were, nothing else changes anywhere |
| `Outcomes.OnlyTheOwnersUpdateMatches` | backend/internal/repositories/poll_repository.go:91-127 | an update by anybody but the owner changes no document and reports no success |
| `Outcomes.CloseOutcome` | backend/internal/services/poll_service.go:245-264 | only the owner closes; the stored poll is closed and otherwise what it was, and is the answer; closing again changes nothing |
| `Outcomes.CloseAnnounces` | backend/internal/services/poll_service.go:255-263 | the first successful close announces the poll exactly once, shown as closed, unless both stores fail the read or publishing fails |
| `Outcomes.DeleteOutcome` | backend/internal/services/poll_service.go:272-295 | only the owner deletes; done iff the stores of polls and of votes both answered, whatever Redis says; refused it changes nothing, carried out the poll is gone |
| `Outcomes.AnnouncementsShowTheStatus` | backend/internal/services/realtime_service.go:48-70 | every announcement of every run is a standing of its poll at that instant with the status the poll then has, after a close "closed" |
| `Outcomes.ClosedForGood` | backend/internal/services/poll_service.go:243-264 | from a successful close to the end of any run no Cast on the poll succeeds or leaves a trace and every read shows it closed |
| `Outcomes.EditsAreStored` | backend/internal/services/poll_service.go:187-241 | a successful edit is what the next point of the run holds |
| `Outcomes.CreatedPollsAppear` | backend/internal/services/poll_service.go:106-140 | a poll created with success is there from the next point of the run, as requested |
| `Lifecycle.StepKeepsWellFormed` | backend/internal/services/poll_service.go:187-241 | every call keeps: distinct option IDs and labels, one vote per voter, every vote of a live poll naming one of its options |
| `Lifecycle.StepKeepsReferences` | backend/internal/services/poll_service.go:203-213 | reference integrity, because options change only while there are no votes |
| `Lifecycle.StepIsLocal` | backend/internal/services/poll_service.go:187-295 | no call touches another poll, its votes or its counters |
| `Lifecycle.EditKeepsIdentity` | backend/internal/services/poll_service.go:297-323 | labels come back in order, known labels keep their ID, others get the minted one |
| `Lifecycle.EditGivesDistinctIds` | backend/internal/services/poll_service.go:302-323 | the IDs of an edited poll are pairwise different |
| `Lifecycle.ReorderingKeepsOptions` | backend/internal/services/poll_service.go:297-301 | permuting a poll's labels permutes its options and changes no ID |
| `Durability.KeptForGood` | backend/internal/services/poll_service.go:187-264 | between any two points of a run at which a poll exists: votes stay, question and options stay once there is a vote, closed stays closed and then no vote is added |
| `Durability.AcknowledgedVotesAreDurable` | backend/internal/services/vote_service.go:98-103 | a vote whose Cast succeeded is stored, and is that voter's only vote, for as long as the poll exists |
| `Durability.CastChangesNothingIffNotStored` | backend/internal/services/vote_service.go:65-119 | a Cast changes no store and publishes nothing exactly when its vote is not stored; success implies stored; storing and failing needs a lost reply or a failed final read |
| `Durability.CastAnswersTruly` | backend/internal/services/vote_service.go:105-119 | on an exact poll a successful Cast answers the true standing, own vote included, iff it did not miss its increment or did not read the cache |
| `Durability.CastAnswersByTheHash` | backend/internal/services/vote_service.go:105-119 | on any poll a successful Cast answers the true standing iff it did not read the cache or leaves the poll exact |
| `Durability.PublicationsAreTrueIff` | backend/internal/services/vote_service.go:105-119 | in every run what a call announces is its poll's true standing at that moment iff it was not read from the cache or every increment lost for that poll was followed by a reset |
| `Durability.CastsAnnounceTheirAnswer` | backend/internal/services/vote_service.go:105-119 | a successful Cast announces exactly its own answer unless publishing fails, and a failed one announces nothing |
| `Durability.ClosePublishesTruly` | backend/internal/services/poll_service.go:255-263 | what closing announces is the true standing of the poll, shown as closed, iff it was not read from the cache or the poll is left exact |
| `Durability.DeleteStopsSafely` | backend/internal/services/poll_service.go:266-295 | stopped after any step with any reply lost, every poll still findable and every other poll keeps document, votes and counters |
| `Durability.DeleteCompletes` | backend/internal/services/poll_service.go:272-295 | a delete reported done left no poll, no votes and, unless Redis refused, no hash |
| `Durability.DeleteIsLegal` | backend/internal/services/poll_service.go:266-295 | the delete is a run of its three steps in the safe order, so the run theorems cover every crash point |
| `Durability.PollReopensIff` | backend/internal/services/poll_service.go:187-241 | a poll that is closed or expired at a time takes votes at that time after a call iff the call is an unrefused, carried-out edit of it by its owner, its status is active, exactly one of removing and setting the expiry is asked for, and a set expiry lies beyond that time |
| `Durability.StaysShut` | backend/internal/models/poll.go:61-80 | across any stretch of a run without such an edit, and as time passes, a poll that is closed or expired stays so |
| `Durability.EditRacingACast` | backend/internal/services/poll_service.go:203-240 | a vote that was checked before an edit's write and is stored after its count, before or after the write, names a valid option iff the request leaves the options alone, lists the voted option's label, or is not carried out |
| `Durability.EditKeepsOptionIff` | backend/internal/services/poll_service.go:302-323 | an edit keeps an option's ID iff it lists the option's label |
| `Durability.RacedEditOrphansAVote` | backend/internal/services/poll_service.go:203-240 | one reached state, vote and edit after which a stored vote names no option of its poll |
| `Concurrent.RunKeeps` | backend/internal/services/vote_service.go:98-119 | the invariants hold in every interleaving of inserts, increments, aggregations, replacements, reads and failures |
| `Concurrent.LandKeeps` | backend/internal/redis/counters.go:32-54 | a carried-out increment keeps them, one increment per vote |
| `Concurrent.OverwriteKeeps` | backend/internal/redis/counters.go:94-114 | so does overwriting the hash with a snapshot of any age |
| `Drift.DriftIdentity` | backend/internal/services/result_service.go:102-155 | a readable counter is the snapshot's votes plus the increments since, so it is off by the votes counted twice less the votes not counted |
| `Drift.DriftBounds` | backend/internal/services/vote_service.go:98-107 | at most twice the truth; over by at most the Casts between insert and increment at the snapshot; every uncounted vote has one of three reasons |
| `Drift.QuietMeansExact` | backend/internal/services/result_service.go:68-79 | if the rebuild in force overlapped no Cast and no increment is pending or lost, every counter is exact |
| `Drift.RebuildWritesTheTruthIff` | backend/internal/services/result_service.go:94-129 | in every run, a rebuild's write leaves an option's counter short by the votes for it stored since the aggregation, so exact iff there are none |
| `Drift.SettledCounterExactIff` | backend/internal/services/result_service.go:74-79 | after a rebuild's write and any continuation that neither overwrites, expires nor corrupts the hash, loses no increment and leaves none pending, the counter is off by the pending votes inside the snapshot less the settled ones outside it, and exact iff those are equally many |
| `Drift.UndisturbedRebuildRepairs` | backend/internal/services/result_service.go:94-101 | from any reachable state, a rebuild that no vote overlaps, neither pending at its aggregation nor stored before its write, ends all drift whatever else happens meanwhile |
| `Drift.UndisturbedCastStaysExact` | backend/internal/services/vote_service.go:98-119 | a Cast nothing overlaps, on a warm, cold or junk hash, leaves the hash readable and exact and answers the new tally |
| `Drift.AnswersAreBounded` | backend/internal/services/result_service.go:80-92 | an answer through MongoDB is the tally at some moment of the call; one from the cache was read at some moment of the call and is off from that moment's tally by the votes then counted twice less those then not counted, at most twice the truth, each uncounted vote with its reason |
| `Drift.ReadAfterFlushIsTrue` | backend/internal/services/result_service.go:70-75 | from any reachable state, a read that nothing overlaps after the hash is dropped or junk answers the true tally |
| `Drift.DurableAndUnique` | backend/internal/repositories/vote_repository.go:24-43 | in every interleaving one vote per voter, no more increments than votes, and every call that stored a vote has it stored with the option and voter it came with |
| `Drift.StoredForGood` | backend/internal/services/vote_service.go:98-103 | the vote of a Cast that stores it is in the collection after every continuation, at its place, and is its voter's only vote |
| `Drift.LogOnlyGrows` | backend/internal/services/vote_service.go:98-103 | no interleaving removes or alters a stored vote |
| `Drift.CountedTwice` | backend/internal/services/result_service.go:74-75 | a schedule in which one vote is shown as two |
| `Drift.RebuildMakesItWorse` | backend/internal/services/result_service.go:99-101 | a schedule in which a rebuild turns an exact count into zero and the voter's own vote is missing |
| `Alone.CastAloneIsTheCall` | backend/internal/services/vote_service.go:98-119 | a Cast of a valid choice run step by step with nothing beside it, whatever fails, leaves the votes and the hash the whole call leaves and answers the same |
| `Alone.ViewAloneIsTheRead` | backend/internal/services/result_service.go:80-92 | so does a viewer's read |
| `Hub.HubSafety` | backend/internal/websocket/hub.go:62-128 | in every run: open iff in the room of its own poll, no empty room, gap-free delivery, buffer at most sixteen, nothing open after shutdown |
| `Hub.StepKeepsGapFree` | backend/internal/websocket/hub.go:83-93 | what a client drained and holds is in order every broadcast of its poll since it registered, up to now or its eviction |
| `Hub.SentStaysGapFree` | backend/internal/websocket/client.go:66-77 | a frame that fits extends the sequence by exactly itself |
| `Hub.EvictedStaysGapFree` | backend/internal/websocket/hub.go:84-92 | a client that cannot keep up is closed before the frame, never skipped |
| `Hub.ClosedIsFinal` | backend/internal/websocket/client.go:85-91 | from its closing to the end of any run a client is never sent to, reopened or closed again; a second unregister does nothing |
| `Hub.FramesAreExact` | backend/internal/websocket/client.go:66-77 | in every run what a client was and will be sent is, frame by frame, its poll's broadcasts and its snapshots that found the channel open with fewer than sixteen waiting, in the order of the steps |
| `Hub.RegistrationOpens` | backend/internal/websocket/hub.go:72-78 | a registration with a running hub opens an empty channel in the poll's room from the current broadcast on; a stopped hub takes none |
| `Hub.DrainTakesTheOldest` | backend/internal/websocket/client.go:122-145 | the pump takes the oldest waiting frame of its own client and touches no other |
| `Hub.StoppedForGood` | backend/internal/websocket/hub.go:66-70 | a shutdown stops the hub for the rest of any run |
| `Hub.SnapshotIsSafeIff` | backend/internal/handlers/websocket_handler.go:105-116 | a client open at one point of any run may be sent its snapshot at a later one iff no step between unregisters it, shuts the hub down or finds its buffer full on its own poll's broadcast |
| `Hub.SnapshotCanComeTooLate` | backend/internal/handlers/websocket_handler.go:105-116 | a run in which the channel is closed before the handler's snapshot |
| `HubObjects.HubLoop.OnBroadcast` | backend/internal/websocket/hub.go:83-93 | walking the room in any order, removing on the way, has the one specified outcome |
| `HubObjects.HubLoop.OnRegister` | backend/internal/websocket/hub.go:72-78 | the client joins its poll's room, created if needed |
| `HubObjects.HubLoop.OnUnregister` | backend/internal/websocket/hub.go:80-81 | the client leaves and is closed once, an empty room goes |
| `HubObjects.HubLoop.OnShutdown` | backend/internal/websocket/hub.go:121-128 | every client in a room is closed exactly once and no room remains |
| `HubObjects.HubLoop.Remove` | backend/internal/websocket/hub.go:101-119 | removal of a client not in its room does nothing |
| `HubObjects.Client.Send` | backend/internal/websocket/client.go:66-77 | true iff fewer than sixteen frames wait, and then the frame, update or snapshot, is the last of them; only callable on an open channel |
| `HubObjects.Client.Receive` | backend/internal/websocket/client.go:122-145 | frames leave in the order they came, after closing too |
| `Channels.ChannelRoundTrip` | backend/internal/redis/subscriber.go:78-88 | parsing inverts naming, and a non-empty ID comes exactly from its own channel |
| `Channels.OnlyTheOverlapFails` | backend/internal/redis/subscriber.go:80-87 | the slice is out of range for one name only, outside the subscribed pattern |
| `Pipeline.ViewersSeeASubsequence` | backend/internal/websocket/manager.go:33-55 | what a viewer gets is a subsequence of the genuine events published on its poll's channel, whatever is dropped: nothing reordered, invented, repeated or from another poll |
| `Pipeline.EventsAreConserved` | backend/internal/websocket/hub.go:156-163 | in every run the genuine events published for a poll are as many as those processed or held plus those lost, and an event is lost only by not arriving, at a subscriber with 256 waiting, or at a hub that has stopped or has 256 waiting |
| `Pipeline.AllThereIffNothingLost` | backend/internal/redis/subscriber.go:43-73 | everything published for a poll is processed or held, in order, iff nothing of it was lost in that way |
| `Pipeline.OpenClientsHaveEverything` | backend/internal/websocket/hub.go:83-93 | with nothing lost and nothing on the way an open client has received every event published for its poll since it registered |
| `Pipeline.SomeLoopMoves` | backend/internal/websocket/manager.go:42-52 | while the hub runs and anything waits in any stage, one of the loops can move; when nothing waits, nothing is on the way |
| `Pipeline.LoopsComeToAnEnd` | backend/internal/websocket/manager.go:42-52 | each move of the loops lowers a measure, so a burst drains in a bounded number of them |
| `Pipeline.AcceptedIff` | backend/internal/services/realtime_service.go:91-108 | a message passes the filter, as that event, iff it is the encoding of an event about the poll its channel names |
| `Pipeline.StepKeepsOrder` | backend/internal/services/realtime_service.go:91-116 | every stage, the filter's one event in hand included, moves or drops, never reorders; no queue exceeds 256 |
| `Pipeline.Forward` | backend/internal/services/realtime_service.go:91-116 | the filter loop passes on, poll by poll, exactly the decodable events that agree with their channel |
| `Pipeline.Subscribe` | backend/internal/redis/subscriber.go:43-73 | a stalled consumer keeps the first messages that fit; later ones are dropped and nothing blocks |
| `EndToEnd.ViewersFollowTheTruth` | backend/internal/services/realtime_service.go:48-116 | in a run in which what was announced about a poll was announced truly, whatever reaches its viewers through the hub is true standings, each from a later point of the run than the one before, whatever was dropped and whatever happened to other polls |
| `EndToEnd.NothingLostIsHonest` | backend/internal/services/vote_service.go:98-119 | so it is for every poll that lost no increment, whatever other polls lost |
| `EndToEnd.ViewersNumbersOnlyGrow` | backend/internal/services/realtime_service.go:48-116 | of two events that reach a viewer in such a run the later has no option with fewer votes and no smaller total |
| `EndToEnd.ScreenShowsTheTruth` | frontend/src/hooks/usePollResults.ts:48-70 | in such a run, after a frame that came through the channel the screen is the true standing of some point of the run, "active" exactly if the poll then took votes, unless the options were edited since the fetch, which a poll with votes does not allow |
| `EndToEnd.ViewersCatchUp` | backend/internal/websocket/manager.go:33-55 | if every announcement reached the instance and nothing was lost inside, then once all has drained an open client that registered before the last announcement has it as its last event |
| `EndToEnd.ChannelCarries` | backend/internal/services/realtime_service.go:46-116 | published standings pass the filter as the events they were, in order, with any of them lost and anything the filter rejects between them |
| `Events.ToEventCounts` | backend/internal/services/realtime_service.go:121-127 | one row for each option, in order |
| `ViewMerge.SelfSufficientIffCovering` | frontend/src/hooks/usePollResults.ts:48-70 | an event erases what was shown before iff it has a row for every option shown |
| `ViewMerge.LastEventDecides` | frontend/src/hooks/usePollResults.ts:48-70 | after any events, whichever were dropped, the view is the one the last covering event alone gives |
| `ViewMerge.LaterRowCounts` | frontend/src/hooks/usePollResults.ts:52-57 | of two rows for one option the later counts, and rows for others do not matter |
| `ViewMerge.EventsKeepFrames` | frontend/src/hooks/usePollResults.ts:50-67 | option order, text, own vote and other polls' views survive every event sequence |
| `ViewMerge.ViewerShowsTheStanding` | backend/internal/services/realtime_service.go:54-60 | a viewer whose last event carries a standing shows exactly that standing |
| `RateLimit.RateBound` | backend/internal/redis/rate_limit.go:26-52 | among any traffic, a stretch one window long holds at most 2·limit − 1 allowed hits of a key |
| `RateLimit.RateBoundIsTight` | backend/internal/redis/rate_limit.go:29-32 | for every limit of at least one and window of at least two the bound is reached |
| `RateLimit.WindowAllowsExactly` | backend/internal/redis/rate_limit.go:18-24 | of the hits of one window, its opening hit included, exactly min(limit, hits) are allowed |
| `RateLimit.NoPermanentBan` | backend/internal/redis/rate_limit.go:11-17 | after a refusal with remaining time r, at most the window, the first hit once r has passed is allowed however many came between |
| `RateLimit.AnswerTellsExpiry` | backend/internal/redis/rate_limit.go:41-52 | the remaining time answered, allowed or refused, is when the window ends; on its opening hit the whole window |
| `RateLimit.LiveCountersExpire` | backend/internal/redis/rate_limit.go:14-24 | a live counter always has an expiry at most one window away |
| `RateLimit.NoWindowNoLimit` | backend/internal/redis/rate_limit.go:18-24 | a window that is not positive limits nothing |
| `RateLimit.RateLimiter.Allow` | backend/internal/redis/rate_limit.go:33-52 | one hit counted against its own key, the verdict and the remaining time |
| `Reconnect.ReconnectSafety` | frontend/src/hooks/usePollWebSocket.ts:92-159 | at most one of socket and timer, neither after unmounting; "disconnected" exactly with neither, "connected" exactly with an open socket, "connecting" only before the first open, "reconnecting" while a retry waits; at most eight attempts; refetches are opens minus one |
| `Reconnect.AttemptsCountDrops` | frontend/src/hooks/usePollWebSocket.ts:110-159 | in every run the attempts counted are the drops since the last open, return of the network or manual reconnect, up to eight |
| `Reconnect.DropsAndAttempts` | frontend/src/hooks/usePollWebSocket.ts:137-159 | a drop schedules a retry unless eight are counted; a timer, the network or the viewer brings a socket if the address is one |
| `Reconnect.ReconnectingPage` | frontend/src/hooks/usePollWebSocket.ts:110-153 | a run of open, drop, retry and open ends connected, with no attempts counted and one refetch |
| `Reconnect.GivesUpAfterEight` | frontend/src/hooks/usePollWebSocket.ts:137-153 | with no open and no outside event the run ends disconnected after exactly eight retries |
| `Reconnect.FailuresRunOut` | frontend/src/hooks/usePollWebSocket.ts:137-153 | every failure lowers a measure; attempts count retries made or pending |
| `Reconnect.DelayWithinAQuarter` | frontend/src/hooks/usePollWebSocket.ts:86-90 | each delay is within a quarter of the backoff, the half-second floor never decides, the backoff doubles to its cap |
| `Reconnect.DelaysInMilliseconds` | frontend/src/hooks/usePollWebSocket.ts:86-90 | the first delay is 750 to 1250 ms, the second 1500 to 2500, from the fifth on 12000 to 20000, none more |
| `Reconnect.JitterIsCentred` | frontend/src/hooks/usePollWebSocket.ts:86-90 | the smallest delay is three quarters of the backoff, the middle one the backoff itself, and delays grow with the random number |
| `Reconnect.PollSocket.OnClose` | frontend/src/hooks/usePollWebSocket.ts:137-153 | retry with the computed delay, or give up after eight |
| `Reconnect.PollSocket.OnOpen` | frontend/src/hooks/usePollWebSocket.ts:110-119 | resets the attempts and refetches on every open but the first |
| `Reconnect.PollSocket.RetryNow` | frontend/src/hooks/usePollWebSocket.ts:198-202 | acts only without a socket, visible and online |
| `Validation.CleanTextFixesExactlyTheClean` | backend/internal/validation/validation.go:66-83 | the result has no control character, U+FEFF or U+200B and only single plain interior spaces, and exactly such texts are left alone |
| `Validation.BlankIff` | backend/internal/validation/validation.go:66-83 | a cleaned text is empty iff the text has nothing but spaces and dropped characters |
| `Validation.DroppedIffNoDifference` | backend/internal/validation/validation.go:69-79 | inserting a character anywhere never changes the cleaned text iff it is one of the dropped ones |
| `Validation.UnseenCharactersPass` | docs/api.md:177-178 | a question of three word joiners is accepted, and so are two options that differ by a zero-width joiner |
| `Validation.CleanTextIdempotent` | backend/internal/validation/validation.go:66-83 | cleaning twice is cleaning once |
| `Validation.FieldsOfJoin` | backend/internal/validation/validation.go:82-82 | splitting a joined word list gives the words back |
| `Validation.SpaceSeparates` | backend/internal/validation/validation.go:72-83 | around a space anywhere the two sides are cleaned by themselves and joined by one plain space, or one stands alone if the other is blank |
| `Validation.SurvivorsPass` | backend/internal/validation/validation.go:72-83 | a text with no space and no dropped character is left as it is |
| `Validation.OptionsAcceptedIff` | backend/internal/validation/validation.go:155-193 | accepted iff two to ten non-blank cleaned labels, each at most 120 characters, pairwise different lower-cased |
| `Validation.CleanedLabelsComeBack` | backend/internal/validation/validation.go:155-193 | the labels kept from a request are kept unchanged when sent again |
| `Validation.Validator.Options` | backend/internal/validation/validation.go:155-193 | returns the cleaned non-blank labels and records the first problem in order, if any |
| `Validation.Validator.CheckLabels` | backend/internal/validation/validation.go:178-190 | the scan stops at the first label too long or repeated |
| `Validation.Validator.Question` | backend/internal/validation/validation.go:141-153 | three to three hundred characters after cleaning |
| `Validation.QuestionAcceptedIff` | backend/internal/validation/validation.go:141-153 | accepted iff three to three hundred characters once cleaned; missing iff nothing survives cleaning, too long iff over three hundred |
| `Validation.OptionsComplaint` | backend/internal/validation/validation.go:155-193 | the complaint is about the number of labels first, then about the first label that is over 120 characters or, if not, repeats an earlier one |
| `Validation.Validator.Add` | backend/internal/validation/validation.go:45-52 | the field has a complaint, the earlier one if there was one, and other fields are as they were |

## Left out

- HTTP, authentication, cookies, health checks, configuration, deployment and the React components.
- JSON: an encoded event and its decoding are taken to be inverse; other bytes are one value that does not decode.
- Invalid UTF-8: text is a sequence of characters; case folding is an arbitrary function, so the results hold for any.
- 64-bit wrap-around of counters and totals: counts are unbounded.
- Randomness: minted option IDs are parameters assumed distinct and unused by the poll; a failing random source is not modelled. Poll IDs are never reused.
- The nil variants of the Redis dependencies: absent counters behave as a Redis that is never reachable.
- Lifetimes of counter keys: a key may vanish at any time, which covers expiry, flush and restart.
- `createdAt` and `updatedAt` stamps, the dashboard listing with its totals, and looking up one's own vote.
- Overlap beyond one poll with fixed options: the concurrent model has no edits, closes or deletes, takes the aggregation, the script and the replacement as single steps, and says nothing about the order of publications; `EndToEnd` is about calls that do not overlap.
- Socket deadlines, pings and close frames; sockets of an earlier mount, and a forced reconnect while a socket is live.
- Durability.EditRacingACast: is about one Cast overlapping one edit, its insert before or after the edit's write; two edits or an edit and a close that overlap are not modelled.
- Pipeline.ViewersSeeASubsequence: says nothing about snapshots, which the handler sends outside the pipeline.
