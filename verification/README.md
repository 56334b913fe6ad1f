# Encounters, calls and conversations: a verification project

This project models the shared-state protocols of the application and proves what they promise in
every interleaving: the Redis scripts of live discovery, the two-store Connect protocol, call
leases, durable messages and their client, moments, and the pure cores beside them.

| file | what it models |
|---|---|
| `Encounter`, `EncounterInvariants` | the discovery keyspace, each Lua script as one atomic step, and what all scripts keep, with and without lapsing keys |
| `EncounterLog`, `EncounterRaces`, `EncounterPrivacy`, `EncounterFencing` | the PUBLISH log, timers and the sweeper, privacy of one-sided votes, superseded sockets |
| `EncounterQueue`, `EncounterActions`, `EncounterNews` | who is queued and matched, what votes, absences, returns, signals and endings come to over whole runs, and that everything that happens to a match is told |
| `EncounterStore`, `Matcher` | the scripts as in-place code on a `Store`, the sweeper loop, candidate selection and two-pass matching |
| `Relations`, `ConnectProtocol`, `ConnectOutcome` | the PostgreSQL transactions on connections, encounters, blocks and reports, mutual Connect across both stores, what it comes to and who ends it |
| `BlockRace` | blocks committed in PostgreSQL against claims and endings in Redis |
| `Calls`, `CallLife`, `Limiter` | call and busy keys with their times to live, the life of one call over whole runs, and the fixed-window limiter |
| `Messaging`, `CommitOrder` | sends, notifications, receipts and unread counts as whole transactions, and the same transactions taken apart into authorisation, lock, write and commit |
| `BlockedSends`, `Paging` | blocks against sends that are under way, and keyset paging while messages are sent |
| `Timeline`, `Conversation` | keyset paging, the client timeline and the retry token, end to end with `Messaging` |
| `Moments`, `Audience`, `Sharing` | audience snapshots, the visibility query and the publication quota, who sees a moment over any run, and the same over the tables of connections and blocks |
| `Preferences`, `Credentials` | canonical preferences and pair scoring, TURN usernames after section 2.2 of draft-uberti-behave-turn-rest-00 |

Code that changes state in place is a class whose methods follow the source line by line; each
method is proved equal to a step function on values, and the properties are lemmas about those
functions over all states and runs.

Conventions. A Redis script is atomic; a row lock excludes other writers until commit; unique
indexes hold; READ COMMITTED statements see what has committed. A key with a time to live is there
while the clock is before its expiry. Identifiers are numbers, since the canonical text of a UUID
is fixed-width and sorts like a number; identifiers drawn at random are fresh. Each script
receives its own clock reading, and readings of different callers are unrelated. A member of the
disconnect index is a pair (match, user) rather than the text `m:u`.

Where the code falls short of what one might expect, the code is modelled as it is and the exact
condition is proved: key lapses and the participant bijection (`OnlyLiveLapsesBreak`), late
compensation of a failed invite (`ExclusionExactlyWhenSafe`), a reload after more than 60 new
messages (`ReloadGap`), a retry answered with an old message (`SentGap`), an edited and restored
draft (`SameMessageIffUnedited`), a block whose update misses a row
(`ComesBackExactlyWhenOnlyBlocked`, `LateMessageExactly`), a refused reload after the last older
page (`Screen.Load`), the true limiter bound (`BoundIsTight`), and TURN lifetimes below a second
(`UsableAtIssue`). In one place the code and its documentation disagree:
docs/matchmaking/algorithm.md:14 asks that a claim cannot bypass a new block, while the claim
script does not look at blocks; `ClaimCollidesExactlyIfBlockedSinceCheck` says exactly when it happens.

## Model

| member | source | states |
|---|---|---|
| EncounterInvariants.StepKeeps | apps/server/internal/discovery/store.go:265-420 | Every script and every key lapse keeps the weak invariant: queue keys are preference keys, nobody queued is matched, the deadline index holds exactly the active records at their own deadline, the disconnect index exactly the disconnect marks, extended means both votes and an extension before the deadline, a stored connection means both Connect votes. If no user-match or match key lapses, the strong invariant is kept too: a live match and its two distinct participants point at each other, and no index entry is an orphan |
| EncounterInvariants.RunKeeps | apps/server/internal/discovery/store.go:265-420 | The same over runs of any length |
| EncounterInvariants.ReachableEncounters | apps/server/internal/discovery/store.go:265-420 | In every reachable state, lapses included: queued and matched users are disjoint, queue keys are preference keys, participants are distinct, an extended match has both votes and was extended before its deadline; and without lapses of live keys both participants and nobody else are mapped to their match |
| EncounterInvariants.OnlyLiveLapsesBreak | apps/server/internal/discovery/store.go:326-334 | A legal step breaks the strong invariant exactly when it is the lapse of an existing user-match or match key |
| EncounterInvariants.LapsesBreakTheBijection | apps/server/internal/discovery/store.go:331-332 | A legal run that the times to live allow (match extended, the gone user's presence and then mapping run out, the user returns with a new socket and is matched again) after which ending the old match leaves a present user named in the new match but not mapped to it: the ending scripts delete a mapping without comparing it |
| EncounterLog.StepKeepsLog | apps/server/internal/discovery/store.go:301-420 | Whatever a step publishes extends the log so that broadcasts stay unique and paired and nothing follows match.ended, lapses included |
| EncounterLog.SettledForever | apps/server/internal/discovery/store.go:346-385 | In any run a match id is never revived or given to another pair, an extension is never undone or moved, and a stored connection never changes |
| EncounterLog.RunKeepsLog | apps/server/internal/discovery/store.go:301-420 | The same over every run |
| EncounterLog.EachHearsOnce | apps/server/internal/discovery/store.go:318-420 | In any run: per match, match.found, match.extended, connection.created and match.ended are published to each participant at most once, each broadcast to both, after match.ended comes only its other half, and an extended match never ends by expiry |
| EncounterNews.StepTells | apps/server/internal/discovery/store.go:301-420 | The converse for one step: a claim tells both and names one offerer, an extension and a stored connection are told to both, and a match that a script takes away was told to both as ended, with the reason of that script |
| EncounterNews.EverythingIsTold | apps/server/internal/discovery/store.go:301-420 | Over every run: every match ever claimed was found by both, whatever extension or connection a record shows was published to both, and every match that is over was ended for both, unless its key lapsed |
| EncounterQueue.MatchedExactlyWhenWaiting | apps/server/internal/discovery/store.go:301-316 | A legal step makes a match exactly when it is a claim of two users who are both queued, outside any match and present at the sockets named, and who have not met lately unless the claim allows it; the reply is then 1, and the match of one minute, both mappings and both departures from the queue are there |
| EncounterQueue.EntryChangesExactly | apps/server/internal/discovery/store.go:275-316 | A user gets into the queue exactly by asking from the live socket outside any match, with that time and those preferences, and leaves it exactly by leaving, by closing the live socket, by a cleanup of the entry seen when its socket is gone, or by being claimed; every other entry stays as it is |
| EncounterQueue.LeaversAreNotMatched | apps/server/internal/discovery/store.go:281-283 | After leaving the queue or closing the socket, a user is named in no new match in any run until asking to queue again |
| EncounterQueue.PlaceIsKept | apps/server/internal/discovery/store.go:275-316 | Over every run in which none of these things happens to a user, the place in the queue and the preferences stay |
| EncounterActions.OutsidersChangeNothing | apps/server/internal/discovery/store.go:290-374 | From a superseded socket, from outside the match or about a match that is gone: reply 0 and nothing changed |
| EncounterActions.StepChanges | apps/server/internal/discovery/store.go:290-398 | In a match that outlasts a step, a vote appears exactly when it is cast in time by a participant at the live socket, a disconnect mark of 45 s exactly by closing that socket, and it goes exactly by returning in time |
| EncounterActions.VotesAreThoseCast | apps/server/internal/discovery/store.go:346-374 | Over every run that a match outlasts, its votes are exactly those cast in time: none is lost, taken back or invented |
| EncounterActions.ExtendedExactlyByBothVotes | apps/server/internal/discovery/store.go:346-361 | Over every run that a match outlasts, it is extended exactly when both have cast a vote that counts |
| EncounterActions.VoteIsAnswered | apps/server/internal/discovery/store.go:346-361 | The second vote that counts extends at once, answers 2 and tells both; the first answers 1 and tells nobody; after the deadline -1, when extended 2, with nothing changed |
| EncounterActions.ConnectVoteIsAnswered | apps/server/internal/discovery/store.go:363-374 | -1 after an unextended deadline, 3 when the outcome is stored, else the vote is in and the reply says whether the peer has voted; nothing is published |
| EncounterActions.AbsenceEndsTheMatch | apps/server/internal/discovery/store.go:387-420 | A participant who closes the socket and does not return: the peer is told the deadline, and after any run in between the sweeper's script ends the match from 45 s on, telling both, and does nothing before |
| EncounterActions.ReturnIsFinal | apps/server/internal/discovery/store.go:290-299 | A participant who returns in time: the peer is told, and in every run until the next disconnect the grace script never ends the match over this user |
| EncounterActions.LateReturnIsRefused | apps/server/internal/discovery/store.go:290-299 | Any other return is refused and changes nothing |
| EncounterActions.SignalReachesThePeer | apps/server/internal/discovery/store.go:318-324 | One signal to the peer exactly when sent by a participant at the live socket and the peer is present; nothing else changes |
| EncounterActions.EndingFreesBoth | apps/server/internal/discovery/store.go:326-344 | The match, both mappings and all index entries are gone, no other match, mapping, queue entry or presence is touched, and both are told the reason |
| EncounterRaces.ExtendAgainstExpiry | apps/server/internal/discovery/store.go:346-361 | Extend and Expire commute exactly unless the vote completes the pair before the deadline on its own clock while the sweeper's clock is past it; a vote past the deadline is refused |
| EncounterRaces.ReconnectAgainstGrace | apps/server/internal/discovery/store.go:290-299 | For a disconnected participant Reconnect succeeds exactly when grace expiry at that instant would not end the match, and grace expiry after it finds nothing |
| EncounterRaces.ExpireDrains | apps/server/internal/discovery/store.go:400-409 | A due deadline entry is gone after its script, which ends the match or removes an orphan, and no other match changes |
| EncounterRaces.GraceDrains | apps/server/internal/discovery/store.go:411-420 | The same for the disconnect index |
| EncounterRaces.SweepProgress | apps/server/internal/discovery/store.go:180-203 | One sweep removes every due entry it selects from both indexes (a full page of 100 when there are that many) and touches no match that neither timer has reached |
| EncounterRaces.SweepsDrain | apps/server/internal/discovery/store.go:180-203 | After k sweeps at a fixed time at most the backlog minus 100 k is left of either index: no starvation behind the page limit |
| EncounterRaces.DrainedMeansEnded | apps/server/internal/discovery/store.go:180-203 | Empty backlogs mean that no live match is past its deadline or past anybody's grace |
| EncounterPrivacy.StepAlike | apps/server/internal/discovery/store.go:265-420 | Any step other than the peer's same vote answers, publishes and changes the keyspace alike whether or not a one-sided vote is stored |
| EncounterPrivacy.OneSidedVoteIsPrivate | apps/server/internal/discovery/store.go:346-385 | Over every continuation in which the peer does not cast the same vote, the run with a one-sided Extend or Connect vote and the run without it give the same replies, the same published events and the same reads of every user's current match |
| EncounterFencing.StaleIsIgnored | apps/server/internal/discovery/store.go:265-398 | A script from a socket that is not its user's newest, or claiming a candidate at such a socket, changes nothing and answers 0 |
| EncounterFencing.ErasedRun | apps/server/internal/discovery/store.go:265-398 | Erasing all such steps from a run leaves the final keyspace, the event log included, unchanged |
| EncounterFencing.SupersededSocketsHaveNoEffect | apps/server/internal/discovery/store.go:48-50 | The same from the empty keyspace, for every sequence of steps |
| EncounterFencing.PresenceAfter | apps/server/internal/discovery/store.go:48-50 | Presence changes by announcing a socket, by disconnecting the live one and by lapsing, and in no other way |
| EncounterStore.Store.Connect | apps/server/internal/discovery/store.go:48-50 | In-place SET of the presence key equals its step |
| EncounterStore.Store.Enqueue | apps/server/internal/discovery/store.go:275-279 | In-place script equals its step: refused without live presence or when matched |
| EncounterStore.Store.LeaveQueue | apps/server/internal/discovery/store.go:281-283 | In-place script equals its step |
| EncounterStore.Store.CleanupQueued | apps/server/internal/discovery/store.go:285-288 | In-place script equals its step: only the exact entry seen, and only while its socket is gone |
| EncounterStore.Store.Claim | apps/server/internal/discovery/store.go:301-316 | In-place script equals its step: all guards first, then every key of the match |
| EncounterStore.Store.Reconnect | apps/server/internal/discovery/store.go:290-299 | In-place script equals its step |
| EncounterStore.Store.Relay | apps/server/internal/discovery/store.go:318-324 | In-place script equals its step |
| EncounterStore.Store.Finish | apps/server/internal/discovery/store.go:330-334 | The shared tail of the four ending scripts, line by line |
| EncounterStore.Store.EndMatch | apps/server/internal/discovery/store.go:326-334 | In-place script equals its step |
| EncounterStore.Store.EndForUser | apps/server/internal/discovery/store.go:336-344 | In-place script equals its step |
| EncounterStore.Store.Extend | apps/server/internal/discovery/store.go:346-361 | In-place script equals its step, with replies 0, -1, 1 and 2 |
| EncounterStore.Store.ConnectVote | apps/server/internal/discovery/store.go:363-374 | In-place script equals its step, with replies 0, -1, 1, 2 and 3 |
| EncounterStore.Store.PublishConnection | apps/server/internal/discovery/store.go:376-385 | In-place script equals its step: needs both votes, stores the id once and publishes it to both |
| EncounterStore.Store.Disconnect | apps/server/internal/discovery/store.go:387-398 | In-place script equals its step |
| EncounterStore.Store.Expire | apps/server/internal/discovery/store.go:400-409 | In-place script equals its step |
| EncounterStore.Store.GraceExpire | apps/server/internal/discovery/store.go:411-420 | In-place script equals its step |
| EncounterStore.FirstDue | apps/server/internal/discovery/store.go:181 | The selected page: distinct due entries, earliest first, all of them when they fit, none later than one left out |
| EncounterStore.Store.Sweep | apps/server/internal/discovery/store.go:180-203 | The loop over both pages is a sweep on correctly selected pages, keeps the invariant and shrinks both backlogs by a page |
| Matcher.FirstQueued | apps/server/internal/discovery/store.go:77 | The first hundred queue entries by join time, then id, or all of them when there are fewer |
| Matcher.Candidates | apps/server/internal/discovery/store.go:76-103 | Returns exactly the other users of the page who are still at the socket that queued, and removes exactly the stale entries |
| Matcher.Ranked | apps/server/internal/discovery/handler.go:228-235 | The stable sort orders by most shared interests, then earliest join, then queue order, and loses nobody |
| Matcher.TryPass | apps/server/internal/discovery/handler.go:236-275 | One pass claims the first claimable candidate of its kind or shows there is none; it tries exactly the compatible candidates of its kind up to where it stops, in order, each once |
| Matcher.TryMatch | apps/server/internal/discovery/handler.go:223-275 | On a stable snapshot: the claimed candidate precedes every other one at which the scan could stop, people met lately come only after all others, the claim script is run on it with the resolved intent and shared interests, and nobody is claimed only when nobody is claimable; the attempts made are in that order, each candidate at most once, no compatible one passed over, none after the scan stops |
| Matcher.ChoiceInPlainTerms | apps/server/internal/discovery/handler.go:223-275 | The same in terms of the people, for interests without repetition as they are queued: whoever is matched shares a language and an agreeing intent with me and is eligible, and everybody else who does and is has been met lately while this one has not, or has fewer interests in common with me, or joined later; the match carries the intent that is not surprise_me, if there is one, and the interests of both; nobody is left over when nobody is matched |
| Relations.Database.PersistConnection | apps/server/internal/discovery/repository.go:17-45 | The transaction in place: outcome upserted to connected, the active row of the pair returned or a new one inserted, rolled back when the encounter already has another row |
| Relations.PersistKeeps | apps/server/internal/discovery/repository.go:17-45 | Keeps one row per encounter and one active row per pair; a returned id is the active row of exactly that pair; no row changes |
| Relations.PersistSucceedsExactly | apps/server/internal/discovery/repository.go:17-45 | It succeeds exactly for two different users who have an active connection or no row of this match yet, adds at most the row it returns, and leaves everything as it was when it fails |
| Relations.PersistIsIdempotent | apps/server/internal/discovery/repository.go:17-45 | Repeated for the same match while its row is active, it returns the same id and changes nothing |
| Relations.Database.EligiblePair | apps/server/internal/discovery/repository.go:49-61 | Eligible exactly when the users are different, both active, and neither has blocked the other |
| Relations.Database.RemoveConnection | apps/server/internal/social/social.go:118-121 | The update in place: only a participant ends an active row |
| Relations.RemoveKeeps | apps/server/internal/social/social.go:118-121 | Keeps the table constraints |
| Relations.RemovalAsSeenElsewhere | apps/server/internal/social/social.go:118-121 | Seen as the rows that messages and moments join: a removal ends exactly one |
| Relations.Database.BlockUser | apps/server/internal/social/social.go:122-135 | The transaction in place, as a loop over the rows its update finds |
| Relations.BlockKeeps | apps/server/internal/social/social.go:122-135 | Blocking ends every active row of the pair, keeps the constraints, leaves other pairs alone and never moves a time of ending |
| Relations.BlockAsSeenElsewhere | apps/server/internal/social/social.go:122-139 | Seen the same way: a block that runs alone ends exactly the rows of its pair, and taking it back changes no row |
| Relations.PersistAsSeenElsewhere | apps/server/internal/discovery/repository.go:36-37 | Seen the same way: persisting adds at most one row, open and of exactly that pair |
| Relations.Database.UnblockUser | apps/server/internal/social/social.go:136-139 | Removes one direction of a block and nothing else: ended rows stay ended |
| Relations.Database.ReportEncounter | apps/server/internal/social/social.go:157-178 | The transaction in place: encounter and report inserted unless present |
| Relations.ReportKeeps | apps/server/internal/social/social.go:157-178 | Keeps the constraints, overwrites no encounter, and is idempotent |
| Relations.ConnectOutranksReport | apps/server/internal/social/social.go:169 | In either order of reporting and connecting the encounter ends up connected |
| ConnectProtocol.NextKeeps | apps/server/internal/discovery/handler.go:167-198 | Every step of the vote, reread, persist and publish protocol, with any other script, removal, block, unblock or report in between, keeps the cross-store invariant |
| ConnectProtocol.ExecutionKeeps | apps/server/internal/discovery/handler.go:167-198 | So does every execution of any number of handlers |
| ConnectProtocol.MutualConnect | apps/server/internal/discovery/handler.go:167-198 | In every reachable state of every interleaving: a connection row exists only for a match of exactly that pair in which both voted Connect, at most one per match and one active per pair; connection.created is broadcast to each participant at most once; and every connection.created, broadcast or direct, names one and the same row of that pair |
| ConnectProtocol.PublishTells | apps/server/internal/discovery/store.go:376-385 | A publication for a live match with both votes and no stored id announces the connection, and whatever is announced is told to both |
| ConnectProtocol.AnnouncedIsTold | apps/server/internal/discovery/store.go:376-385 | In every execution connection.created with the announced id is in the log for both members of the match |
| ConnectOutcome.SecondVoteConnects | apps/server/internal/discovery/handler.go:167-198 | The second vote followed through undisturbed (vote, both reads, transaction, publication): the pair has an active connection, the encounter is connected, its id is stored and both have been told; only an ended row of this very match would stand in the way |
| ConnectOutcome.RepeatedVoteIsTold | apps/server/internal/discovery/handler.go:180-186 | A vote repeated when the connection is stored is answered with its id directly and changes nothing else |
| ConnectOutcome.EndedExactlyByItsMembers | apps/server/internal/social/social.go:118-135 | In every execution an active connection stays active exactly as long as neither member removes it or blocks the other |
| ConnectOutcome.EndedAtFirstEnding | apps/server/internal/social/social.go:118-135 | And its time of ending is that of the first such action |
| ConnectOutcome.ReportStep | apps/server/internal/social/social.go:157-178 | A report of somebody else is on file afterwards under its reporter and encounter, and nothing else files or changes one |
| ConnectOutcome.ReportsStand | apps/server/internal/social/social.go:157-178 | In every execution a report stays as it was first filed |
| ConnectProtocol.EndedConnectionIsFinal | apps/server/internal/discovery/repository.go:36-40 | In every execution an ended connection row never changes again, no other row for its match is ever there, and persisting that match again adds no row |
| BlockRace.CleanExactlyWithoutCollision | apps/server/internal/discovery/handler.go:258-275 | One step: blocked pairs stay out of live matches exactly when the step is neither a claim whose guards pass for a pair that is blocked by then nor a block of a pair that is in a match |
| BlockRace.CleanThroughoutExactlyWithoutCollisions | apps/server/internal/discovery/handler.go:258-275 | In every execution, up to any point: blocked pairs have always stayed out of live matches exactly when no such step has been taken |
| BlockRace.ClaimCollidesExactlyIfBlockedSinceCheck | apps/server/internal/discovery/handler.go:258-275 | In every execution each claim has its own eligibility check before it, and lets a blocked pair meet exactly when its guards pass and one of the two has blocked the other since that check and not taken it back |
| BlockRace.StaleCheckBypassesBlock | apps/server/internal/discovery/handler.go:258-275 | Concrete steps from a reachable keyspace and tables in which the pair shares an active connection: a block committed between the eligibility check and the claim is bypassed |
| BlockRace.BlockFromMatchSeparates | apps/server/internal/social/social.go:318-324 | Blocking from inside a match and then ending it separates the pair again, with no other match touched |
| BlockRace.PairsKept | apps/server/internal/discovery/store.go:265-420 | No script but the claim makes a match or changes who is in one |
| Calls.CallStore.ReserveCall | apps/server/internal/communication/calls.go:41-42 | In-place script equals its step: both busy keys and the call key, or nothing |
| Calls.CallStore.Compensate | apps/server/internal/communication/calls.go:49 | The unconditional DEL of three keys equals its step |
| Calls.CallStore.Invite | apps/server/internal/communication/calls.go:41-55 | 409 with nothing changed, 200 with the call announced, or 500 with the reservation rolled back |
| Calls.CallStore.AcceptCall | apps/server/internal/communication/calls.go:94 | In-place script equals its step |
| Calls.CallStore.EndCall | apps/server/internal/communication/calls.go:100 | In-place loop equals its step: a busy key goes only if it names this call |
| Calls.CallStore.HeartbeatCall | apps/server/internal/communication/calls.go:106 | In-place loop equals its step, the SET NX branch included |
| Calls.StepKeeps | apps/server/internal/communication/calls.go:41-106 | Every step whose compensation, if it is one, deletes no other live call's lease keeps: a live call owns both busy keys and each expires exactly 5 s after it; a busy user is a party of the call named, which is alive or lapsed less than 5 s ago |
| Calls.NobodyInTwoCalls | apps/server/internal/communication/calls.go:41-106 | With compensation allowed at any time: over every run whose compensations are safe nobody is a party of two live calls |
| Calls.TimelyRunsExclude | apps/server/internal/communication/calls.go:41-106 | In particular over every run whose compensations run within the 45 s of ringing |
| Calls.RepairNeverFires | apps/server/internal/communication/calls.go:106 | Whenever the heartbeat passes its state check both keys hold the call, so it only renews |
| Calls.LapsedCallFreesItsParties | apps/server/internal/communication/calls.go:42 | From 5 s after a call is no longer alive it blocks neither party, in every continuation with safe compensations |
| Calls.TimelyRollbackIsSafe | apps/server/internal/communication/calls.go:49 | Compensation within the 45 s of ringing deletes no other live call's lease |
| Calls.RollbackKeepsExactlyWhenSafe | apps/server/internal/communication/calls.go:49 | At any time, compensation keeps the invariant exactly when neither deleted busy key belongs to another live call |
| Calls.ExclusionExactlyWhenSafe | apps/server/internal/communication/calls.go:49 | After a compensation some continuation puts a user into two live calls exactly when one of the deleted busy keys belonged to another live call |
| Calls.LateRollbackBreaksExclusion | apps/server/internal/communication/calls.go:49 | A legal run from the start to a pending call past its ringing time whose compensation is unsafe, and the one invitation after it that puts a user into two live calls |
| CallLife.CallsExactlyFreeUsers | apps/server/internal/communication/calls.go:41-42 | An invitation goes through exactly when neither user is busy, and then rings for 45 s with both busy for 50 s and nobody else touched |
| CallLife.RingsForItsTime | apps/server/internal/communication/calls.go:41-106 | Over every run from its reservation until somebody ends it: a call is active exactly if it was accepted within its 45 s, and if not it is alive for just those 45 s, whatever heartbeats and late accepts there are |
| CallLife.TendedCallLivesOn | apps/server/internal/communication/calls.go:94-106 | Over every run with safe compensations, however long: an accepted call that nobody ends and that gets a heartbeat before each 75 s are over is alive, holds both parties, and no invitation involving either goes through |
| CallLife.UntendedRunsOut | apps/server/internal/communication/calls.go:106 | Without heartbeats the expiry of an active call never moves |
| CallLife.EndedForGood | apps/server/internal/communication/calls.go:100 | Ending a live call frees both parties at once, touches no other call or lease, and the call is never alive again in any run |
| Limiter.Counters.Allow | apps/server/internal/communication/handler.go:94-106 | INCR with EXPIRE on the first request: the verdict and the counter equal their specification, other counters are untouched |
| Limiter.IntervalBound | apps/server/internal/communication/handler.go:94-106 | For every nondecreasing trace any 60-second interval admits at most 2 * maximum - 1 requests |
| Limiter.WindowAdmits | apps/server/internal/communication/handler.go:94-106 | A window admits exactly the smaller of its requests and what is left of the maximum |
| Limiter.BoundIsTight | apps/server/internal/communication/handler.go:94-106 | For every maximum there is a trace that reaches 2 * maximum - 1 |
| Messaging.MessageStore.Send | apps/server/internal/communication/handler.go:204-227 | The transaction in place: body limits, active connection, insert or conflict by (sender, client id), one notification for the peer |
| Messaging.SendKeeps | apps/server/internal/communication/handler.go:218-222 | Messages and message notifications stay in bijection, (sender, client id) stays unique, no stored message ever changes its body or connection, and an answer names a message of this sender, client id and connection |
| Messaging.SendIsAnswered | apps/server/internal/communication/handler.go:199-227 | 400 exactly for a body that is empty or over 4000, 403 exactly when the sender is in no active connection of that id, otherwise the one message already stored under this sender and client id, 409 if that is in another connection, or a new message with its one unread notification for the other member |
| Messaging.ResendIsIdempotent | apps/server/internal/communication/handler.go:218 | Sending the same draft again stores nothing, notifies nobody and answers with the first message |
| Messaging.MessageStore.SendReceipt | apps/server/internal/communication/handler.go:237-266 | The statements in place equal their step |
| Messaging.ReceiptKeeps | apps/server/internal/communication/handler.go:254-263 | Keeps the invariant, with read never beyond delivered |
| Messaging.ReceiptJoins | apps/server/internal/communication/handler.go:254-265 | A valid receipt joins the message, and the message again as read if the reading is shared, into the stored cursors, and the peer is told exactly when a cursor strictly advances |
| Messaging.CursorJoinsAccepted | apps/server/internal/communication/handler.go:237-266 | In every trace of sends and of any readers' receipts the stored cursors are the join of the receipts accepted from that reader |
| Messaging.SameReceiptsSameCursor | apps/server/internal/communication/handler.go:237-266 | Two traces in which the same receipts of a reader are accepted, in any order and any number of times and with any other traffic in between, leave the same cursors |
| Messaging.CursorIsLeast | apps/server/internal/communication/handler.go:257 | The stored cursors are the least ones above the first ones and above every accepted receipt |
| Messaging.CursorsAreGreatest | apps/server/internal/communication/handler.go:237-266 | In every trace: the delivered cursor is the greatest message of the peer that was acknowledged, the read cursor the greatest whose reading was reported with read receipts on, so a reader who shares none keeps the first value |
| Messaging.PeerIsToldOfProgress | apps/server/internal/communication/handler.go:249-265 | A receipt that names no message of the peer changes nothing; otherwise the peer is told exactly when a cursor of that reader moves, and no other cursor does |
| Messaging.UnreadUntilReadPast | apps/server/internal/communication/handler.go:223-263 | In every trace a message of the peer is unread exactly until the reader reads up to it or past it, with read receipts on or off; deliveries, resends and other readers make no difference |
| Messaging.ReadingLeavesTheRest | apps/server/internal/communication/handler.go:261-263 | After reading up to X exactly the still-unread messages beyond X are unread; other readers and connections are not affected |
| Messaging.UnreadArePeerMessages | apps/server/internal/communication/conversations.go:12 | What is counted unread are messages of the peer in that connection |
| Messaging.SendingAddsOneUnread | apps/server/internal/communication/handler.go:223 | A stored message adds exactly one unread message, for the peer only |
| CommitOrder.CommitRefinesSend | apps/server/internal/communication/handler.go:204-227 | With lock, write and commit as separate steps of concurrent transactions, each commit is one run of the send transaction, on a connection that has not ended |
| CommitOrder.NextKeeps | apps/server/internal/communication/handler.go:204-227 | Every step of every transaction keeps the lock discipline and the message invariant |
| CommitOrder.MessagesAscendInCommitOrder | apps/server/internal/communication/handler.go:204-227 | In every interleaving the messages of a connection become visible in ascending order of their ids |
| CommitOrder.NothingAfterTheEnd | apps/server/internal/social/social.go:118-135 | Once a connection has ended, by a removal or by a block whose update found its row, no message of it is ever committed again, however many sends were in flight |
| BlockedSends.CommitsUnderBlockExactly | apps/server/internal/communication/handler.go:108-113 | With the authorising read as a step of its own: while a block stands, a message of the pair can still become visible in some continuation exactly when its connection has not ended, its key is not stored, and its send was authorised before and is under way |
| BlockedSends.LateMessageExactly | apps/server/internal/social/social.go:122-135 | In every execution, when a block commits, a message can become visible after it exactly when the block's update missed the active row and the send was authorised before the block committed and is not stored yet |
| BlockedSends.NothingOnLaterConnection | apps/server/internal/communication/handler.go:112 | A connection made while the block stands never carries a message under it |
| BlockedSends.BlockMissesSend | apps/server/internal/social/social.go:122-135 | A concrete execution in which such a message can follow the block |
| BlockedSends.EndedByItsOwnEnding | apps/server/internal/social/social.go:118-135 | In every execution a connection ends exactly with the commit of an ending that has updated its row: a block only rows of its pair, a removal a single row |
| Timeline.FetchPage | apps/server/internal/communication/handler.go:165-188 | The newest 60 messages below `before`, newest first; what is left out is older than all of a full page |
| Paging.ThreadGrows | apps/server/internal/communication/handler.go:204-227 | Between any two points of any execution of the sending, removing and blocking transactions a connection's messages only grow, by larger ids |
| Paging.PagingIsComplete | apps/server/internal/communication/handler.go:165-188 | In every execution: following `before` from the newest page, with pages read at successive points, at most |messages| / 60 full pages come first, and a short page completes exactly the messages committed at the first read, each once and in order |
| Conversation.Screen.Merge | apps/web/components/communication/messages.tsx:144-150 | The Map and sort of the client give the latest item of each id in ascending order |
| Conversation.Screen.Load | apps/web/components/communication/messages.tsx:127-151 | For a page read before or after the sends on screen: the timeline stays strictly ascending, holds only messages of the connection, is the union of old items and page; it is unbroken afterwards exactly when every message missing between its ends existed at the read and was among the newest 60, for a fresh page on an unbroken screen exactly when at most 60 are newer than its last item; and hiding the button for older messages is right exactly when the page is short, the flag for exhausted history is not set, there are at most 60 messages, or the screen already reached the first one |
| Conversation.LateReloadGap | apps/web/components/communication/messages.tsx:144-150 | That gap condition for every screen and every page, however late it is merged |
| Conversation.Screen.LoadRefused | apps/web/components/communication/messages.tsx:131-141 | A refused reload clears the screen and keeps the flag: history counts as exhausted without being on screen exactly when it had been exhausted before |
| Conversation.Screen.OlderFrom | apps/web/components/communication/messages.tsx:245-251 | Older messages are asked for below the lowest item on screen, and not at all from an empty one |
| Conversation.ReloadGap | apps/web/components/communication/messages.tsx:144-150 | For every screen and page: the merged timeline is unbroken exactly when each message missing from the screen has at most 60 messages not older than it |
| Conversation.ReloadOfUnbroken | apps/web/components/communication/messages.tsx:144-150 | For an unbroken screen that is exactly when at most 60 messages are newer than its last item |
| Conversation.ReloadAfterSends | apps/web/components/communication/messages.tsx:144-150 | For an unbroken part with answered sends behind it: the reload closes the gaps exactly when every unseen message since that part is among the newest 60, for which 60 messages since then are enough |
| Conversation.NewestPageHolds | apps/server/internal/communication/handler.go:167 | The newest page holds a message exactly when at most 60 messages are not older than it |
| Conversation.Screen.Older | apps/web/components/communication/messages.tsx:257-262 | One request at a time: the page goes in front without gap or repetition, after a short page the timeline reaches the first message, and the button is hidden only then |
| Conversation.OlderKeeps | apps/web/components/communication/messages.tsx:258-261 | The same for every timeline and page |
| Conversation.LateOlder | apps/web/components/communication/messages.tsx:260 | A late page leaves the timeline ascending exactly when its newest item is older than what is now first |
| Conversation.ReloadsStayAbove | apps/web/components/communication/messages.tsx:123-172 | A reload never reaches below a `before` with at least 60 messages at or above it, so reloads may overlap a request for older messages |
| Conversation.SentGap | apps/web/components/communication/messages.tsx:229-233 | An answered send leaves the timeline unbroken exactly when no unseen message lies between it and the screen |
| Conversation.Screen.BeginSend | apps/web/components/communication/messages.tsx:207-215 | A blank draft posts nothing; the token is used again exactly while the trimmed draft is the same |
| Conversation.Screen.SendAnswered | apps/web/components/communication/messages.tsx:227-236 | The answer joins the timeline, and draft and token are cleared |
| Conversation.SameTokenIffUnedited | apps/web/components/communication/messages.tsx:211-215 | Two unanswered tries carry the same client id exactly when the draft was not edited in between |
| Conversation.StoredIffDelivered | apps/server/internal/communication/handler.go:218 | By induction over all tries: a token has a stored message exactly when one of its tries was delivered, and it is the draft in its connection |
| Conversation.ExactlyOnce | apps/web/components/communication/messages.tsx:207-243 | However many requests and answers are lost, in whatever order and however late or often the others arrive, and whatever else happens meanwhile: the tries under one token store exactly one message if any was delivered, and none otherwise |
| Conversation.OneDraftOneMessage | apps/web/components/communication/messages.tsx:207-243 | All tries of an unedited draft together store one message |
| Conversation.SameMessageIffUnedited | apps/web/components/communication/messages.tsx:211-215 | Two delivered tries are one message exactly when the draft was not edited between them; an edited and restored draft is stored twice |
| Moments.MomentStore.PublishMoment | apps/server/internal/communication/moments.go:74-106 | In place: refused exactly at three unexpired moments, otherwise inserted with the snapshot of the author's open, unblocked connections |
| Moments.VisibleOnPublication | apps/server/internal/communication/moments.go:98-101 | At publication a moment is visible to its author and to exactly those sharing an open, unblocked connection |
| Audience.SeenExactly | apps/server/internal/communication/moments.go:30-36 | Over every run after publication, unless deleted: the author sees a moment for exactly 24 hours, somebody else within them exactly while a connection the two shared at publication has been ended by nobody and neither blocks the other |
| Audience.DeletedForGood | apps/server/internal/communication/moments.go:109-129 | Deleting is the author's alone, hides the moment from everybody in every run after it, and touches no other moment |
| Moments.MomentStore.DeleteMoment | apps/server/internal/communication/moments.go:109-129 | Deletes only the author's own moment, and its audience |
| Moments.MomentStore.Cleanup | apps/server/internal/communication/moments.go:131-145 | Deletes what the query already hides: visibility is the same whether or not it ran |
| Moments.MomentStore.List | apps/server/internal/communication/moments.go:30-36 | The listing holds exactly the moments that are visible |
| Moments.ComesBackExactlyWhenOnlyBlocked | apps/server/internal/communication/moments.go:30-36 | A published moment hidden from a viewer can be seen again in some continuation exactly when it is alive and an audience connection of the viewer is still open, so that only a block hides it |
| Moments.VisibilityNeverComesBack | apps/server/internal/communication/moments.go:98-101 | When every block's update sees the open audience rows of its pair, a moment once invisible stays so across removal, block, unblock, reconnection and expiry |
| Sharing.IsStep | apps/server/internal/social/social.go:118-139 | On the tables: each removal, block, unblock, persisted or reported match that runs alone is one legal step of the feed, and a block misses no row |
| Sharing.HiddenStaysHidden | apps/server/internal/communication/moments.go:98-101 | Of the tables themselves: in every trace of such transactions and of moments published, deleted, cleaned up and expiring, a moment once invisible to a viewer after publication is never seen by that viewer again |
| Moments.MissedRowLetsItComeBack | apps/server/internal/social/social.go:122-139 | When the update misses a row inserted concurrently: a legal run from the start, and a block and an unblock after it that hide a moment and bring it back |
| Moments.MovesKeepQuota | apps/server/internal/communication/moments.go:74-106 | With lock, insert and commit as separate steps, every step keeps the quota invariant |
| Moments.AtMostThree | apps/server/internal/communication/moments.go:80-94 | In every interleaving an author has at most three unexpired moments |
| Preferences.Unique | apps/server/internal/discovery/protocol.go:116-131 | Fails exactly on an invalid item; otherwise the sorted, repetition-free set of normal forms |
| Preferences.NormalizePreferences | apps/server/internal/discovery/protocol.go:93-114 | Accepts exactly the acceptable requests, returns a canonical form made of the normal forms of the items, and leaves a canonical form alone (idempotence) |
| Preferences.LanguageIsNormal | apps/server/internal/discovery/protocol.go:93-131 | A language counts exactly when it is two or three small letters, alone or with a dash and two capitals, between blanks, and counts as what stands there |
| Preferences.InterestIsNormal | apps/server/internal/discovery/protocol.go:93-131 | An interest counts exactly when it is one of the twelve in any case between blanks |
| Preferences.CanonicalFormDependsOnItems | apps/server/internal/discovery/protocol.go:93-131 | Two accepted requests with the same items in any order and multiplicity have one canonical form |
| Preferences.SharedInterestsSymmetric | apps/server/internal/discovery/store.go:220-233 | Both members of a pair see the same list, which is exactly the intersection |
| Preferences.SharedInterestsCount | apps/server/internal/discovery/handler.go:228-235 | For lists without repetition the rank of a candidate is the size of the intersection |
| Preferences.CompatibleExactlyWhenSuited | apps/server/internal/discovery/store.go:205-218 | Compatible exactly when the language sets meet and the intents are equal or one is surprise_me and neither is dating |
| Preferences.IntentOfPair | apps/server/internal/discovery/handler.go:288-293 | The intent of a match is the one asked for that is not surprise_me, if there is one |
| Preferences.PairIsSymmetric | apps/server/internal/discovery/store.go:205-218 | For either order of asking, compatible exactly when suited, with the same resolved intent, which is dating only if both chose it |
| Credentials.FormatParse | internal/ice/credentials.go:37-47 | Decimal printing and parsing are inverse on exactly the 64-bit integers, and the text has no colon |
| Credentials.UsernameRoundTrip | internal/ice/credentials.go:37-46 | The first-colon split reads an issued username back as its expiry and subject |
| Credentials.IssuedExactlyWhenSound | internal/ice/credentials.go:32-39 | Credentials are issued exactly for a secret of at least 32 bytes, a lifetime above zero and of at most an hour, and a non-empty subject without a colon, and the username reads back as the second of expiry and the subject |
| Credentials.ParseAccepts | internal/ice/credentials.go:47 | Nothing but an optional sign and digits is read as an expiry |
| Credentials.IssuedIsValid | internal/ice/credentials.go:32-49 | At any time, an issued username is valid exactly within 128 bytes, in a second before the second of its expiry, and at most an hour ahead of it |
| Credentials.ValidUntilExpiry | internal/ice/credentials.go:32-49 | For every time from its issue on: valid exactly while floor(t) < floor(expiry), if it fits 128 bytes; never otherwise |
| Credentials.UsableAtIssue | internal/ice/credentials.go:33-38 | Usable when issued exactly if it fits and its lifetime reaches into another second |
| Credentials.AcceptedForAnHourAtMost | internal/ice/credentials.go:45-49 | Any text at all is accepted during one stretch of less than 3600 whole seconds |
| Credentials.UsernamesAreDistinct | internal/ice/credentials.go:37 | Different expiries or subjects never share a username |

## Left out

- HTTP, WebSocket and JSON plumbing, origin and session checks, logging and configuration: input and output only.
- HMAC, base64, random bytes, and the internals of Redis and PostgreSQL: assumed to do what their contracts say. `Credentials` proves the username, not the password derived from it.
- Preferences at claim time: the claim script does not reread them, so compatibility of a claimed pair is stated relative to the page that `TryMatch` has read.
- Blocked pairs and active connections: PersistConnection does not consult blocks, so a blocked pair may have an active connection; no such invariant is claimed.
- Authorisation lookups that precede the message and receipt transactions: `Messaging` starts after them; for sends `CommitOrder` has them as a step, without the account status, which never changes.
- The match.found that is written straight to a returning user's own socket: the log holds what is published.
- Profile data carried by match.found, and the time to live renewed by heartbeats: lapse steps at arbitrary times stand for every expiry.
- Redis errors in the middle of a loop of Candidates, tryMatch or Sweep: a loop that stops early has run some of its steps, each of which keeps the invariants.
- ReportConnection, profile editing, settings, typing, push of call signals, presence listing: single statements or branches.
- The check that an encounter ends no earlier than it starts, report details, and account status changes, which nothing in the modelled code writes.
- The ordering and the limit of 100 of the moments listing: `List` states which moments are eligible.
- Unicode trimming and case folding: text is ASCII where it is trimmed or lowered, and one `char` per byte in `Credentials`.
- Two overlapping requests for older messages in the client: `Older` is stated for one at a time, with `LateOlder` for a late answer.
- Rendering, scrolling, camera, canvas and WebRTC media code: browser interfaces.
- The networking lab: a smaller two-slot version of the discovery protocol.
- Moments.MomentStore.PublishMoment: does not model the checks of body and tone, which come before the transaction.
- A process that dies between reserving a call and compensating for a failed insert: the reservation then lapses by itself.
