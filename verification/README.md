# A model of the teamcomm daemon

The teamcomm daemon lets coding agents on one machine register sessions, claim advisory locks on paths, post
messages to each other and publish what they are working on. This project models its coordination core in Dafny
and proves what agents may rely on.

| file | what it holds |
|---|---|
| `Protocol.dfy`, `Paths.dfy` | the records, requests and answers of the protocol; lock modes; claim expiry; path equality and prefixes |
| `Steps.dfy` | the five maps as a value, and what each locked handler section does to it |
| `Handlers.dfy` | the fourteen handlers as methods of a class that edits the maps in place, proved against the steps |
| `Invariants.dfy`, `Mailboxes.dfy` | what every step keeps; what a scan of a mailbox does |
| `Runs.dfy`, `Locks.dfy`, `Deliveries.dfy`, `RoundTrips.dfy`, `Discovery.dfy`, `AnswerLaws.dfy` | properties of whole sequential runs; what every request answers |
| `Listener.dfy` | one connection: the loop over its input lines |
| `Concurrency.dfy`, `Interleavings.dfy` | many connections, clock samples apart from lock sections, drops and shutdown |
| `Heartbeats.dfy`, `Expiry.dfy`, `Losses.dfy`, `LostClaims.dfy` | what the clock samples and lost responses of interleavings do to heartbeats, expiry, delivery and claims |
| `Scenarios.dfy` | concrete behaviours, for what can happen |
| `Clients.dfy` | the client handle, and a client on a connection of the concurrent daemon |
| `Db.dfy`, `StoreLaws.dfy`, `Mirror.dfy` | the relational store; what it keeps over any calls; the handlers and the store in step |
| `Rfc3339.dfy`, `ListInbox.dfy` | timestamps as text; the ordered inbox query |

How it fits together. A handler step (`Steps.Step`) takes the shared state, a request, the handler's clock sample
and an identifier that was never minted before. Results drawn from hash maps are sets in the model, and the class
methods send some listing of them. A run is a sequence of steps with *arbitrary* samples, because `register`,
`heartbeat` and `claim` read the clock before they take the lock; so what is proved of runs needs no order of the
samples. A system interleaves connections freely, and its lock sections in lock order form such a run, so the
properties of runs hold of every interleaving.

"Granted" means that the conflicts reported to a claim were empty.

## Where the code differs from what is written about it

The model follows the code.

- A claim is inserted even when conflicts are reported (`handlers.rs` 237-249); `reservation.rs` 57-61 and
  `ARCHITECTURE.md` 161-169 say otherwise. See `AnswerLaws.ClaimInserts`, and `Expiry.LateClaimStillReports` for an input.
- Deregistration removes the session and its pid entry only (`handlers.rs` 116-120), although `ARCHITECTURE.md` 145
  has it release reservations. `Locks.HolderIsGone` is a run where the holder is gone, and `RoundTrips.OwnersAreKnownIff`
  says when every holder is registered.
- Deregistration also leaves live state, so live state is not "always associated with a known session"
  (`ARCHITECTURE.md` 273). `RoundTrips.LiveStateOfNobody` is a run where it is not, `RoundTrips.LiveStateIsKnownIff` says
  exactly when it is, and `Discovery.DeadLiveStateStaysSilent` what remains visible.
- Modes do not conflict by strength (`reservation.rs` 10-11); `Protocol.ConflictIsStrengthIff` says where that rule agrees.
- `expires_at` is not always `acquired_at + ttl_sec`: the ttl is cast to a signed number, so from 2^63 up a claim is
  born expired, and a ttl too large for a timestamp panics. See `Protocol.ClaimInForceIff` and `Protocol.LargestTtls`.
- Locks compare paths by components, listings by text prefix, so a listing can miss a blocking reservation
  (`Locks.ListingShowsIff`); with canonically spelled paths it does not (`Locks.ListingExplainsCanonical`).
- `last_heartbeat` is not monotone when calls overlap (`Heartbeats.HeartbeatCanGoBack`); without overlap it is
  (`Heartbeats.HeartbeatMonotone`, `Heartbeats.HeartbeatLoweredIff`).
- The pid is truncated to 32 bits, so pids equal modulo 2^32 share a session (`Runs.ReRegisterIff`).
- "Marked as read upon delivery" (`ARCHITECTURE.md` 186) means when the list is applied: the messages of a list whose
  connection drops before the response stay marked, and no later unread list returns them (`Losses.ListCanBeLost`).
  An `inbox.read` or a plain list still does; `Losses.MarkedReceivedIff` says exactly when a marked message was received.
  The identifier of a claimed reservation can be lost in the same way (`LostClaims.ToldIff`, `LostClaims.GrantCanBeLost`).
- `delete_session` drops the index row of the session's pid whoever it names (`Db.DeleteLosesNamesakeIff`); with the
  handlers' calls it never names another session (`Mirror.RunMirrored`).
- Text order of timestamps is time order only up to the year 9999, and rows with equal timestamps have no order
  (`Rfc3339.TextOrderIff`, `ListInbox.StoreListsPostingOrder`).

## Model

| member | source | states |
|---|---|---|
| `Interleavings.Linearizable` | crates/teamcomm-daemon/src/listener.rs:187-266 | in every interleaving, with connections dropped anywhere, the shared state is the end of a sequential run in lock order; each connection wrote the responses to its own lines in order, answered by its own steps; the run respects real time; at most one applied step per connection is unanswered |
| `Interleavings.LockSafety` | crates/teamcomm-daemon/src/handlers.rs:214-258 | at the current clock of every reachable system: an exclusive holder that was told of no conflict is the only such holder of the path, and at most one session holds it for writing |
| `Interleavings.ConflictWasReported` | crates/teamcomm-daemon/src/handlers.rs:214-249 | of two unexpired conflicting reservations of different sessions, the claim applied second reported the first, although claims sample the clock before the lock |
| `Interleavings.RealTimeOrder` | crates/teamcomm-daemon/src/listener.rs:256-264 | a step lies between the reading of its request and the writing of its answer; a request read after another was answered comes later in the run |
| `Interleavings.AtMostOneUnanswered` | crates/teamcomm-daemon/src/listener.rs:100-113 | two applied but unanswered steps of one connection are the same step |
| `Interleavings.LostStaysLost` | crates/teamcomm-daemon/src/listener.rs:261-264 | an answer that was not written when its connection went is never written later |
| `Losses.MarkedReceivedIff` | crates/teamcomm-daemon/src/handlers.rs:396-432 | in every interleaving, a message marked read by a step is in some written response exactly if that step was answered, or a later answered request asked for it read or not: an `inbox.read` of its identifier, or a plain list whose limit reaches its position |
| `Losses.OnlyUnreadListsLose` | crates/teamcomm-daemon/src/handlers.rs:385-407 | so agents that only list unread messages miss a marked message exactly if the list that marked it went unanswered |
| `Losses.UnreadNotReceived` | crates/teamcomm-daemon/src/handlers.rs:396-432 | a message that is still unread is in no written response |
| `Losses.ListCanBeLost` | crates/teamcomm-daemon/src/listener.rs:100-113 | a reachable system where an unread list marked a message, its connection was dropped, and nobody received the message |
| `LostClaims.ToldIff` | crates/teamcomm-daemon/src/handlers.rs:225-257 | in every interleaving, the identifier of a claimed reservation is in some written response exactly if its claim was answered, or a later answered listing or claim found it unexpired and listed or reported it |
| `LostClaims.NamesIff` | crates/teamcomm-daemon/src/handlers.rs:225-311 | of the steps of a run, those that name the reservation claimed by step m are step m and exactly the later listings and claims that show it |
| `LostClaims.GrantCanBeLost` | crates/teamcomm-daemon/src/listener.rs:100-113 | a reachable system with an exclusive reservation granted without conflict and in force that nobody was told of |
| `Interleavings.WrittenIff` | crates/teamcomm-daemon/src/listener.rs:215-264 | what was written to connections is what the answered steps answered, for any property of answers that parse and size errors lack |
| `Losses.ReceivedIff` | crates/teamcomm-daemon/src/listener.rs:256-264 | a message is in some written response exactly if a step that returned it was answered |
| `Losses.CarriesIff` | crates/teamcomm-daemon/src/handlers.rs:392-432 | of the steps of a run, those that return a message that step m marks are step m and exactly the later ones that ask for it read or not |
| `Losses.ReadWasMarked` | crates/teamcomm-daemon/src/handlers.rs:362-430 | every read message was marked by a step of the run |
| `Interleavings.CrashesTouchNothing` | crates/teamcomm-daemon/src/handlers.rs:214-217 | no step of the lock order is a crash: a claim whose expiry overflows dies before the lock |
| `Interleavings.PanicClosesIff` | crates/teamcomm-daemon/src/handlers.rs:214-217 | reading the clock takes a connection down exactly for a claim in order whose expiry cannot be represented, and leaves the shared state alone |
| `Interleavings.ClosedStaysClosed` | crates/teamcomm-daemon/src/listener.rs:187-266 | a connection that is gone reads, applies and writes nothing more |
| `Interleavings.NoneAcceptedAfterShutdown` | crates/teamcomm-daemon/src/listener.rs:67-102 | once shutdown began no connection is accepted |
| `Interleavings.MailboxInTimeOrder` | crates/teamcomm-daemon/src/handlers.rs:347-371 | every mailbox is in timestamp order, since messages are stamped under the lock |
| `Heartbeats.HeartbeatLoweredIff` | crates/teamcomm-daemon/src/handlers.rs:74-159 | in every interleaving, a step lowers the heartbeat of a session exactly when it touches it with a sample below that of the last step that touched it, and only if it read its request before that one was applied |
| `Heartbeats.HeartbeatMonotone` | crates/teamcomm-daemon/src/handlers.rs:140-147 | the heartbeat of a session whose registrations and heartbeats do not overlap never goes back |
| `Heartbeats.HeartbeatCanGoBack` | crates/teamcomm-daemon/src/handlers.rs:140-147 | of two heartbeats that overlap, the one that read the clock first can get the lock last: a reachable behaviour in which `last_heartbeat` decreases although the clock does not |
| `Expiry.ListingShowsUnexpired` | crates/teamcomm-daemon/src/handlers.rs:297-308 | a listing shows exactly the held reservations under its prefix that are unexpired at the clock of its lock section |
| `Expiry.ExpiredNeverListed` | crates/teamcomm-daemon/src/handlers.rs:297-303 | once the clock has reached its expiry, a reservation is never listed again |
| `Expiry.ClaimReportsUnexpired` | crates/teamcomm-daemon/src/handlers.rs:214-235 | a claim reports exactly the blocking reservations that were unexpired when its connection read the clock, however late it gets the lock |
| `Expiry.ExpiredNeverReported` | crates/teamcomm-daemon/src/handlers.rs:214-235 | once the clock has reached its expiry, no claim that reads the clock from then on reports a reservation |
| `Expiry.LateClaimStillReports` | crates/teamcomm-daemon/src/handlers.rs:214-249 | the bound is sharp: a claim that read the clock before the expiry and got the lock after it still reports the reservation, and is inserted beside it |
| `Expiry.ClaimSample` | crates/teamcomm-daemon/src/handlers.rs:214-217 | the sample of a claim is the clock at the event where its connection last read it |
| `Expiry.EarlySample` | crates/teamcomm-daemon/src/handlers.rs:74-214 | registrations, heartbeats and claims carry the clock of the event where their connection last read it, before the lock |
| `Expiry.LateSample` | crates/teamcomm-daemon/src/handlers.rs:298-481 | listings, posts and `state.set` carry the clock of their lock section |
| `AnswerLaws.ClaimAnswers` | crates/teamcomm-daemon/src/handlers.rs:191-258 | how a claim answers depends on its parameters, whether its expiry can be represented and whether its session is registered, and on nothing else that is held: InvalidParams, a crash, NotFound, or its new identifier |
| `AnswerLaws.ClaimInserts` | crates/teamcomm-daemon/src/handlers.rs:219-257 | a claim in order is inserted field by field as asked, beside all that was held, whether or not others block it, and reports exactly those that do |
| `AnswerLaws.ReleaseAnswers` | crates/teamcomm-daemon/src/handlers.rs:273-284 | a release succeeds exactly for a reservation that was claimed and not released since |
| `AnswerLaws.ListingAnswers` | crates/teamcomm-daemon/src/handlers.rs:297-310 | a listing is never refused and holds exactly the unexpired reservations whose text has the prefix |
| `AnswerLaws.RegisterAnswers` | crates/teamcomm-daemon/src/handlers.rs:45-99 | a registration with a pid always answers a session and a lease of 90 seconds |
| `AnswerLaws.DeregisterAnswers` | ARCHITECTURE.md:150 | deregistering succeeds for known and unknown sessions alike |
| `AnswerLaws.HeartbeatAnswers` | crates/teamcomm-daemon/src/handlers.rs:134-158 | a heartbeat succeeds, with an interval of 30 seconds, exactly for a session that was created and not deregistered since |
| `AnswerLaws.SessionGetReturns` | crates/teamcomm-daemon/src/handlers.rs:169-182 | `session.get` answers with what was registered and the sample of the last touch exactly as long as the session was not deregistered, and then NotFound |
| `AnswerLaws.SessionGetUnknown` | crates/teamcomm-daemon/src/handlers.rs:176-181 | it answers NotFound for an identifier that no registration created |
| `AnswerLaws.SessionListReturns` | crates/teamcomm-daemon/src/handlers.rs:162-166 | `session.list` holds exactly the sessions created and not deregistered, each as `session.get` would answer |
| `AnswerLaws.PostAnswers` | crates/teamcomm-daemon/src/handlers.rs:317-374 | a post needs a registered sender and a known priority, and nothing of its recipient |
| `AnswerLaws.ListAnswers` | crates/teamcomm-daemon/src/handlers.rs:385-416 | `inbox.list` answers the messages asked for in posting order, marked: the first fifty without a limit, all with limit zero, else the first `limit` |
| `AnswerLaws.ReadAnswers` | crates/teamcomm-daemon/src/handlers.rs:427-436 | `inbox.read` succeeds exactly for an identifier that an earlier post returned |
| `AnswerLaws.StateSetAnswers` | crates/teamcomm-daemon/src/handlers.rs:443-487 | `state.set` is accepted exactly for a registered session and a known status, however often |
| `AnswerLaws.StateGetAnswers` | crates/teamcomm-daemon/src/handlers.rs:498-503 | `state.get` succeeds exactly for an identifier that live state was ever published for |
| `AnswerLaws.DiscoverAnswers` | crates/teamcomm-daemon/src/handlers.rs:509-572 | in the answer of `discover.agents` a session has a summary exactly when it satisfies every given filter, just one, with its own pid, heartbeat and defaulted live status |
| `AnswerLaws.MissingIdAnswers` | crates/teamcomm-daemon/src/listener.rs:286 | requests without a required identifier are InvalidParams; unknown methods are MethodNotFound |
| `AnswerLaws.WasCreated` | crates/teamcomm-daemon/src/handlers.rs:586-598 | every registered session was created by a registration of the run |
| `AnswerLaws.InBoxWasPosted` | crates/teamcomm-daemon/src/handlers.rs:366-370 | every message in a mailbox was posted to it by a step that returned its identifier |
| `Locks.ReportIsExact` | crates/teamcomm-daemon/src/handlers.rs:224-249 | of two reservations held together, the later claim reported the earlier exactly when sessions differ, paths are equal, modes conflict and the earlier was unexpired at the later sample; never the other way round |
| `Locks.Accountability` | crates/teamcomm-daemon/src/handlers.rs:214-258 | at any instant not before the samples of the run, of two unexpired conflicting reservations the second claim was told of the first, in whatever order the samples were taken |
| `Locks.MutualExclusion` | crates/teamcomm-daemon/src/handlers.rs:224-249 | unexpired reservations granted without conflict are pairwise compatible across sessions, over all runs |
| `Locks.ReadersAndWriters` | crates/teamcomm-protocol/src/reservation.rs:15-22 | per path, an exclusive holder is alone, and at most one session writes beside any number of readers |
| `Locks.HeldWasClaimed` | crates/teamcomm-daemon/src/handlers.rs:217-249 | every reservation in the map is what one earlier claim asked for, by a session registered at that step |
| `Locks.ReservationPersists` | crates/teamcomm-daemon/src/handlers.rs:247-281 | a reservation in the map has been there unchanged since its identifier was minted |
| `Locks.ClaimEffect` | crates/teamcomm-daemon/src/handlers.rs:219-257 | a claim inserts under a new identifier whether or not others block it, and reports exactly the blocking reservations |
| `Locks.ClaimedOnce` | crates/teamcomm-daemon/src/state.rs:58-61 | no reservation identifier is claimed twice |
| `Locks.ReleasedOnce` | crates/teamcomm-daemon/src/handlers.rs:273-284 | after a successful release every later release of that identifier answers NotFound |
| `Locks.DeregisterReleasesNothing` | ARCHITECTURE.md:145 | the documented release of reservations at deregistration happens exactly for sessions that had none; live state and mailboxes stay too |
| `Locks.HolderIsGone` | crates/teamcomm-daemon/src/handlers.rs:106-126 | a run after which a reservation is held by a session that is not registered |
| `RoundTrips.OwnersAreKnownIff` | ARCHITECTURE.md:145 | over any run, every held reservation is of a registered session exactly if all that a session held when it was deregistered were released by request since |
| `Locks.ListingShowsIff` | crates/teamcomm-daemon/src/handlers.rs:305-308 | of the reservations that block a claim, a listing of the claimed path shows exactly those whose text extends its text |
| `Locks.ListingExplainsCanonical` | crates/teamcomm-daemon/src/handlers.rs:229-308 | where all paths are spelled canonically, a listing of the claimed path shows everything that blocks the claim |
| `Locks.ListingMissesBlocker` | crates/teamcomm-daemon/src/handlers.rs:229-308 | a reservation of `a//b` blocks `a/b` and is missing from the listing of `a/b` |
| `RoundTrips.ReservationLasts` | crates/teamcomm-daemon/src/handlers.rs:247-281 | a claimed reservation is in the map exactly until its identifier is released; neither expiry nor deregistration removes it |
| `RoundTrips.ListingShowsClaim` | crates/teamcomm-daemon/src/handlers.rs:209-311 | a later listing shows a claim, field by field as it was asked for with its defaults, exactly when it was not released and has not expired |
| `RoundTrips.NewReservationIsClaimed` | crates/teamcomm-protocol/src/reservation.rs:52-54 | the inserted reservation carries the fields of the claim; `expires_at` is `acquired_at + ttl` up to a ttl of 2^63 - 1 and in the past beyond |
| `RoundTrips.LiveStateLasts` | crates/teamcomm-daemon/src/handlers.rs:470-483 | the last live state that was sent for a session while it was registered stays, through every other step |
| `RoundTrips.GetReturnsLastSet` | crates/teamcomm-daemon/src/handlers.rs:470-503 | `state.get` answers, field by field, with the last live state that was sent for the identifier while it was registered, also after deregistration |
| `RoundTrips.LiveStateIsKnownIff` | ARCHITECTURE.md:273 | over any run, all live state is of registered sessions exactly as long as no session that had live state was deregistered |
| `RoundTrips.LiveStateOfNobody` | ARCHITECTURE.md:273 | it is not after a registration, a `state.set` and a deregistration |
| `RoundTrips.SessionKeepsRegistration` | crates/teamcomm-daemon/src/handlers.rs:578-599 | a session keeps what it was registered with; its heartbeat is the sample of the last step that touched it |
| `RoundTrips.HeartbeatIsLastTouch` | crates/teamcomm-daemon/src/handlers.rs:76-147 | at any point of any run the heartbeat of a session is the sample of the last step that touched it |
| `RoundTrips.ReadReturnsPosted` | crates/teamcomm-daemon/src/handlers.rs:354-432 | a message can be read at any later time by the identifier its post returned, and carries what was posted |
| `Deliveries.DeliveredExactlyOnce` | crates/teamcomm-daemon/src/handlers.rs:392-413 | without `inbox.read` and with unread lists only, the lists of a mailbox put together are exactly its read messages, which are its oldest, in posting order |
| `Deliveries.NeverDeliveredTwice` | crates/teamcomm-daemon/src/handlers.rs:392-413 | with `inbox.read` and any lists in between, an unread list returns no message that an earlier list returned |
| `Deliveries.ReadInPostingOrder` | crates/teamcomm-daemon/src/handlers.rs:396-407 | without `inbox.read`, the messages read in a mailbox are always its oldest |
| `Deliveries.MessagesConserved` | crates/teamcomm-daemon/src/handlers.rs:366-370 | a mailbox modulo read flags is the sequence of the successful posts to it, over any run |
| `Deliveries.DrainingTerminatesInRun` | crates/teamcomm-daemon/src/handlers.rs:396-407 | in any stretch of a run without posts to a mailbox and without `inbox.read`, whatever else happens, unread lists with limit k on u unread messages return k each while that many are left and then the rest: exactly ceil(u/k) are not empty |
| `Deliveries.ReadFlagsStick` | crates/teamcomm-daemon/src/handlers.rs:403-430 | messages keep their place and are never unread again |
| `Deliveries.DistinctInOneList` | crates/teamcomm-daemon/src/handlers.rs:409-413 | one list returns no message twice |
| `Deliveries.MailboxStep` | crates/teamcomm-daemon/src/handlers.rs:366-430 | all a step can do to a mailbox: append its own post, scan it, or mark one message |
| `Deliveries.InboxFrame` | crates/teamcomm-daemon/src/handlers.rs:41-573 | no session, reservation or state step touches the inbox |
| `Mailboxes.DeliverCounts` | crates/teamcomm-protocol/src/inbox.rs:51-53 | a list returns min(limit, matching) messages, and they no longer match an unread list |
| `Mailboxes.UnreadScanContinues` | crates/teamcomm-daemon/src/handlers.rs:396-413 | after the first `done` messages were read, an unread list returns exactly the next ones |
| `Mailboxes.IdsPickTaken` | crates/teamcomm-daemon/src/handlers.rs:403-413 | selecting by collected identifier touches exactly the positions the first pass took, when identifiers are distinct |
| `Mailboxes.TakenIffAmongFirst` | crates/teamcomm-protocol/src/inbox.rs:49-53 | a list takes a message exactly when it matches and fewer than `limit` matching ones come before it; with limit 0, whenever it matches |
| `Mailboxes.DeliverNextMarks` | crates/teamcomm-daemon/src/handlers.rs:403-407 | what the whole scan leaves at each position |
| `Mailboxes.DeliverIsFilterAndTake` | crates/teamcomm-daemon/src/handlers.rs:396-413 | a scan delivers, marked and in mailbox order, the first messages that pass the filter |
| `Runs.ReRegisterIff` | ARCHITECTURE.md:148 | two registrations return the same identifier exactly when their pids agree modulo 2^32 and that identifier was not deregistered in between |
| `Runs.DeregisteredNeverReturns` | crates/teamcomm-daemon/src/handlers.rs:116-120 | a deregistered identifier never names a session again and no registration returns it |
| `Runs.SessionLasts` | crates/teamcomm-daemon/src/handlers.rs:116-120 | a minted identifier names a session, with the same pid, exactly until its own deregistration |
| `Runs.RunRegister` | crates/teamcomm-daemon/src/handlers.rs:79-91 | a registration returns the only session of its pid, which is new if there was none |
| `Runs.SessionFrame` | crates/teamcomm-daemon/src/handlers.rs:187-573 | no other handler touches the sessions or the pid index |
| `Runs.RunInv` | crates/teamcomm-daemon/src/state.rs:22-40 | the invariant of the five maps holds in every state of every run |
| `Invariants.StepKeepsInv` | crates/teamcomm-daemon/src/handlers.rs:41-573 | every handler keeps the pid bijection, the keying of all maps, freshness of identifiers and global uniqueness of message identifiers |
| `Invariants.OutOfSyncUnreachable` | crates/teamcomm-daemon/src/handlers.rs:84-88 | the recovery branch of register is unreachable, and a pid has at most one session |
| `Invariants.RegisterKeepsInv` | crates/teamcomm-daemon/src/handlers.rs:77-91 | registering keeps the invariant, in both branches |
| `Invariants.DeregisterKeepsInv` | crates/teamcomm-daemon/src/handlers.rs:116-120 | removing a session and its pid entry keeps the index a bijection |
| `Invariants.PostKeepsInv` | crates/teamcomm-daemon/src/handlers.rs:354-370 | posting keeps message identifiers globally unique and mailboxes keyed by recipient |
| `Invariants.InboxReadIsExact` | crates/teamcomm-daemon/src/handlers.rs:427-436 | `inbox.read` does not depend on the iteration order of the mailboxes: it marks the one message with that identifier, or nothing |
| `Invariants.MailboxDistinct` | crates/teamcomm-daemon/src/state.rs:38-65 | no identifier occurs twice in a mailbox |
| `Invariants.RefusalsChangeNothing` | crates/teamcomm-daemon/src/handlers.rs:219-222 | a refused or crashed request changes nothing, and acting for an unregistered session is always refused |
| `Discovery.DiscoverIsExact` | crates/teamcomm-daemon/src/handlers.rs:531-571 | of any state that satisfies the invariant, the summaries found are one for each session that satisfies all given filters, and no others |
| `Discovery.DeadLiveStateIsSilent` | crates/teamcomm-daemon/src/handlers.rs:106-126 | live state left by deregistered sessions changes no answer of the next step except that of `state.get` on such an identifier, and nothing else of the next state |
| `Discovery.DeadLiveStateStaysSilent` | crates/teamcomm-daemon/src/handlers.rs:106-126 | over two runs of the same steps that start with different such live state, the answers differ exactly at those `state.get` steps |
| `Listener.HandleConnection` | crates/teamcomm-daemon/src/listener.rs:187-266 | the loop handles a prefix of the input as a chain of handler steps and writes the responses in order; it stops early only at a failed write or a crash, losing one response |
| `Listener.ResponseInPlace` | crates/teamcomm-daemon/src/listener.rs:211-264 | one response per line that is not blank or a notification, in input order, each call under its own id with the answer of its own handler |
| `Listener.ResponseCount` | crates/teamcomm-daemon/src/listener.rs:211-264 | blank lines and notifications get no response, every other line one |
| `Listener.HandleLine` | crates/teamcomm-daemon/src/listener.rs:211-259 | a blank line or notification takes no step; a call takes one step with a fresh sample |
| `Listener.Turn` | crates/teamcomm-daemon/src/listener.rs:187-266 | one turn extends the handled prefix by one line, or loses its response |
| `Listener.Dispatch` | crates/teamcomm-daemon/src/listener.rs:270-288 | each method name takes the step of its handler and keeps the state invariant; others are refused |
| `Listener.Serve` | crates/teamcomm-daemon/src/listener.rs:256-259 | one dispatched call extends the recorded run by exactly its step and mints at most its identifier |
| `Clients.ResponsesPair` | crates/teamcomm-client/src/lib.rs:48-92 | the i-th line returned to the client is the response to the i-th line it sent: the answer of the step of its own connection that ran its i-th request, or, if that line was over the size limit, an error under id 0 that no step gave; what answers a line cut short by a broken write is never taken; no line is lost in a dropped buffer |
| `Clients.ResponseIdIff` | crates/teamcomm-daemon/src/listener.rs:215-227 | the unchecked id of a response differs from that of its request exactly for lines over the size limit |
| `Clients.CallReturns` | crates/teamcomm-client/src/lib.rs:81-91 | the i-th call that returns succeeds with a value exactly if that is what the step that ran its request answered and it is not a failure; it is an error exactly if the step failed or the line was over the size limit |
| `Clients.OneLineInFlight` | crates/teamcomm-client/src/lib.rs:68-79 | at most one response line is ever on its way |
| `Clients.ThenKeepsInv` | crates/teamcomm-client/src/lib.rs:48-92 | every step of client or daemon keeps them in step |
| `Clients.Client.Call` | crates/teamcomm-client/src/lib.rs:48-92 | when the stream is put back and when it is lost for good, and what is sent and returned in each case |
| `Clients.Client.constructor` | crates/teamcomm-client/src/lib.rs:33-40 | a connected handle holds its stream |
| `Concurrency.BehaviourInv` | crates/teamcomm-daemon/src/listener.rs:187-266 | the system invariant holds at every point of every behaviour |
| `Concurrency.ReachableInv` | crates/teamcomm-daemon/src/listener.rs:187-266 | every system that some behaviour passes through satisfies the system invariant |
| `Concurrency.NextKeepsInv` | crates/teamcomm-daemon/src/listener.rs:100-266 | every event, including shutdown and the drop of a connection, keeps it |
| `Concurrency.NextSampled` | crates/teamcomm-daemon/src/handlers.rs:298-481 | samples taken under the lock are not earlier than any sample of an earlier step; the others only lie before the clock |
| `Concurrency.NextReadsInOrder` | crates/teamcomm-daemon/src/handlers.rs:74-140 | a request read after another was applied has a sample that is not earlier: without overlap, samples follow the lock order |
| `Concurrency.NextAnswersWritten` | crates/teamcomm-daemon/src/listener.rs:256-264 | every step that counts as answered has its answer among the responses of its connection |
| `Concurrency.NextWrittenAnswered` | crates/teamcomm-daemon/src/listener.rs:215-264 | every written response is the answer of an answered step of its connection, or an error for a line that reached no handler |
| `Concurrency.NextSpeaks` | crates/teamcomm-daemon/src/listener.rs:256-264 | every connection keeps writing the responses to its own lines in order |
| `Concurrency.NextOneUnanswered` | crates/teamcomm-daemon/src/listener.rs:256-264 | an unanswered step is the one its connection is replying for |
| `Handlers.AppState.constructor` | crates/teamcomm-daemon/src/state.rs:46-48 | a fresh daemon starts with empty maps |
| `Handlers.AppState.SessionRegister` | crates/teamcomm-daemon/src/handlers.rs:41-100 | takes the registration step, returning the session of the truncated pid |
| `Handlers.AppState.InsertNewSession` | crates/teamcomm-daemon/src/handlers.rs:578-599 | adds one session and its index entry under the minted identifier |
| `Handlers.AppState.SessionDeregister` | crates/teamcomm-daemon/src/handlers.rs:106-126 | takes the deregistration step; an unknown session is a success |
| `Handlers.AppState.SessionHeartbeat` | crates/teamcomm-daemon/src/handlers.rs:130-159 | takes the heartbeat step with a sample taken before the lock |
| `Handlers.AppState.SessionListAll` | crates/teamcomm-daemon/src/handlers.rs:162-166 | lists every session exactly once, in some order |
| `Handlers.AppState.SessionGetOne` | crates/teamcomm-daemon/src/handlers.rs:169-182 | answers the session of that identifier or NotFound |
| `Handlers.AppState.ReservationClaim` | crates/teamcomm-daemon/src/handlers.rs:187-258 | takes the claim step: parameters, then expiry, then session, then insert and report |
| `Handlers.AppState.CollectConflicts` | crates/teamcomm-daemon/src/handlers.rs:225-235 | lists exactly the blocking reservations, each once |
| `Handlers.AppState.ReservationRelease` | crates/teamcomm-daemon/src/handlers.rs:261-285 | removes that reservation or answers NotFound |
| `Handlers.AppState.ReservationListActive` | crates/teamcomm-daemon/src/handlers.rs:288-311 | lists exactly the unexpired reservations under the prefix, each once |
| `Handlers.AppState.Retain` | crates/teamcomm-daemon/src/handlers.rs:305-308 | keeps exactly the reservations whose path text has the prefix |
| `Handlers.AppState.InboxPost` | crates/teamcomm-daemon/src/handlers.rs:316-375 | appends the message to the mailbox of its recipient |
| `Handlers.AppState.InboxListMessages` | crates/teamcomm-daemon/src/handlers.rs:378-417 | takes the listing step in place, keeping the invariant |
| `Handlers.AppState.ThreePasses` | crates/teamcomm-daemon/src/handlers.rs:392-413 | the three passes refine one scan that returns and marks the first `limit` matching messages, 0 meaning all |
| `Handlers.AppState.CollectIds` | crates/teamcomm-daemon/src/handlers.rs:396-401 | the first pass collects the identifiers of that scan |
| `Handlers.AppState.MarkRead` | crates/teamcomm-daemon/src/handlers.rs:403-407 | the second pass leaves the mailbox of that scan |
| `Handlers.AppState.Select` | crates/teamcomm-daemon/src/handlers.rs:409-413 | the third pass returns the messages of that scan, all now read |
| `Handlers.AppState.InboxReadOne` | crates/teamcomm-daemon/src/handlers.rs:420-437 | marks the first match and nothing else, or answers NotFound |
| `Handlers.AppState.FindMessage` | crates/teamcomm-daemon/src/handlers.rs:428-433 | finds a message with the identifier if any mailbox holds one |
| `Handlers.AppState.StateSetLive` | crates/teamcomm-daemon/src/handlers.rs:442-488 | replaces the live state of a registered session |
| `Handlers.AppState.StateGetLive` | crates/teamcomm-daemon/src/handlers.rs:491-504 | answers the live state of an identifier, registered or not |
| `Handlers.AppState.DiscoverAgents` | crates/teamcomm-daemon/src/handlers.rs:509-572 | answers the summaries of the matching sessions |
| `Handlers.AppState.CollectAgents` | crates/teamcomm-daemon/src/handlers.rs:531-569 | lists exactly the matching sessions, each once |
| `Protocol.ModeConflicts` | crates/teamcomm-daemon/src/handlers.rs:647-656 | modes are compatible exactly when one reads and the other is not exclusive |
| `Protocol.ConflictIsMutual` | crates/teamcomm-daemon/src/handlers.rs:647-656 | conflict between modes is symmetric, which accountability needs |
| `Protocol.ConflictIsStrengthIff` | crates/teamcomm-protocol/src/reservation.rs:10-11 | the documented rule of equal or stronger modes agrees with the table exactly for writing claims and exclusive holders |
| `Protocol.ExpiryIff` | crates/teamcomm-daemon/src/handlers.rs:209-215 | a claim has an expiry exactly when its ttl, read as a signed number of seconds, fits a duration in milliseconds and the sum fits a timestamp; then it is that many seconds after the sample |
| `Protocol.OrdinaryTtls` | crates/teamcomm-daemon/src/handlers.rs:209-215 | between the years 0 and 9999 every ttl up to a hundred thousand years has one, at sample plus ttl |
| `Protocol.ClaimInForceIff` | crates/teamcomm-daemon/src/handlers.rs:209-215 | a claim is in force at its own sample exactly for 0 < ttl < 2^63, and expires at sample + ttl exactly for ttl < 2^63 |
| `Protocol.LargestTtls` | crates/teamcomm-daemon/src/handlers.rs:215 | the ttl 2^64 - 1 makes a claim that expired a second before it was made; 2^63 - 1 panics |
| `Paths.DoubledSlash` | crates/teamcomm-daemon/src/handlers.rs:229 | path equality ignores a doubled slash |
| `Paths.DotPiece` | crates/teamcomm-daemon/src/handlers.rs:229 | path equality ignores an inner `.` |
| `Paths.TrailingSlash` | crates/teamcomm-daemon/src/handlers.rs:229 | path equality ignores a trailing slash |
| `Paths.OneSpelling` | crates/teamcomm-daemon/src/handlers.rs:229 | every path equals exactly one canonically spelled path |
| `Paths.RenderedComponents` | crates/teamcomm-daemon/src/handlers.rs:229 | spelling out any root or `.` and plain names gives a path of exactly those components, so paths with different components differ |
| `Mirror.RunMirrored` | crates/teamcomm-daemon/src/db.rs:4-8 | over every run the store accepts all paired calls and stays a mirror: sessions, pid index and messages equal, reservations and live state those of registered sessions |
| `Mirror.StepSimulates` | crates/teamcomm-daemon/src/db.rs:4-8 | one handler step paired with its store call preserves the mirror, and the call is never refused |
| `Mirror.RegisterSimulates` | crates/teamcomm-daemon/src/db.rs:127-163 | after a registration, new or repeated, the upsert puts the same session under its identifier and its pid |
| `Mirror.DeregisterMirrors` | crates/teamcomm-daemon/src/db.rs:165-188 | deregistration, which leaves reservations and live state, mirrors a deletion that cascades over them |
| `Mirror.ClaimSimulates` | crates/teamcomm-daemon/src/db.rs:230-256 | a claim and `upsert_reservation`, whose foreign key always holds |
| `Mirror.StateSetSimulates` | crates/teamcomm-daemon/src/db.rs:281-308 | the foreign key of published live state always holds, for the handler refuses unknown sessions |
| `Mirror.PostSimulates` | crates/teamcomm-daemon/src/db.rs:336-369 | `inbox.post` and `insert_inbox_message`, which never meets an existing row |
| `Mirror.InboxListSimulates` | crates/teamcomm-daemon/src/db.rs:400-411 | marking by identifier in the table marks the positions the list returned |
| `Mirror.InboxReadSimulates` | crates/teamcomm-daemon/src/db.rs:400-411 | marking the one identifier in the table is marking that message in whichever mailbox holds it |
| `Mirror.RunKeepsKeys` | crates/teamcomm-daemon/src/db.rs:552-623 | all keys hold in the tables written through |
| `ListInbox.StoreListsPostingOrder` | crates/teamcomm-daemon/src/db.rs:371-384 | in every interleaving, `list_inbox` returns the mailbox in posting order for every treatment of ties exactly when no two of its messages carry the same timestamp, and always in time order |
| `ListInbox.QueryIsPostingOrderIff` | crates/teamcomm-daemon/src/db.rs:371-384 | the same for any mirrored state whose mailbox is in time order |
| `ListInbox.SortedByTextIff` | crates/teamcomm-daemon/src/db.rs:378 | ordering by the text of `ts` allows exactly the orders that time allows |
| `Rfc3339.TextOrderIsTimeOrder` | crates/teamcomm-daemon/src/db.rs:339 | byte order of the texts is time order in years 0 to 9999, with 0, 3, 6 or 9 fraction digits mixed |
| `Rfc3339.TimeTextOrder` | crates/teamcomm-daemon/src/db.rs:339 | the same for instants; two instants have equal text exactly when they are equal |
| `Rfc3339.ParseText` | crates/teamcomm-daemon/src/db.rs:755-765 | reading the text of a stamp gives the stamp back, whatever the length of its fraction |
| `Rfc3339.TimeRoundTrip` | crates/teamcomm-daemon/src/db.rs:339-731 | an instant survives being stored as text and parsed |
| `Rfc3339.StampDenotes` | crates/teamcomm-daemon/src/db.rs:755-757 | the calendar stamp of an instant denotes that instant |
| `Rfc3339.FractionInGroups` | crates/teamcomm-daemon/src/db.rs:339 | the shortest exact fraction is groups of three digits cut where all the rest is zero |
| `Rfc3339.MillisOrder` | crates/teamcomm-daemon/src/db.rs:378 | texts with fractions of different lengths compare as the numbers they denote |
| `Rfc3339.DaysClosedForm` | crates/teamcomm-daemon/src/db.rs:339 | the day count of the calendar, by recursion over leap years, has the usual closed form |
| `Rfc3339.EpochIsZero` | crates/teamcomm-daemon/src/db.rs:339 | 1970-01-01 is instant zero |
| `Rfc3339.TextOrderIff` | crates/teamcomm-daemon/src/db.rs:378 | against a stamp of the years 0 to 9999, text order is time order in both directions exactly for stamps of those years |
| `Rfc3339.FarFutureSortsFirst` | crates/teamcomm-daemon/src/db.rs:378 | after the year 9999 every later stamp sorts before all earlier years |
| `Db.WritesKeepKeys` | crates/teamcomm-daemon/src/db.rs:552-623 | every store call keeps all foreign keys and primary keys |
| `Db.DeleteIsCascadeClosure` | crates/teamcomm-daemon/src/db.rs:165-188 | deleting a session removes exactly the rows that reach it along foreign keys, and the index row of its pid; other rows stay as they were |
| `Db.ReachesIff` | crates/teamcomm-daemon/src/db.rs:563-621 | a row reaches a session along foreign keys exactly in one step or through a thread |
| `Db.UpsertDropsNothing` | crates/teamcomm-daemon/src/db.rs:139-159 | an upsert removes no row, so no dependents, and changes no row but its own |
| `Db.DeleteLosesNamesakeIff` | crates/teamcomm-daemon/src/db.rs:180-185 | the index row dropped by pid belongs to another session exactly when the index no longer named the deleted one |
| `Db.NamesakeLost` | crates/teamcomm-daemon/src/db.rs:127-188 | two upserts under one pid and a deletion of the first leave the second session without an index row |
| `StoreLaws.ThreadKeepsOrigin` | crates/teamcomm-daemon/src/db.rs:415-436 | over any calls, a thread stays until it or its creator is deleted, with creator and creation time of its first upsert and title, topic and status of its last |
| `StoreLaws.MessageKeepsContents` | crates/teamcomm-daemon/src/db.rs:336-411 | no sequence of calls removes a stored message or changes more of it than its read flag |
| `StoreLaws.ParticipantKeepsTime` | crates/teamcomm-daemon/src/db.rs:478-503 | a participant stays until it, its thread, the creator or its session is removed, and keeps the time it was first added |
| `StoreLaws.ThreadDeleteIsClosure` | crates/teamcomm-daemon/src/db.rs:466-476 | deleting a thread removes exactly the rows that reach it along foreign keys |
| `StoreLaws.DeletesOneRow` | crates/teamcomm-daemon/src/db.rs:258-503 | deleting a reservation or a participant removes that row only |
| `StoreLaws.NewRowsAsGiven` | crates/teamcomm-daemon/src/db.rs:336-490 | a new thread, message or participant is stored as given beside all others |
| `StoreLaws.RefusedIff` | crates/teamcomm-daemon/src/db.rs:563-621 | a call is refused exactly if the row it would add refers to a missing row |
| `Db.Store.constructor` | crates/teamcomm-daemon/src/db.rs:552-623 | a new store has empty tables |
| `Db.Store.WriteSession` | crates/teamcomm-daemon/src/db.rs:127-163 | the session row and its pid index row are written together; an index row that named another session is taken over |
| `Db.Store.RemoveSession` | crates/teamcomm-daemon/src/db.rs:165-188 | lookup, cascading delete and index delete add up to one deletion |
| `Db.Store.DeleteSessionRow` | crates/teamcomm-daemon/src/db.rs:563-621 | the cascade of the schema over two levels |
| `Db.Store.WriteReservation` | crates/teamcomm-daemon/src/db.rs:230-256 | accepted exactly when the session exists; otherwise nothing changes |
| `Db.Store.RemoveReservation` | crates/teamcomm-daemon/src/db.rs:258-265 | removes that reservation and leaves every other row |
| `Db.Store.WriteLiveState` | crates/teamcomm-daemon/src/db.rs:281-308 | accepted exactly when the session exists; otherwise nothing changes |
| `Db.Store.InsertInboxMessage` | crates/teamcomm-daemon/src/db.rs:336-369 | a stored message only takes over the read flag |
| `Db.Store.MarkInboxRead` | crates/teamcomm-daemon/src/db.rs:400-411 | one update per identifier marks the set of identifiers |
| `Db.Store.WriteThread` | crates/teamcomm-daemon/src/db.rs:415-436 | an existing thread keeps its creator and creation time; a new one needs its creator |
| `Db.Store.RemoveThread` | crates/teamcomm-daemon/src/db.rs:466-476 | removes a thread and its participants |
| `Db.Store.AddThreadParticipant` | crates/teamcomm-daemon/src/db.rs:478-490 | a duplicate is ignored, a missing parent refused |
| `Db.Store.RemoveThreadParticipant` | crates/teamcomm-daemon/src/db.rs:492-503 | removes that participation and leaves every other row |

## Left out

- Sockets, signals, idle timeouts, line splitting and JSON: a line arrives as blank, oversize, malformed, a
  notification or a call, and parameters arrive decoded, with missing or ill-typed values as options; error codes and texts are dropped.
- The clock and the UUID generator are parameters: a clock that never goes back, identifiers never used before.
- The `parse_*` functions and the string forms of enums: finite tables. An enum parameter is absent, a known name or an unknown one.
- Lossy conversion of paths to text: paths are valid Unicode. Windows path prefixes are not modelled.
- The 64-bit `usize::MAX` that stands for "no limit" is the size of the mailbox.
- Partial writes of responses: a response line is written as a whole or not at all. A request line may be cut short.
- The abort loop of `run` itself: shutdown is an event after which no connection is accepted, and a connection may be dropped at any event.
- SQL text, migrations, write-ahead logging and mutexes: a table is a map from primary keys to rows. Whether SQLite
  accepts the schema text, where `references` is also a keyword, is not modelled.
- Rows hold typed records instead of text columns; only the text of timestamps is modelled. Decoding of the other columns is not.
- Parse: `parse_rfc3339` also accepts other offsets, `Z`, lower-case separators and leap seconds, which the store never
  writes; the model reads texts in UTC with a year of four digits.
- Leap seconds, and years before 0 or offsets other than UTC: the daemon writes `Utc::now()` and instants computed from it.
- The write-through is not wired to the handlers in the repository. The pairing in `Mirror.dfy` is the intended one;
  the message columns that the handlers lack (type, thread, references) hold defaults.
- Thread calls have no handler, so they occur only in `Db.dfy`. The read-only queries of the store other than `list_inbox` are lookups and are left out.
- Reaping of sessions, broadcast addresses, hook events and overlap of reservations by pattern are described but not implemented.
- The command-line tool, the MCP bridge, pid files and configuration: forwarding and operating-system state.
- The length of a client's line is not computed from its request: any call may be over the size limit.
- Client methods other than `call` are wrappers over it. A response that is not valid JSON does not occur, as the daemon serialises every line.
