/** What is written is what is read back later, over whole runs: live state, sessions, reservations and messages. */
module RoundTrips {
  import opened Protocol
  import opened Steps
  import opened Invariants
  import opened Runs
  import opened Locks
  import opened Deliveries

  // ----- live state -----

  /** Step `n` asks for live state of `id` to be published while `id` is registered. */
  ghost predicate Publishes(run: Run, n: nat, id: Id)
    requires Shaped(run) && n < |run.ops|
  {
    && run.ops[n].request.StateSet? && run.ops[n].request.sessionId == Some(id)
    && !run.ops[n].request.status.Unrecognised? && id in run.states[n].sessions
  }

  /** What it publishes: the given fields, an absent status meaning idle, stamped under the lock. */
  ghost predicate Published(live: LiveState, op: Op, id: Id)
    requires op.request.StateSet?
  {
    var LiveState(sessionId, focusFile, focusBranch, worktree, status, stamp) := live;
    && sessionId == id && stamp == op.now && focusFile == op.request.focusFile
    && focusBranch == op.request.focusBranch && worktree == op.request.worktree
    && op.request.status == (if op.request.status.Absent? then Absent else Given(status))
    && (op.request.status.Absent? ==> status == Idle)
  }

  lemma LiveStateStep(run: Run, n: nat, id: Id)
    requires IsRun(run) && n < |run.ops|
    ensures Publishes(run, n, id) ==>
      id in run.states[n + 1].liveState && Published(run.states[n + 1].liveState[id], run.ops[n], id)
    ensures !Publishes(run, n, id) ==>
      (id in run.states[n + 1].liveState <==> id in run.states[n].liveState)
      && (id in run.states[n].liveState ==> run.states[n + 1].liveState[id] == run.states[n].liveState[id])
  {
    assert Stepped(run, n);
  }

  /** The last live state published for an identifier stays, whatever else happens. */
  lemma {:induction false} LiveStateLasts(run: Run, id: Id, i: nat, n: nat)
    requires IsRun(run) && i < n <= |run.ops| && Publishes(run, i, id)
    requires forall k :: i < k < n ==> !Publishes(run, k, id)
    ensures id in run.states[n].liveState && Published(run.states[n].liveState[id], run.ops[i], id)
  {
    LiveStateStep(run, n - 1, id);
    if i < n - 1 {
      LiveStateLasts(run, id, i, n - 1);
    }
  }

  /** `state.get` answers with the last live state published. */
  lemma GetReturnsLastSet(run: Run, id: Id, i: nat, n: nat)
    requires IsRun(run) && i < n < |run.ops| && Publishes(run, i, id)
    requires forall k :: i < k < n ==> !Publishes(run, k, id)
    requires run.ops[n].request == StateGet(Some(id))
    ensures run.answers[n].Live? && Published(run.answers[n].live, run.ops[i], id)
  {
    LiveStateLasts(run, id, i, n);
    assert Stepped(run, n);
  }

  lemma {:induction false} LiveStateStays(run: Run, id: Id, i: nat, n: nat)
    requires IsRun(run) && i <= n <= |run.ops| && id in run.states[i].liveState
    ensures id in run.states[n].liveState
  {
    if i < n {
      LiveStateStays(run, id, i, n - 1);
      LiveStateStep(run, n - 1, id);
    }
  }

  lemma PublisherIsRegistered(run: Run, n: nat, id: Id)
    requires IsRun(run) && n < |run.ops| && Publishes(run, n, id)
    ensures id in run.states[n + 1].sessions
  {
    assert Stepped(run, n);
  }

  /** Step `i` deregisters a session that has live state. */
  ghost predicate Orphans(run: Run, i: nat, id: Id)
    requires Shaped(run) && i < |run.ops|
  {
    Deregisters(run.ops[i], id) && id in run.states[i].sessions && id in run.states[i].liveState
  }

  /** Live state is that of a registered session exactly as long as no step orphaned it. */
  lemma {:induction false} OrphanedIff(run: Run, id: Id, n: nat)
    requires IsRun(run) && n <= |run.ops| && id in run.states[n].liveState
    ensures id in run.states[n].sessions <==> forall i: nat :: i < n ==> !Orphans(run, i, id)
  {
    LiveStateStep(run, n - 1, id);
    if id in run.states[n - 1].liveState {
      OrphanedIff(run, id, n - 1);
      RunInv(run, n - 1);
      RunSessionStep(run, n - 1, id);
      assert Orphans(run, n - 1, id) <==> Deregisters(run.ops[n - 1], id) && id in run.states[n - 1].sessions;
    } else {
      PublisherIsRegistered(run, n - 1, id);
      forall i: nat | i < n
        ensures !Orphans(run, i, id)
      {
        if Orphans(run, i, id) {
          LiveStateStays(run, id, i, n - 1);
        }
      }
    }
  }

  /** All live state is of registered sessions exactly as long as no session with live state was deregistered. */
  lemma LiveStateIsKnownIff(run: Run, n: nat)
    requires IsRun(run) && n <= |run.ops|
    ensures (forall id :: id in run.states[n].liveState ==> id in run.states[n].sessions) <==>
      forall i: nat, id :: i < n ==> !Orphans(run, i, id)
  {
    forall id | id in run.states[n].liveState
      ensures id in run.states[n].sessions <==> forall i: nat :: i < n ==> !Orphans(run, i, id)
    {
      OrphanedIff(run, id, n);
    }
    forall i: nat, id | i < n && Orphans(run, i, id)
      ensures id in run.states[n].liveState
    {
      LiveStateStays(run, id, i, n);
    }
  }

  /** It is not after a registration, a `state.set` and a deregistration. */
  lemma LiveStateOfNobody() returns (run: Run)
    ensures IsRun(run) && "a" in Last(run).liveState && "a" !in Last(run).sessions
  {
    var register := Op(Register(Some(7), Forge, "/", []), 0, "a");
    var publish := Op(StateSet(Some("a"), None, None, None, Absent), 0, "x");
    var deregister := Op(Deregister(Some("a")), 0, "x");
    run := Start();
    ExtendChain(run, register);
    run := Extend(run, register);
    assert Last(run).sessions.Keys == Last(run).minted == {"a"};
    ExtendChain(run, publish);
    run := Extend(run, publish);
    assert "a" in Last(run).liveState && "a" in Last(run).sessions && Last(run).minted == {"a"};
    ExtendChain(run, deregister);
    run := Extend(run, deregister);
  }

  // ----- sessions -----

  /** Step `n` created session `id`. */
  ghost predicate Creates(run: Run, n: nat, id: Id)
    requires Shaped(run) && n < |run.ops|
  {
    && run.ops[n].request.Register? && run.ops[n].request.pid.Some?
    && run.answers[n] == Registered(id, LEASE_TTL_SEC) && id !in run.states[n].minted
  }

  /** Step `n` refreshed the heartbeat of `id`. */
  ghost predicate Touches(run: Run, n: nat, id: Id)
    requires Shaped(run) && n < |run.ops|
  {
    run.answers[n] == Registered(id, LEASE_TTL_SEC)
    || (run.ops[n].request == Heartbeat(Some(id)) && run.answers[n].Beat?)
  }

  /** `session` is what `op` registered, with heartbeat `beat`. */
  ghost predicate RegisteredAs(session: Session, op: Op, id: Id, beat: Time)
    requires op.request.Register? && op.request.pid.Some?
  {
    var Session(sessionId, agentType, pid, startedAt, workingDir, capabilities, lastHeartbeat) := session;
    && sessionId == id && startedAt == op.now && lastHeartbeat == beat
    && agentType == op.request.agentType && workingDir == op.request.workingDir
    && capabilities == op.request.capabilities && (op.request.pid.value - pid) % 0x1_0000_0000 == 0
  }

  lemma CreateStep(run: Run, n: nat, id: Id)
    requires IsRun(run) && n < |run.ops| && Creates(run, n, id)
    ensures id in run.states[n + 1].sessions && id in run.states[n + 1].minted
    ensures RegisteredAs(run.states[n + 1].sessions[id], run.ops[n], id, run.ops[n].now)
  {
    RunInv(run, n);
    assert Stepped(run, n);
  }

  lemma TouchStep(run: Run, n: nat, id: Id)
    requires IsRun(run) && n < |run.ops| && id in run.states[n].sessions && id in run.states[n + 1].sessions
    ensures run.states[n + 1].sessions[id]
      == if Touches(run, n, id) then run.states[n].sessions[id].(lastHeartbeat := run.ops[n].now)
         else run.states[n].sessions[id]
  {
    RunInv(run, n);
    assert Stepped(run, n);
    var op := run.ops[n];
    if !op.request.Register? && !op.request.Deregister? && !op.request.Heartbeat? {
      SessionFrame(run.states[n], op);
      NoRegistration(run.states[n], op);
    }
  }

  lemma NoRegistration(s: State, op: Op)
    requires !op.request.Register?
    ensures !Step(s, op).answer.Registered?
  {
  }

  lemma AppearStep(run: Run, n: nat, id: Id)
    requires IsRun(run) && n < |run.ops| && id !in run.states[n].sessions && id in run.states[n + 1].sessions
    ensures Touches(run, n, id) && run.states[n + 1].sessions[id].lastHeartbeat == run.ops[n].now
  {
    assert Stepped(run, n);
    if !run.ops[n].request.Register? && !run.ops[n].request.Deregister? && !run.ops[n].request.Heartbeat? {
      SessionFrame(run.states[n], run.ops[n]);
    }
  }

  /** The heartbeat of a session is the clock sample of the last step that touched it. */
  lemma {:induction false} HeartbeatIsLastTouch(run: Run, id: Id, n: nat) returns (j: nat)
    requires IsRun(run) && n <= |run.ops| && id in run.states[n].sessions
    ensures j < n && Touches(run, j, id) && forall k :: j < k < n ==> !Touches(run, k, id)
    ensures run.states[n].sessions[id].lastHeartbeat == run.ops[j].now
  {
    if id in run.states[n - 1].sessions {
      TouchStep(run, n - 1, id);
      if Touches(run, n - 1, id) {
        j := n - 1;
      } else {
        j := HeartbeatIsLastTouch(run, id, n - 1);
      }
    } else {
      AppearStep(run, n - 1, id);
      j := n - 1;
    }
  }

  /** A session keeps all it was registered with; its heartbeat is the clock sample of the last step that
      touched it, which need not be the latest sample. */
  lemma {:induction false} SessionKeepsRegistration(run: Run, id: Id, i: nat, n: nat) returns (j: nat)
    requires IsRun(run) && i < n <= |run.ops| && Creates(run, i, id) && id in run.states[n].sessions
    ensures i <= j < n && Touches(run, j, id) && forall k :: j < k < n ==> !Touches(run, k, id)
    ensures RegisteredAs(run.states[n].sessions[id], run.ops[i], id, run.ops[j].now)
  {
    CreateStep(run, i, id);
    if i == n - 1 {
      j := i;
    } else {
      MintedGrows(run, i + 1, n - 1);
      RunSessionStep(run, n - 1, id);
      j := SessionKeepsRegistration(run, id, i, n - 1);
      TouchStep(run, n - 1, id);
      if Touches(run, n - 1, id) {
        j := n - 1;
      }
    }
  }

  // ----- reservations -----

  ghost predicate Releases(op: Op, id: Id) {
    op.request == Release(Some(id))
  }

  lemma ReleaseStepExact(run: Run, n: nat, id: Id)
    requires IsRun(run) && n < |run.ops| && id in run.states[n].minted
    ensures id in run.states[n + 1].reservations <==> id in run.states[n].reservations && !Releases(run.ops[n], id)
  {
    assert Stepped(run, n);
    if !run.ops[n].request.Claim? && !run.ops[n].request.Release? {
      ReservationFrame(run.states[n], run.ops[n]);
    }
  }

  /** A reservation stays exactly until it is released by its identifier; neither expiry nor the
      deregistration of its session removes it. */
  lemma {:induction false} ReservationLasts(run: Run, id: Id, i: nat, n: nat)
    requires IsRun(run) && i < n <= |run.ops| && ClaimedAt(run, i, id)
    ensures id in run.states[n].reservations <==> forall k :: i < k < n ==> !Releases(run.ops[k], id)
    ensures id in run.states[i + 1].minted
  {
    ClaimEffect(run, i, id);
    if i < n - 1 {
      ReservationLasts(run, id, i, n - 1);
      MintedGrows(run, i + 1, n - 1);
      ReleaseStepExact(run, n - 1, id);
    }
  }

  /** A reservation that is held stays exactly until it is released. */
  lemma HeldUntilReleased(run: Run, id: Id, i: nat, n: nat)
    requires IsRun(run) && i <= n <= |run.ops| && id in run.states[i].reservations
    ensures id in run.states[n].reservations <==> forall k :: i <= k < n ==> !Releases(run.ops[k], id)
  {
    var j := HeldWasClaimed(run, id, i);
    ReservationLasts(run, id, j, i);
    ReservationLasts(run, id, j, n);
  }

  /** Step `i` deregisters the session of reservation `id`. */
  ghost predicate Abandons(run: Run, i: nat, id: Id)
    requires Shaped(run) && i < |run.ops|
  {
    id in run.states[i].reservations && Deregisters(run.ops[i], run.states[i].reservations[id].sessionId)
  }

  lemma AbandonedIff(run: Run, id: Id, n: nat)
    requires IsRun(run) && n <= |run.ops| && id in run.states[n].reservations
    ensures run.states[n].reservations[id].sessionId in run.states[n].sessions <==>
      forall i: nat :: i < n ==> !Abandons(run, i, id)
  {
    var owner := run.states[n].reservations[id].sessionId;
    var j := HeldWasClaimed(run, id, n);
    RunInv(run, j);
    SessionLasts(run, owner, j, n);
    forall i: nat | i < n
      ensures Abandons(run, i, id) <==> j <= i && Deregisters(run.ops[i], owner)
    {
      if i <= j {
        RunInv(run, i);
        MintedGrows(run, i, j);
        AnsweredClaim(run, j, id);
      } else {
        MintedGrows(run, j + 1, i);
        ReservationPersists(run, id, i, n);
      }
    }
  }

  lemma AnsweredClaim(run: Run, j: nat, id: Id)
    requires IsRun(run) && ClaimedAt(run, j, id)
    ensures run.ops[j].request.Claim?
  {
    ClaimEffect(run, j, id);
  }

  /** Every held reservation is of a registered session exactly if those that a session held when it was
      deregistered were all released since. */
  lemma OwnersAreKnownIff(run: Run, n: nat)
    requires IsRun(run) && n <= |run.ops|
    ensures (forall id :: id in run.states[n].reservations ==>
                run.states[n].reservations[id].sessionId in run.states[n].sessions)
      <==> forall i: nat, id :: i < n && Abandons(run, i, id) ==> exists k :: i < k < n && Releases(run.ops[k], id)
  {
    forall id | id in run.states[n].reservations
      ensures run.states[n].reservations[id].sessionId in run.states[n].sessions <==>
        forall i: nat :: i < n ==> !Abandons(run, i, id)
    {
      AbandonedIff(run, id, n);
    }
    forall i: nat, id | i < n && Abandons(run, i, id)
      ensures id in run.states[n].reservations <==> !exists k :: i < k < n && Releases(run.ops[k], id)
    {
      HeldUntilReleased(run, id, i, n);
    }
  }

  /** What a claim asked for, field by field; an absent mode means writing, an absent ttl ten minutes. */
  ghost predicate ClaimedAs(r: Reservation, op: Op, id: Id)
    requires op.request.Claim?
  {
    var Reservation(reservationId, sessionId, path, mode, acquiredAt, expiresAt) := r;
    && reservationId == id && op.request.sessionId == Some(sessionId) && op.request.path == Some(path)
    && op.request.mode == (if op.request.mode.Absent? then Absent else Given(mode))
    && (op.request.mode.Absent? ==> mode == Mode.Write)
    && acquiredAt == op.now
    && (op.request.ttlSec.None? ==> expiresAt == op.now + 600 * NANOS_PER_SECOND)
    && (op.request.ttlSec.Some? && op.request.ttlSec.value <= I64_MAX ==>
          expiresAt == op.now + op.request.ttlSec.value * NANOS_PER_SECOND)
    && (op.request.ttlSec.Some? && op.request.ttlSec.value > I64_MAX ==> expiresAt < op.now)
  }

  lemma NewReservationIsClaimed(op: Op, id: Id)
    requires WellFormedClaim(op.request) && ClaimExpiry(op.now, TtlOf(op.request.ttlSec)).Some?
    ensures ClaimedAs(NewReservation(op.request, op.now, id), op, id)
  {
    ClaimInForceIff(op.now, TtlOf(op.request.ttlSec));
  }

  /** A listing without filter shows a claimed reservation, as it was claimed, exactly when it was not
      released before and has not expired at the clock sample of the listing. */
  lemma ListingShowsClaim(run: Run, id: Id, i: nat, n: nat)
    requires IsRun(run) && i < n < |run.ops| && ClaimedAt(run, i, id) && run.ops[n].request == ReservationList(None)
    ensures run.ops[i].request.Claim? && run.answers[n].Reservations? && id in run.states[i + 1].reservations
    ensures forall r :: r in run.answers[n].active && r.reservationId == id ==> ClaimedAs(r, run.ops[i], id)
    ensures (exists r :: r in run.answers[n].active && r.reservationId == id) <==>
      && (forall k :: i < k < n ==> !Releases(run.ops[k], id))
      && run.ops[n].now < run.states[i + 1].reservations[id].expiresAt
  {
    ReservationLasts(run, id, i, n);
    ClaimEffect(run, i, id);
    NewReservationIsClaimed(run.ops[i], id);
    RunInv(run, n);
    assert Stepped(run, n);
    if id in run.states[n].reservations {
      ReservationPersists(run, id, i + 1, n);
      var r := run.states[n].reservations[id];
      assert r in run.answers[n].active <==> run.ops[n].now < r.expiresAt;
    }
  }

  // ----- messages -----

  /** What was posted, field by field; an absent priority means normal. */
  ghost predicate PostedAs(m: InboxMessage, op: Op, id: Id)
    requires op.request.Post?
  {
    var InboxMessage(messageId, fromSession, toSession, subject, body, priority, ts, _) := m;
    && messageId == id && ts == op.now
    && op.request.fromSession == Some(fromSession) && op.request.toSession == Some(toSession)
    && subject == op.request.subject && body == op.request.body
    && op.request.priority == (if op.request.priority.Absent? then Absent else Given(priority))
    && (op.request.priority.Absent? ==> priority == Normal)
  }

  lemma PostPlaces(run: Run, i: nat) returns (k: Id, p: nat)
    requires IsRun(run) && i < |run.ops| && run.answers[i].Posted?
    ensures run.ops[i].request.Post?
    ensures p < |Mailbox(run.states[i + 1], k)|
    ensures PostedAs(Mailbox(run.states[i + 1], k)[p], run.ops[i], run.answers[i].messageId)
  {
    assert Stepped(run, i);
    if !run.ops[i].request.Post? && !run.ops[i].request.InboxList? && !run.ops[i].request.InboxRead? {
      InboxFrame(run.states[i], run.ops[i]);
    }
    k := run.ops[i].request.toSession.value;
    p := |Mailbox(run.states[i], k)|;
  }

  /** A message can be read by the identifier its post returned, at any later time, and carries what was posted. */
  lemma ReadReturnsPosted(run: Run, i: nat, n: nat)
    requires IsRun(run) && i < n < |run.ops| && run.answers[i].Posted?
    requires run.ops[n].request == InboxRead(Some(run.answers[i].messageId))
    ensures run.ops[i].request.Post? && run.answers[n].OneMessage?
    ensures run.answers[n].message.read && PostedAs(run.answers[n].message, run.ops[i], run.answers[i].messageId)
  {
    var id := run.answers[i].messageId;
    var k, p := PostPlaces(run, i);
    ReadFlagsStick(run, k, i + 1, n);
    RunInv(run, n);
    assert Stepped(run, n);
    InboxReadIsExact(run.states[n], run.ops[n], id);
    assert HeldAt(run.states[n].inbox, k, p, id);
  }
}
