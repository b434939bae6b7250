/** What every request answers, over whole runs: said of the request and of what happened before, for each kind
    of request and each way it can be refused. */
module AnswerLaws {
  import opened Protocol
  import opened Paths
  import opened Steps
  import opened Mailboxes
  import opened Invariants
  import opened Runs
  import opened Locks
  import opened Deliveries
  import opened RoundTrips
  import opened Discovery

  // ----- sessions -----

  lemma RegisterAnswers(run: Run, n: nat)
    requires IsRun(run) && n < |run.ops| && run.ops[n].request.Register?
    ensures run.ops[n].request.pid.Some? ==> exists id :: run.answers[n] == Registered(id, 90)
    ensures run.ops[n].request.pid.None? ==> run.answers[n] == Failed(InvalidParams)
  {
    if run.ops[n].request.pid.Some? {
      RunRegister(run, n);
      assert run.answers[n] == Registered(run.answers[n].sessionId, 90);
    } else {
      assert Stepped(run, n);
    }
  }

  /** Deregistering is idempotent. */
  lemma DeregisterAnswers(run: Run, n: nat)
    requires IsRun(run) && n < |run.ops| && run.ops[n].request.Deregister?
    ensures run.answers[n] == if run.ops[n].request.sessionId.Some? then Okay else Failed(InvalidParams)
  {
    assert Stepped(run, n);
  }

  /** A registered session was created by a step of the run. */
  lemma {:induction false} WasCreated(run: Run, id: Id, n: nat) returns (i: nat)
    requires IsRun(run) && n <= |run.ops| && id in run.states[n].sessions
    ensures i < n && Creates(run, i, id)
  {
    RunInv(run, n - 1);
    if id in run.states[n - 1].sessions {
      i := WasCreated(run, id, n - 1);
    } else {
      i := n - 1;
      AppearsCreated(run, i, id);
    }
  }

  lemma AppearsCreated(run: Run, n: nat, id: Id)
    requires IsRun(run) && n < |run.ops| && id !in run.states[n].sessions && id in run.states[n + 1].sessions
    ensures Creates(run, n, id)
  {
    RunInv(run, n);
    assert Stepped(run, n);
    if !run.ops[n].request.Register? && !run.ops[n].request.Deregister? && !run.ops[n].request.Heartbeat? {
      SessionFrame(run.states[n], run.ops[n]);
    }
  }

  /** Session `id` was created by step `i` and not deregistered before step `n`. */
  ghost predicate LivesFrom(run: Run, id: Id, i: nat, n: nat)
    requires Shaped(run) && n <= |run.ops|
  {
    i < n && Creates(run, i, id) && forall k :: i < k < n ==> !Deregisters(run.ops[k], id)
  }

  lemma LivesIff(run: Run, id: Id, i: nat, n: nat)
    requires IsRun(run) && i < n <= |run.ops| && Creates(run, i, id)
    ensures id in run.states[n].sessions <==> LivesFrom(run, id, i, n)
  {
    CreateStep(run, i, id);
    SessionLasts(run, id, i + 1, n);
  }

  /** A heartbeat succeeds exactly for a session that was created and not deregistered since. */
  lemma HeartbeatAnswers(run: Run, n: nat, id: Id)
    requires IsRun(run) && n < |run.ops| && run.ops[n].request == Heartbeat(Some(id))
    ensures run.answers[n] == Beat(30) || run.answers[n] == Failed(NotFound)
    ensures run.answers[n] == Beat(30) <==> exists i: nat :: LivesFrom(run, id, i, n)
  {
    assert Stepped(run, n);
    RegisteredIff(run, id, n);
  }

  lemma RegisteredIff(run: Run, id: Id, n: nat)
    requires IsRun(run) && n <= |run.ops|
    ensures id in run.states[n].sessions <==> exists i: nat :: LivesFrom(run, id, i, n)
  {
    if id in run.states[n].sessions {
      var i := WasCreated(run, id, n);
      LivesIff(run, id, i, n);
    }
    if i: nat :| LivesFrom(run, id, i, n) {
      LivesIff(run, id, i, n);
    }
  }

  lemma StoredSession(run: Run, n: nat, id: Id)
    requires IsRun(run) && n < |run.ops| && run.ops[n].request == SessionGet(Some(id))
    ensures id in run.states[n].sessions ==> run.answers[n] == OneSession(run.states[n].sessions[id])
    ensures id !in run.states[n].sessions ==> run.answers[n] == Failed(NotFound)
  {
    assert Stepped(run, n);
  }

  /** Step `j` is the last of the first `n` that touched session `id`. */
  ghost predicate LastTouch(run: Run, j: nat, id: Id, n: nat)
    requires Shaped(run) && n <= |run.ops|
  {
    j < n && Touches(run, j, id) && forall k :: j < k < n ==> !Touches(run, k, id)
  }

  /** `x` is what step `i` registered, with the sample of the last touch as heartbeat. */
  ghost predicate StandsAt(run: Run, n: nat, x: Session, i: nat)
    requires Shaped(run) && i < n <= |run.ops| && run.ops[i].request.Register? && run.ops[i].request.pid.Some?
  {
    exists j: nat :: LastTouch(run, j, x.sessionId, n) && RegisteredAs(x, run.ops[i], x.sessionId, run.ops[j].now)
  }

  /** `session.get` answers with what was registered and the sample of the last touch, exactly as long as the
      session was not deregistered. */
  lemma SessionGetReturns(run: Run, n: nat, id: Id, i: nat)
    requires IsRun(run) && i < n < |run.ops| && Creates(run, i, id) && run.ops[n].request == SessionGet(Some(id))
    ensures run.answers[n].OneSession? <==> forall k :: i < k < n ==> !Deregisters(run.ops[k], id)
    ensures run.answers[n].OneSession? ==> run.answers[n].session.sessionId == id && StandsAt(run, n, run.answers[n].session, i)
    ensures !run.answers[n].OneSession? ==> run.answers[n] == Failed(NotFound)
  {
    StoredSession(run, n, id);
    LivesIff(run, id, i, n);
    if id in run.states[n].sessions {
      var j := SessionKeepsRegistration(run, id, i, n);
      assert LastTouch(run, j, id, n);
    }
  }

  /** For an identifier that no step created it answers that there is none. */
  lemma SessionGetUnknown(run: Run, n: nat, id: Id)
    requires IsRun(run) && n < |run.ops| && run.ops[n].request == SessionGet(Some(id))
    requires forall i: nat :: i < n ==> !Creates(run, i, id)
    ensures run.answers[n] == Failed(NotFound)
  {
    StoredSession(run, n, id);
    if id in run.states[n].sessions {
      var i := WasCreated(run, id, n);
    }
  }

  lemma KeyedSession(run: Run, n: nat, id: Id)
    requires IsRun(run) && n <= |run.ops| && id in run.states[n].sessions
    ensures run.states[n].sessions[id].sessionId == id
  {
    RunInv(run, n);
  }

  lemma StoredSessions(run: Run, n: nat)
    requires IsRun(run) && n < |run.ops| && run.ops[n].request.SessionList?
    ensures run.answers[n].Sessions?
    ensures forall x :: x in run.answers[n].sessions <==>
      x.sessionId in run.states[n].sessions && x == run.states[n].sessions[x.sessionId]
  {
    RunInv(run, n);
    assert Stepped(run, n);
  }

  /** `session.list` answers with the sessions that were created and not deregistered, one of each, as `session.get` would. */
  lemma SessionListReturns(run: Run, n: nat, id: Id)
    requires IsRun(run) && n < |run.ops| && run.ops[n].request.SessionList?
    ensures run.answers[n].Sessions?
    ensures (exists x :: x in run.answers[n].sessions && x.sessionId == id) <==> exists i: nat :: LivesFrom(run, id, i, n)
    ensures forall x, i: nat | x in run.answers[n].sessions && x.sessionId == id && LivesFrom(run, id, i, n) ::
      StandsAt(run, n, x, i)
  {
    StoredSessions(run, n);
    RegisteredIff(run, id, n);
    if id in run.states[n].sessions {
      KeyedSession(run, n, id);
      assert run.states[n].sessions[id] in run.answers[n].sessions;
    }
    forall x, i: nat | x in run.answers[n].sessions && x.sessionId == id && LivesFrom(run, id, i, n)
      ensures StandsAt(run, n, x, i)
    {
      var j := SessionKeepsRegistration(run, id, i, n);
      assert LastTouch(run, j, id, n);
    }
  }

  // ----- reservations -----

  /** The seconds of a ttl parameter: ten minutes if absent, and signed. */
  function TtlSeconds(ttl: Option<U64>): int {
    if ttl.None? then 600
    else if ttl.value < 0x8000_0000_0000_0000 then ttl.value
    else ttl.value - 0x1_0000_0000_0000_0000
  }

  /** How a claim answers depends on its parameters, its session and its expiry, and on nothing else that is held. */
  lemma ClaimAnswers(run: Run, n: nat)
    requires IsRun(run) && n < |run.ops| && run.ops[n].request.Claim?
    ensures var Claim(sessionId, path, mode, ttl) := run.ops[n].request; var answer := run.answers[n];
      if sessionId.None? || path.None? || mode.Unrecognised? then answer == Failed(InvalidParams)
      else if !Representable(run.ops[n].now, TtlSeconds(ttl)) then answer == Crashed
      else if sessionId.value !in run.states[n].sessions then answer == Failed(NotFound)
      else answer.Claimed? && answer.reservationId == run.ops[n].newId
  {
    var ttl := run.ops[n].request.ttlSec;
    ExpiryIff(run.ops[n].now, if ttl.Some? then ttl.value else 600);
    assert Stepped(run, n);
  }

  /** So a claim that is in order is inserted, as it was asked for, whether or not others block it, and reports
      exactly those that do. */
  lemma ClaimInserts(run: Run, n: nat)
    requires IsRun(run) && n < |run.ops| && run.ops[n].request.Claim?
    requires var Claim(sessionId, path, mode, ttl) := run.ops[n].request;
      && sessionId.Some? && path.Some? && !mode.Unrecognised? && sessionId.value in run.states[n].sessions
      && Representable(run.ops[n].now, TtlSeconds(ttl))
    ensures var op := run.ops[n]; var held := run.states[n].reservations; var after := run.states[n + 1].reservations;
      && op.newId !in held && op.newId in after && after == held[op.newId := after[op.newId]]
      && ClaimedAs(after[op.newId], op, op.newId)
      && run.answers[n].Claimed? && run.answers[n].reservationId == op.newId
      && (forall r :: r in run.answers[n].conflicts <==>
            && r.reservationId in held && r == held[r.reservationId]
            && SamePath(r.path, op.request.path.value) && r.sessionId != op.request.sessionId.value
            && r.expiresAt > op.now && ModeConflicts(ModeOf(op.request.mode), r.mode))
  {
    ClaimAnswers(run, n);
    ClaimEffect(run, n, run.ops[n].newId);
    NewReservationIsClaimed(run.ops[n], run.ops[n].newId);
  }

  lemma HeldRelease(run: Run, n: nat, id: Id)
    requires IsRun(run) && n < |run.ops| && run.ops[n].request == Release(Some(id))
    ensures run.answers[n] == if id in run.states[n].reservations then Okay else Failed(NotFound)
  {
    assert Stepped(run, n);
  }

  /** A release succeeds exactly for a reservation that was claimed and not released since. */
  lemma ReleaseAnswers(run: Run, n: nat, id: Id)
    requires IsRun(run) && n < |run.ops| && run.ops[n].request == Release(Some(id))
    ensures run.answers[n] == Okay || run.answers[n] == Failed(NotFound)
    ensures run.answers[n] == Okay <==>
      exists i: nat :: i < n && ClaimedAt(run, i, id) && forall k :: i < k < n ==> !Releases(run.ops[k], id)
  {
    HeldRelease(run, n, id);
    if id in run.states[n].reservations {
      var i := HeldWasClaimed(run, id, n);
      ReservationLasts(run, id, i, n);
    }
    if i: nat :| i < n && ClaimedAt(run, i, id) && forall k :: i < k < n ==> !Releases(run.ops[k], id) {
      ReservationLasts(run, id, i, n);
    }
  }

  /** A listing is never refused; under a prefix that nothing has it is empty. */
  lemma ListingAnswers(run: Run, n: nat)
    requires IsRun(run) && n < |run.ops| && run.ops[n].request.ReservationList?
    ensures run.answers[n].Reservations?
    ensures forall r :: r in run.answers[n].active <==>
      && r.reservationId in run.states[n].reservations && r == run.states[n].reservations[r.reservationId]
      && run.ops[n].now < r.expiresAt
      && (run.ops[n].request.prefix.Some? ==> run.ops[n].request.prefix.value <= r.path)
  {
    RunInv(run, n);
    assert Stepped(run, n);
  }

  // ----- inbox -----

  /** A post needs a registered sender and nothing of its recipient. */
  lemma PostAnswers(run: Run, n: nat)
    requires IsRun(run) && n < |run.ops| && run.ops[n].request.Post?
    ensures var Post(from, to, _, _, priority) := run.ops[n].request;
      run.answers[n] ==
        if from.None? || to.None? || priority.Unrecognised? then Failed(InvalidParams)
        else if from.value !in run.states[n].sessions then Failed(NotFound)
        else Posted(run.ops[n].newId)
  {
    assert Stepped(run, n);
  }

  /** How many messages a list may return: fifty if it has no limit, all if the limit is zero. */
  function ListLimit(limit: Option<U64>, size: nat): nat {
    match limit
    case None => 50
    case Some(n) => if n == 0 then size else n
  }

  /** A list returns the first of the messages asked for, in posting order, marked read; a mailbox that nobody
      posted to is empty. */
  lemma ListAnswers(run: Run, n: nat, k: Id)
    requires IsRun(run) && n < |run.ops| && ListsOf(run, n, k)
    ensures var box := Mailbox(run.states[n], k); var InboxList(_, unreadOnly, limit) := run.ops[n].request;
      run.answers[n] == Messages(MarkAll(First(Wanted(box, unreadOnly), ListLimit(limit, |box|))))
  {
    MailboxStep(run, n, k);
    var box := Mailbox(run.states[n], k);
    var InboxList(_, unreadOnly, limit) := run.ops[n].request;
    DeliverIsFilterAndTake(box, unreadOnly, Budget(LimitOf(limit), |box|));
  }

  /** A message in a mailbox was posted by a step of the run. */
  lemma {:induction false} InBoxWasPosted(run: Run, k: Id, n: nat, p: nat) returns (i: nat)
    requires IsRun(run) && n <= |run.ops| && p < |Mailbox(run.states[n], k)|
    ensures i < n && PostsTo(run, i, k) && run.answers[i] == Posted(Mailbox(run.states[n], k)[p].messageId)
  {
    MailboxStep(run, n - 1, k);
    if p < |Mailbox(run.states[n - 1], k)| {
      i := InBoxWasPosted(run, k, n - 1, p);
    } else {
      i := n - 1;
      PostedItsOwn(run, i, k);
    }
  }

  lemma PostedItsOwn(run: Run, n: nat, k: Id)
    requires IsRun(run) && n < |run.ops| && PostsTo(run, n, k)
    ensures run.answers[n] == Posted(run.ops[n].newId)
  {
    PostAnswers(run, n);
  }

  /** `inbox.read` succeeds exactly for an identifier that a post returned before. */
  lemma ReadAnswers(run: Run, n: nat, id: Id)
    requires IsRun(run) && n < |run.ops| && run.ops[n].request == InboxRead(Some(id))
    ensures run.answers[n].OneMessage? || run.answers[n] == Failed(NotFound)
    ensures run.answers[n].OneMessage? <==> exists i: nat :: i < n && run.answers[i] == Posted(id)
  {
    RunInv(run, n);
    assert Stepped(run, n);
    InboxReadIsExact(run.states[n], run.ops[n], id);
    if k, p: nat :| HeldAt(run.states[n].inbox, k, p, id) {
      var i := InBoxWasPosted(run, k, n, p);
    }
    if i: nat :| i < n && run.answers[i] == Posted(id) {
      ReadReturnsPosted(run, i, n);
    }
  }

  // ----- live state and discovery -----

  /** A `state.set` is accepted exactly for a registered session and a known status, however often. */
  lemma StateSetAnswers(run: Run, n: nat)
    requires IsRun(run) && n < |run.ops| && run.ops[n].request.StateSet?
    ensures var StateSet(id, _, _, _, status) := run.ops[n].request;
      run.answers[n] ==
        if id.None? || status.Unrecognised? then Failed(InvalidParams)
        else if id.value !in run.states[n].sessions then Failed(NotFound)
        else Okay
  {
    assert Stepped(run, n);
  }

  lemma {:induction false} LiveWasPublished(run: Run, n: nat, id: Id) returns (i: nat)
    requires IsRun(run) && n <= |run.ops| && id in run.states[n].liveState
    ensures i < n && Publishes(run, i, id) && forall k :: i < k < n ==> !Publishes(run, k, id)
  {
    LiveStateStep(run, n - 1, id);
    if Publishes(run, n - 1, id) {
      i := n - 1;
    } else {
      i := LiveWasPublished(run, n - 1, id);
    }
  }

  /** `state.get` succeeds exactly for an identifier that live state was ever published for. */
  lemma StateGetAnswers(run: Run, n: nat, id: Id)
    requires IsRun(run) && n < |run.ops| && run.ops[n].request == StateGet(Some(id))
    ensures run.answers[n].Live? || run.answers[n] == Failed(NotFound)
    ensures run.answers[n].Live? <==> exists i: nat :: i < n && Publishes(run, i, id)
  {
    assert Stepped(run, n);
    if id in run.states[n].liveState {
      var i := LiveWasPublished(run, n, id);
    }
    if i: nat :| i < n && Publishes(run, i, id) {
      LiveStateStep(run, i, id);
      LiveStateStays(run, id, i + 1, n);
    }
  }

  /** `discover.agents` is never refused, and a session has a summary in its answer exactly when it satisfies
      all the given filters; then it has just one, with its own pid, heartbeat and (defaulted) live status. */
  lemma DiscoverAnswers(run: Run, n: nat, id: Id, prefix: Option<Path>, branch: Option<string>, capabilities: seq<string>)
    requires IsRun(run) && n < |run.ops| && run.ops[n].request == Discover(prefix, branch, capabilities)
    ensures run.answers[n].Agents?
    ensures Satisfies(run.states[n], id, prefix, branch, set c | c in capabilities) <==>
      exists x :: x in run.answers[n].agents && x.sessionId == id
    ensures forall x, y :: x in run.answers[n].agents && y in run.answers[n].agents && x.sessionId == y.sessionId ==> x == y
    ensures forall x :: x in run.answers[n].agents && x.sessionId == id ==> Summarises(run.states[n], x)
  {
    RunInv(run, n);
    Discovers(run, n, prefix, branch, capabilities);
    DiscoverIsExact(run.states[n], id, prefix, branch, capabilities);
  }

  lemma Discovers(run: Run, n: nat, prefix: Option<Path>, branch: Option<string>, capabilities: seq<string>)
    requires IsRun(run) && n < |run.ops| && run.ops[n].request == Discover(prefix, branch, capabilities)
    ensures run.answers[n] == Agents(Found(run.states[n], prefix, branch, capabilities))
  {
    assert Stepped(run, n);
  }

  // ----- requests that no handler accepts -----

  /** A request without the identifier its handler requires is refused as such, and one for an unknown method as that. */
  lemma MissingIdAnswers(run: Run, n: nat)
    requires IsRun(run) && n < |run.ops|
    ensures run.ops[n].request in {Heartbeat(None), SessionGet(None), Release(None), InboxRead(None), StateGet(None)} ==>
      run.answers[n] == Failed(InvalidParams)
    ensures run.ops[n].request.InboxList? && run.ops[n].request.sessionId.None? ==> run.answers[n] == Failed(InvalidParams)
    ensures run.ops[n].request.Unknown? ==> run.answers[n] == Failed(MethodNotFound)
  {
    assert Stepped(run, n);
  }
}
