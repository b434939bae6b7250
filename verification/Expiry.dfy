/** Expiry under the advancing clock: when listings and claims stop mentioning a reservation. */
module Expiry {
  import opened Protocol
  import opened Paths
  import opened Steps
  import opened Runs
  import opened Locks
  import opened Listener
  import opened Concurrency
  import opened Scenarios

  lemma {:induction false} ClockGrows(b: Behaviour, i: nat, n: nat)
    requires IsBehaviour(b) && i <= n <= |b.events|
    ensures b.systems[i].clock <= b.systems[n].clock
  {
    if i < n {
      ClockGrows(b, i, n - 1);
      assert Happens(b, n - 1);
    }
  }

  /** Event `n` is the lock section of step `op` and answers `answer`. */
  ghost predicate Applies(b: Behaviour, n: nat, op: Op, answer: Answer)
    requires IsBehaviour(b) && n < |b.events|
  {
    var sys, e := b.systems[n], b.events[n];
    && e.Apply? && e.out.answer == answer
    && e.c in sys.conns && ReadyToLock(sys.conns[e.c].phase) && op == OpOf(sys, e.c, e.newId)
  }

  lemma AppliedStep(b: Behaviour, n: nat, op: Op, answer: Answer)
    requires IsBehaviour(b) && n < |b.events| && Applies(b, n, op, answer)
    ensures var run := b.systems[n].run; var next := b.systems[n + 1].run;
      && IsRun(next) && |run.states| == |run.ops| + 1 && |next.ops| == |run.ops| + 1
      && next.states[|run.ops|] == Last(run) && next.ops[|run.ops|] == op && next.answers[|run.ops|] == answer
    ensures answer == Step(Last(b.systems[n].run), op).answer
  {
    RunAt(b, n);
    RunAt(b, n + 1);
    assert Happens(b, n);
  }

  lemma RunAt(b: Behaviour, n: nat)
    requires IsBehaviour(b) && n <= |b.events|
    ensures IsRun(b.systems[n].run)
  {
    BehaviourInv(b, n);
  }

  // ----- listings -----

  lemma ListingAsks(s: State, op: Op)
    requires Step(s, op).answer.Reservations?
    ensures op.request.ReservationList?
  {
  }

  lemma ListedIff(s: State, op: Op, r: Reservation)
    requires Step(s, op).answer.Reservations? && op.request.ReservationList?
    ensures r in Step(s, op).answer.active <==>
      && (exists id :: id in s.reservations && s.reservations[id] == r)
      && (op.request.prefix.Some? ==> HasPrefix(r.path, op.request.prefix.value)) && r.expiresAt > op.now
  {
  }

  /** Listing, posting and publishing read the clock under the lock. */
  lemma LateSample(b: Behaviour, n: nat, op: Op, answer: Answer)
    requires IsBehaviour(b) && n < |b.events| && Applies(b, n, op, answer)
    requires op.request.ReservationList? || op.request.Post? || op.request.StateSet?
    ensures op.now == b.systems[n].clock
  {
    BehaviourInv(b, n);
  }

  lemma ListingSample(b: Behaviour, n: nat, op: Op, answer: Answer)
    requires IsBehaviour(b) && n < |b.events| && Applies(b, n, op, answer) && answer.Reservations?
    ensures op.now == b.systems[n].clock && op.request.ReservationList?
  {
    AppliedStep(b, n, op, answer);
    ListingAsks(Last(b.systems[n].run), op);
    LateSample(b, n, op, answer);
  }

  /** A listing shows exactly the held reservations under its prefix that are unexpired at the clock of its own
      lock section. */
  lemma ListingShowsUnexpired(b: Behaviour, n: nat, op: Op, answer: Answer, r: Reservation)
    requires IsBehaviour(b) && n < |b.events| && Applies(b, n, op, answer) && answer.Reservations?
    ensures op.request.ReservationList? && |b.systems[n].run.states| > 0
    ensures var s := Last(b.systems[n].run);
      r in answer.active <==>
        && (exists id :: id in s.reservations && s.reservations[id] == r)
        && (op.request.prefix.Some? ==> HasPrefix(r.path, op.request.prefix.value))
        && r.expiresAt > b.systems[n].clock
  {
    AppliedStep(b, n, op, answer);
    ListingSample(b, n, op, answer);
    ListedIff(Last(b.systems[n].run), op, r);
  }

  /** Once the clock has reached its expiry, a reservation is never listed again. */
  lemma ExpiredNeverListed(b: Behaviour, i: nat, n: nat, op: Op, answer: Answer, r: Reservation)
    requires IsBehaviour(b) && i <= n < |b.events| && Applies(b, n, op, answer) && answer.Reservations?
    requires r.expiresAt <= b.systems[i].clock
    ensures r !in answer.active
  {
    ClockGrows(b, i, n);
    ListingShowsUnexpired(b, n, op, answer, r);
  }

  // ----- claims -----

  /** Event `m` is the last time that connection `c` read the clock before event `n`. */
  ghost predicate LastRead(b: Behaviour, m: nat, n: nat, c: ConnId) {
    m < n <= |b.events| && b.events[m] == ReadClock(c) && forall l :: m < l < n ==> b.events[l] != ReadClock(c)
  }

  /** A sample that waits for the lock was read at some event, and its connection waits since. */
  lemma {:induction false} ClockedSince(b: Behaviour, n: nat, c: ConnId) returns (m: nat)
    requires IsBehaviour(b) && n <= |b.events| && c in b.systems[n].conns && b.systems[n].conns[c].phase.Clocked?
    ensures LastRead(b, m, n, c) && b.systems[m].clock == b.systems[n].conns[c].phase.now
  {
    assert n > 0;
    assert Happens(b, n - 1);
    if b.events[n - 1] == ReadClock(c) {
      m := n - 1;
    } else {
      m := ClockedSince(b, n - 1, c);
    }
  }

  lemma LastReadUnique(b: Behaviour, m: nat, m': nat, n: nat, c: ConnId)
    requires LastRead(b, m, n, c) && LastRead(b, m', n, c)
    ensures m == m'
  {
  }

  lemma ClaimAnswers(s: State, op: Op)
    requires Step(s, op).answer.Claimed?
    ensures WellFormedClaim(op.request)
  {
  }

  /** Registering, heartbeats and claims read it before they take the lock, and keep that sample. */
  lemma EarlySample(b: Behaviour, n: nat, op: Op, answer: Answer) returns (m: nat)
    requires IsBehaviour(b) && n < |b.events| && Applies(b, n, op, answer)
    requires
      || (op.request.Register? && op.request.pid.Some?)
      || (op.request.Heartbeat? && op.request.sessionId.Some?)
      || (op.request.Claim? && op.request.sessionId.Some? && op.request.path.Some? && !op.request.mode.Unrecognised?)
    ensures LastRead(b, m, n, b.events[n].c) && op.now == b.systems[m].clock
  {
    m := ClockedSince(b, n, b.events[n].c);
  }

  /** A claim's sample is the clock when its connection last read it, however late it gets the lock. */
  lemma ClaimSample(b: Behaviour, m: nat, n: nat, op: Op, answer: Answer)
    requires IsBehaviour(b) && n < |b.events| && Applies(b, n, op, answer) && answer.Claimed?
    requires LastRead(b, m, n, b.events[n].c)
    ensures op.now == b.systems[m].clock && WellFormedClaim(op.request)
  {
    AppliedStep(b, n, op, answer);
    ClaimAnswers(Last(b.systems[n].run), op);
    var c := b.events[n].c;
    var m' := ClockedSince(b, n, c);
    LastReadUnique(b, m, m', n, c);
  }

  /** A claim reports exactly the blocking reservations that were unexpired when its connection read the clock. */
  lemma ClaimReportsUnexpired(b: Behaviour, m: nat, n: nat, op: Op, answer: Answer, r: Reservation)
    requires IsBehaviour(b) && n < |b.events| && Applies(b, n, op, answer) && answer.Claimed?
    requires LastRead(b, m, n, b.events[n].c)
    ensures WellFormedClaim(op.request) && |b.systems[n].run.states| > 0
    ensures var s := Last(b.systems[n].run);
      r in answer.conflicts <==>
        && r.reservationId in s.reservations && r == s.reservations[r.reservationId]
        && SamePath(r.path, op.request.path.value) && r.sessionId != op.request.sessionId.value
        && ModeConflicts(ModeOf(op.request.mode), r.mode)
        && r.expiresAt > b.systems[m].clock
  {
    ClaimSample(b, m, n, op, answer);
    AppliedStep(b, n, op, answer);
    ClaimEffect(b.systems[n + 1].run, |b.systems[n].run.ops|, answer.reservationId);
  }

  /** Once the clock has reached its expiry, no claim that reads the clock from then on reports a reservation. */
  lemma ExpiredNeverReported(b: Behaviour, i: nat, m: nat, n: nat, op: Op, answer: Answer, r: Reservation)
    requires IsBehaviour(b) && n < |b.events| && Applies(b, n, op, answer) && answer.Claimed?
    requires LastRead(b, m, n, b.events[n].c) && i <= m && r.expiresAt <= b.systems[i].clock
    ensures r !in answer.conflicts
  {
    ClockGrows(b, i, m);
    ClaimReportsUnexpired(b, m, n, op, answer, r);
  }

  // ----- the boundary -----

  lemma SecondRegistration(s: State, op: Op)
    requires op.request.Register? && op.request.pid == Some(8) && 8 !in s.byPid
    ensures Step(s, op).state.sessions.Keys == s.sessions.Keys + {op.newId}
    ensures Step(s, op).state.minted == s.minted + {op.newId} && Step(s, op).state.reservations == s.reservations
  {
  }

  const SECOND := NANOS_PER_SECOND

  lemma ClaimForASecond(s: State, op: Op, id: Id)
    requires op.request == Claim(Some(id), Some("f"), Given(Mode.Exclusive), Some(1)) && op.now == 0 && id in s.sessions
    ensures var t := Step(s, op).state;
      && t.reservations == s.reservations[op.newId := Reservation(op.newId, id, "f", Mode.Exclusive, 0, SECOND)]
      && t.sessions == s.sessions && t.minted == s.minted + {op.newId}
  {
  }

  lemma ClaimSees(s: State, op: Op, id: Id, other: Id)
    requires op.request == Claim(Some(id), Some("f"), Given(Mode.Exclusive), None) && op.now == 0 && id in s.sessions
    requires other in s.reservations && s.reservations[other].sessionId != id
    requires s.reservations[other].path == "f" && s.reservations[other].expiresAt > 0
    ensures Step(s, op).answer.Claimed? && s.reservations[other] in Step(s, op).answer.conflicts
    ensures Step(s, op).answer.reservationId == op.newId
    ensures op.newId in Step(s, op).state.reservations && other in Step(s, op).state.reservations
    ensures other != op.newId ==> Step(s, op).state.reservations[other] == s.reservations[other]
  {
  }

  /** Two registered sessions, of which the first holds a reservation of `f` that lasts a second. */
  lemma HeldForASecond() returns (b: Behaviour, r: Reservation)
    ensures IsBehaviour(b) && |End(b).run.states| > 0 && End(b).clock == 0
    ensures End(b).conns.Keys == {0} && End(b).conns[0].open && End(b).conns[0].phase.Reading?
    ensures r == Reservation("r", "a", "f", Mode.Exclusive, 0, SECOND)
    ensures var s := Last(End(b).run);
      "b" in s.sessions && "x" !in s.minted && "r" in s.reservations && s.reservations["r"] == r
  {
    b := Registered0("a");
    var register := Register(Some(8), Forge, "/", []);
    SecondRegistration(Last(End(b).run), Op(register, 0, "b"));
    b := ThenServe(b, 0, register, "b");
    var claim := Claim(Some("a"), Some("f"), Given(Mode.Exclusive), Some(1));
    ClaimForASecond(Last(End(b).run), Op(claim, 0, "r"), "a");
    b := ThenServe(b, 0, claim, "r");
    r := Reservation("r", "a", "f", Mode.Exclusive, 0, SECOND);
  }

  /** The condition is sharp: a claim that read the clock before the expiry and got the lock after it still
      reports the reservation. It is inserted beside the one it reports. */
  lemma LateClaimStillReports() returns (b: Behaviour, m: nat, i: nat, n: nat, op: Op, answer: Answer, r: Reservation)
    ensures IsBehaviour(b) && m < i <= n < |b.events| && Applies(b, n, op, answer) && answer.Claimed?
    ensures LastRead(b, m, n, b.events[n].c)
    ensures r.expiresAt <= b.systems[i].clock && r in answer.conflicts
    ensures |b.systems[n + 1].run.states| > 0
    ensures var held := Last(b.systems[n + 1].run).reservations;
      && r.reservationId in held && held[r.reservationId] == r
      && answer.reservationId in held && answer.reservationId != r.reservationId
  {
    b, r := HeldForASecond();
    var claim := Claim(Some("b"), Some("f"), Given(Mode.Exclusive), None);
    b := Then(b, Arrive(0, Call(Number(1), claim)));
    m := |b.events|;
    b := Then(b, ReadClock(0));
    b := Then(b, Tick(SECOND));
    i := |b.events|;
    n := |b.events|;
    var sys := End(b);
    op := OpOf(sys, 0, "x");
    ClaimSees(Last(sys.run), op, "b", "r");
    var e;
    b, e := ThenApply(b, 0, "x");
    answer := e.out.answer;
    assert b.systems[n + 1] == End(b);
  }
}
