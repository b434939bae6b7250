/** Which reservations anybody was told of: a claim's answer may be lost with its connection, and then its
    identifier, which alone releases it, is learned from a listing or a conflict report or not at all. */
module LostClaims {
  import opened Protocol
  import opened Steps
  import opened Runs
  import opened Locks
  import opened Concurrency
  import opened Interleavings
  import opened Losses
  import opened Scenarios

  ghost predicate InSet(reservations: set<Reservation>, id: Id) {
    exists r :: r in reservations && r.reservationId == id
  }

  /** `answer` names reservation `id`. */
  ghost predicate Names(answer: Answer, id: Id) {
    || (answer.Claimed? && (answer.reservationId == id || InSet(answer.conflicts, id)))
    || (answer.Reservations? && InSet(answer.active, id))
  }

  /** Step `n` finds reservation `id` held and unexpired at its sample, and either lists it or claims against it. */
  ghost predicate Reveals(run: Run, n: nat, id: Id)
    requires Shaped(run) && n < |run.ops|
  {
    var op, held := run.ops[n], run.states[n].reservations;
    && id in held
    && match op.request
       case ReservationList(prefix) => Listed(held[id], prefix, op.now)
       case Claim(sessionId, path, mode, _) =>
         run.answers[n].Claimed? && sessionId.Some? && path.Some? && !mode.Unrecognised?
         && Blocks(held[id], sessionId.value, path.value, ModeOf(mode), op.now)
       case _ => false
  }

  lemma NamersAsk(s: State, op: Op, id: Id)
    requires Names(Step(s, op).answer, id)
    ensures op.request.Claim? || op.request.ReservationList?
  {
  }

  lemma KeyedSet(held: map<Id, Reservation>, shown: set<Reservation>, id: Id)
    requires forall k :: k in held ==> held[k].reservationId == k
    requires forall r :: r in shown ==> r.reservationId in held && r == held[r.reservationId]
    ensures InSet(shown, id) <==> id in held && held[id] in shown
  {
  }

  lemma ListingNamesIff(run: Run, n: nat, id: Id)
    requires IsRun(run) && n < |run.ops| && run.ops[n].request.ReservationList?
    ensures Names(run.answers[n], id) <==> Reveals(run, n, id)
  {
    RunInv(run, n);
    assert Stepped(run, n);
    KeyedSet(run.states[n].reservations, run.answers[n].active, id);
  }

  lemma ClaimNamesIff(run: Run, n: nat, id: Id)
    requires IsRun(run) && n < |run.ops| && run.ops[n].request.Claim?
    ensures Names(run.answers[n], id) <==> ClaimedAt(run, n, id) || Reveals(run, n, id)
  {
    RunInv(run, n);
    if run.answers[n].Claimed? {
      ClaimEffect(run, n, run.answers[n].reservationId);
      KeyedSet(run.states[n].reservations, run.answers[n].conflicts, id);
    } else {
      NoListing(run, n);
    }
  }

  lemma NoListing(run: Run, n: nat)
    requires IsRun(run) && n < |run.ops| && run.ops[n].request.Claim?
    ensures !run.answers[n].Reservations?
  {
    assert Stepped(run, n);
  }

  /** Which steps of a run name the reservation that step `m` claims: step `m`, and exactly the later ones that
      list it or report it. */
  lemma NamesIff(run: Run, m: nat, n: nat, id: Id)
    requires IsRun(run) && n < |run.ops| && ClaimedAt(run, m, id)
    ensures Names(run.answers[n], id) <==> n == m || (m < n && Reveals(run, n, id))
  {
    ClaimEffect(run, m, id);
    if n <= m {
      MintedGrows(run, n, m);
      RunInv(run, n);
    }
    if run.ops[n].request.ReservationList? {
      ListingNamesIff(run, n, id);
      assert !ClaimedAt(run, n, id) by { assert Stepped(run, n); }
    } else if run.ops[n].request.Claim? {
      ClaimNamesIff(run, n, id);
      if ClaimedAt(run, n, id) {
        ClaimedOnce(run, id, m, n);
      }
    } else {
      assert Stepped(run, n);
      if Names(run.answers[n], id) {
        NamersAsk(run.states[n], run.ops[n], id);
      }
    }
  }

  ghost function Naming(id: Id): (p: Answer -> bool)
    ensures forall answer :: p(answer) <==> Names(answer, id)
  {
    answer => Names(answer, id)
  }

  /** A response that names the reservation was written to some connection. */
  ghost predicate Told(sys: System, id: Id) {
    Written(sys, Naming(id))
  }

  /** Somebody was told of a claimed reservation exactly if its claim was answered, or a later listing or claim
      that found it unexpired was. */
  lemma ToldIff(sys: System, m: nat, id: Id)
    requires Reachable(sys) && ClaimedAt(sys.run, m, id)
    ensures Told(sys, id) <==>
      || m in sys.answeredAt
      || exists n: nat :: m < n < |sys.run.ops| && n in sys.answeredAt && Reveals(sys.run, n, id)
  {
    ReachableRun(sys);
    WrittenIff(sys, Naming(id));
    forall n: nat | n < |sys.run.ops|
      ensures Naming(id)(sys.run.answers[n]) <==> n == m || (m < n && Reveals(sys.run, n, id))
    {
      NamesIff(sys.run, m, n, id);
    }
  }

  // ----- a lost claim -----

  lemma ClaimUnopposed(s: State, op: Op, id: Id)
    requires op.request == Claim(Some(id), Some("f"), Given(Mode.Exclusive), None) && op.now == 0
    requires id in s.sessions && s.reservations == map[]
    ensures Step(s, op).answer == Claimed(op.newId, {})
    ensures Step(s, op).state.reservations
      == map[op.newId := Reservation(op.newId, id, "f", Mode.Exclusive, 0, 600 * NANOS_PER_SECOND)]
  {
  }

  lemma ClaimThenDrop() returns (b: Behaviour)
    ensures IsBehaviour(b) && Lost(End(b), 1) && Shaped(End(b).run) && |End(b).run.ops| == 2 && End(b).clock == 0
    ensures ClaimedAt(End(b).run, 1, "r") && End(b).run.answers[1].conflicts == {}
    ensures Last(End(b).run).reservations
      == map["r" := Reservation("r", "a", "f", Mode.Exclusive, 0, 600 * NANOS_PER_SECOND)]
  {
    var e;
    b := Registered0("a");
    b := ThenEnter(b, 0, Claim(Some("a"), Some("f"), Given(Mode.Exclusive), None));
    var sys := End(b);
    NotYetAnswered(b);
    ClaimUnopposed(Last(sys.run), OpOf(sys, 0, "r"), "a");
    b, e := ThenApply(b, 0, "r");
    DropAfterApply(sys, e);
    b := Then(b, Drop(0));
  }

  /** It happens: an exclusive reservation that was granted without conflict and is in force, and that nobody
      was told of. */
  lemma GrantCanBeLost() returns (sys: System, m: nat, id: Id)
    ensures Reachable(sys) && Lost(sys, m) && ClaimedAt(sys.run, m, id) && sys.run.answers[m].conflicts == {}
    ensures Granted(sys.run, |sys.run.ops|, sys.clock, id) && Last(sys.run).reservations[id].mode == Mode.Exclusive
    ensures !Told(sys, id)
  {
    m, id := 1, "r";
    var b := ClaimThenDrop();
    sys := End(b);
    assert Visits(b, |b.events|, sys);
    ToldIff(sys, m, id);
  }
}
