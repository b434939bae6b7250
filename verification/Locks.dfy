/** The advisory lock protocol over whole runs: what claims report, and what holders that were
    told of no conflict may rely on. */
module Locks {
  import opened Protocol
  import opened Paths
  import opened Steps
  import opened Runs

  /** Step `i` claimed reservation `id`. */
  ghost predicate ClaimedAt(run: Run, i: nat, id: Id)
    requires Shaped(run)
  {
    i < |run.ops| && run.answers[i].Claimed? && run.answers[i].reservationId == id
  }

  // ----- one step -----

  lemma ReservationFrame(s: State, op: Op)
    requires !op.request.Claim? && !op.request.Release?
    ensures Step(s, op).state.reservations == s.reservations
    ensures !Step(s, op).answer.Claimed?
  {
  }

  /** A reservation that is in the map after a step was there before, unchanged, or was just claimed. */
  lemma ReservationStep(run: Run, n: nat, id: Id)
    requires IsRun(run) && n < |run.ops| && id in run.states[n + 1].reservations
    ensures ClaimedAt(run, n, id) || id in run.states[n].reservations
    ensures id in run.states[n].reservations ==>
      run.states[n + 1].reservations[id] == run.states[n].reservations[id] && !ClaimedAt(run, n, id)
  {
    RunInv(run, n);
    assert Stepped(run, n);
    if !run.ops[n].request.Claim? && !run.ops[n].request.Release? {
      ReservationFrame(run.states[n], run.ops[n]);
    }
  }

  /** What a claim inserts and reports. */
  lemma ClaimEffect(run: Run, i: nat, id: Id)
    requires IsRun(run) && ClaimedAt(run, i, id)
    ensures var op := run.ops[i]; var s := run.states[i];
      && WellFormedClaim(op.request) && ClaimExpiry(op.now, TtlOf(op.request.ttlSec)).Some?
      && op.request.sessionId.value in s.sessions
      && id !in s.minted && id !in s.reservations && id in run.states[i + 1].minted
      && run.states[i + 1].reservations == s.reservations[id := NewReservation(op.request, op.now, id)]
      && (forall r :: r in run.answers[i].conflicts <==>
            r.reservationId in s.reservations && r == s.reservations[r.reservationId]
            && SamePath(r.path, op.request.path.value) && r.sessionId != op.request.sessionId.value
            && r.expiresAt > op.now && ModeConflicts(ModeOf(op.request.mode), r.mode))
  {
    RunInv(run, i);
    assert Stepped(run, i);
    if !run.ops[i].request.Claim? && !run.ops[i].request.Release? {
      ReservationFrame(run.states[i], run.ops[i]);
    }
  }

  // ----- whole runs -----

  /** A reservation in the map has been there, unchanged, ever since its identifier was minted. */
  lemma {:induction false} ReservationPersists(run: Run, id: Id, i: nat, n: nat)
    requires IsRun(run) && i <= n <= |run.ops|
    requires id in run.states[i].minted && id in run.states[n].reservations
    ensures id in run.states[i].reservations && run.states[i].reservations[id] == run.states[n].reservations[id]
  {
    if i < n {
      MintedGrows(run, i, n - 1);
      ReservationStep(run, n - 1, id);
      if ClaimedAt(run, n - 1, id) {
        ClaimEffect(run, n - 1, id);
      }
      ReservationPersists(run, id, i, n - 1);
    }
  }

  /** Every reservation in the map was claimed by an earlier step, whose session was registered at
      that step, and is exactly what that claim asked for at its own clock sample. */
  lemma {:induction false} HeldWasClaimed(run: Run, id: Id, n: nat) returns (i: nat)
    requires IsRun(run) && n <= |run.ops| && id in run.states[n].reservations
    ensures i < n && ClaimedAt(run, i, id) && WellFormedClaim(run.ops[i].request)
    ensures ClaimExpiry(run.ops[i].now, TtlOf(run.ops[i].request.ttlSec)).Some?
    ensures run.states[n].reservations[id] == NewReservation(run.ops[i].request, run.ops[i].now, id)
    ensures run.states[n].reservations[id].sessionId in run.states[i].sessions
    ensures id !in run.states[i].minted && id in run.states[i + 1].minted
  {
    ReservationStep(run, n - 1, id);
    if ClaimedAt(run, n - 1, id) {
      i := n - 1;
      ClaimEffect(run, i, id);
    } else {
      i := HeldWasClaimed(run, id, n - 1);
    }
  }

  /** An identifier is claimed at most once. */
  lemma ClaimedOnce(run: Run, id: Id, i: nat, j: nat)
    requires IsRun(run) && ClaimedAt(run, i, id) && ClaimedAt(run, j, id)
    ensures i == j
  {
    ClaimEffect(run, i, id);
    ClaimEffect(run, j, id);
    if i < j {
      MintedGrows(run, i + 1, j);
    } else if j < i {
      MintedGrows(run, j + 1, i);
    }
  }

  /** Of two reservations held together, the later claim reported the earlier one exactly when they
      are of different sessions, on the same path, in conflicting modes, and the earlier one was not
      expired at the clock sample of the later claim. The earlier claim never reports the later one. */
  lemma ReportIsExact(run: Run, n: nat, a: Id, i: nat, b: Id, j: nat)
    requires IsRun(run) && n <= |run.ops| && i < j
    requires a in run.states[n].reservations && b in run.states[n].reservations
    requires ClaimedAt(run, i, a) && ClaimedAt(run, j, b)
    ensures var ra := run.states[n].reservations[a]; var rb := run.states[n].reservations[b];
      && (ra in run.answers[j].conflicts <==>
            && ra.sessionId != rb.sessionId
            && SamePath(ra.path, rb.path)
            && ModeConflicts(rb.mode, ra.mode)
            && ra.expiresAt > rb.acquiredAt)
      && rb !in run.answers[i].conflicts
  {
    var k := HeldWasClaimed(run, a, n);
    ClaimedOnce(run, a, i, k);
    var l := HeldWasClaimed(run, b, n);
    ClaimedOnce(run, b, j, l);
    RunInv(run, n);
    ClaimEffect(run, i, a);
    ClaimEffect(run, j, b);
    MintedGrows(run, i + 1, j);
    ReservationPersists(run, a, j, n);
    MintedGrows(run, i, j);
    RunInv(run, i);
  }

  /** Accountability: at any instant `t` not before the clock samples of the run, of two unexpired
      reservations of different sessions on the same path in conflicting modes, the one claimed
      second was told of the first. No order of the samples is assumed. */
  lemma Accountability(run: Run, n: nat, t: Time, a: Id, i: nat, b: Id, j: nat)
    requires IsRun(run) && n <= |run.ops| && i < j && SampledBy(run, t)
    requires a in run.states[n].reservations && b in run.states[n].reservations
    requires ClaimedAt(run, i, a) && ClaimedAt(run, j, b)
    requires var ra := run.states[n].reservations[a]; var rb := run.states[n].reservations[b];
      ra.expiresAt > t && ra.sessionId != rb.sessionId && SamePath(ra.path, rb.path) && ModeConflicts(ra.mode, rb.mode)
    ensures run.states[n].reservations[a] in run.answers[j].conflicts
  {
    ReportIsExact(run, n, a, i, b, j);
    var l := HeldWasClaimed(run, b, n);
    ClaimedOnce(run, b, j, l);
  }

  /** No clock sample of the run is later than `t`. */
  ghost predicate SampledBy(run: Run, t: Time) {
    forall op :: op in run.ops ==> op.now <= t
  }

  /** Reservation `id` is held after `n` steps, unexpired at `t`, and its claim reported no conflict. */
  ghost predicate Granted(run: Run, n: nat, t: Time, id: Id)
    requires Shaped(run) && n <= |run.ops|
  {
    && id in run.states[n].reservations
    && run.states[n].reservations[id].expiresAt > t
    && exists i: nat :: ClaimedAt(run, i, id) && run.answers[i].conflicts == {}
  }

  /** Mutual exclusion: unexpired reservations that were granted without conflict are pairwise
      compatible across sessions, at every step of every run and every instant not before its samples. */
  lemma MutualExclusion(run: Run, n: nat, t: Time, a: Id, b: Id)
    requires IsRun(run) && n <= |run.ops| && SampledBy(run, t)
    requires Granted(run, n, t, a) && Granted(run, n, t, b)
    requires run.states[n].reservations[a].sessionId != run.states[n].reservations[b].sessionId
    requires SamePath(run.states[n].reservations[a].path, run.states[n].reservations[b].path)
    ensures !ModeConflicts(run.states[n].reservations[a].mode, run.states[n].reservations[b].mode)
  {
    var i: nat :| ClaimedAt(run, i, a) && run.answers[i].conflicts == {};
    var j: nat :| ClaimedAt(run, j, b) && run.answers[j].conflicts == {};
    if ModeConflicts(run.states[n].reservations[a].mode, run.states[n].reservations[b].mode) {
      if i < j {
        Accountability(run, n, t, a, i, b, j);
      } else if j < i {
        Accountability(run, n, t, b, j, a, i);
      }
    }
  }

  /** The sessions granted `path` in `mode` after `n` steps, at `t`. */
  ghost function Holders(run: Run, n: nat, t: Time, path: Path, mode: Mode): set<Id>
    requires Shaped(run) && n <= |run.ops|
  {
    set id | id in run.states[n].reservations && Granted(run, n, t, id)
      && SamePath(run.states[n].reservations[id].path, path) && run.states[n].reservations[id].mode == mode
      :: run.states[n].reservations[id].sessionId
  }

  /** Readers and writers: if a session is granted a path exclusively it is the only session granted it;
      otherwise at most one session is granted it for writing, beside any number of readers. */
  lemma ReadersAndWriters(run: Run, n: nat, t: Time, path: Path)
    requires IsRun(run) && n <= |run.ops| && SampledBy(run, t)
    ensures forall x, y | x in Holders(run, n, t, path, Mode.Exclusive)
        && y in Holders(run, n, t, path, Mode.Read) + Holders(run, n, t, path, Mode.Write)
                + Holders(run, n, t, path, Mode.Exclusive) :: x == y
    ensures forall x, y | x in Holders(run, n, t, path, Mode.Write) && y in Holders(run, n, t, path, Mode.Write) :: x == y
  {
    forall a, b | a in run.states[n].reservations && b in run.states[n].reservations
        && Granted(run, n, t, a) && Granted(run, n, t, b)
        && SamePath(run.states[n].reservations[a].path, path) && SamePath(run.states[n].reservations[b].path, path)
        && ModeConflicts(run.states[n].reservations[a].mode, run.states[n].reservations[b].mode)
      ensures run.states[n].reservations[a].sessionId == run.states[n].reservations[b].sessionId
    {
      if run.states[n].reservations[a].sessionId != run.states[n].reservations[b].sessionId {
        MutualExclusion(run, n, t, a, b);
      }
    }
  }

  // ----- lifetime -----

  /** A released identifier is out of the map for good, so it is released successfully at most once. */
  lemma ReleasedOnce(run: Run, id: Id, i: nat, j: nat)
    requires IsRun(run) && i < j < |run.ops|
    requires run.ops[i].request == Release(Some(id)) && run.ops[j].request == Release(Some(id))
    requires run.answers[i] == Okay
    ensures run.answers[j] == Failed(NotFound)
    ensures id !in run.states[j].reservations
  {
    RunInv(run, i);
    assert Stepped(run, i) && Stepped(run, j);
    assert id in run.states[i].minted;
    MintedGrows(run, i, i + 1);
    if id in run.states[j].reservations {
      ReservationPersists(run, id, i + 1, j);
    }
  }

  /** Deregistering changes no reservation, live state or mailbox. So the promise that it releases the
      session's reservations is kept exactly by the sessions that had none. */
  lemma DeregisterReleasesNothing(s: State, id: Id, now: Time, newId: Id)
    requires id in s.sessions
    ensures var t := Step(s, Op(Deregister(Some(id)), now, newId)).state;
      && t == s.(sessions := t.sessions, byPid := t.byPid)
      && ((forall r :: r in t.reservations ==> t.reservations[r].sessionId != id)
          <==> (forall r :: r in s.reservations ==> s.reservations[r].sessionId != id))
  {
  }

  /** For instance in a run of a registration, a claim and a deregistration. */
  lemma HolderIsGone() returns (run: Run)
    ensures IsRun(run) && "r" in Last(run).reservations
    ensures Last(run).reservations["r"].sessionId !in Last(run).sessions
  {
    var register := Op(Register(Some(7), Forge, "/", []), 0, "a");
    var claim := Op(Claim(Some("a"), Some("f"), Absent, None), 0, "r");
    var deregister := Op(Deregister(Some("a")), 0, "x");
    run := Start();
    ExtendChain(run, register);
    run := Extend(run, register);
    assert Last(run).sessions.Keys == Last(run).minted == {"a"};
    ExtendChain(run, claim);
    run := Extend(run, claim);
    assert Last(run).reservations["r"].sessionId == "a" && Last(run).minted == {"a", "r"};
    ExtendChain(run, deregister);
    run := Extend(run, deregister);
  }

  /** Blocking is by components and listing by text: of the reservations that block a claim, a listing of the
      claimed path shows those whose text extends its text. */
  lemma ListingShowsIff(s: State, sessionId: Id, path: Path, mode: Mode, now: Time, r: Reservation)
    requires r in Blockers(s, sessionId, path, mode, now)
    ensures r in Active(s, Some(path), now) <==> path <= r.path
  {
  }

  /** So it shows all of them where paths are spelled canonically. */
  lemma ListingExplainsCanonical(s: State, sessionId: Id, path: Path, mode: Mode, now: Time)
    requires Canonical(path) && forall id :: id in s.reservations ==> Canonical(s.reservations[id].path)
    ensures Blockers(s, sessionId, path, mode, now) <= Active(s, Some(path), now)
  {
    forall r | r in Blockers(s, sessionId, path, mode, now)
      ensures r in Active(s, Some(path), now)
    {
      assert r.path == Render(Components(r.path)) == path;
    }
  }

  /** For instance a reservation of `a//b` blocks a claim on `a/b` that a listing of `a/b` does not explain. */
  lemma ListingMissesBlocker(s: State, id: Id, sessionId: Id, now: Time)
    requires id in s.reservations && s.reservations[id].sessionId != sessionId
    requires s.reservations[id].path == "a//b" && s.reservations[id].expiresAt > now
    ensures s.reservations[id] in Blockers(s, sessionId, "a/b", Mode.Exclusive, now)
    ensures s.reservations[id] !in Active(s, Some("a/b"), now)
  {
    DoubledSlash("a", "b");
    assert "a" + "/" + ("/" + "b") == "a//b" && "a" + "/" + "b" == "a/b";
    assert "a//b"[2] == '/' && "a/b"[2] == 'b';
  }
}
