/** What holds in every interleaving of connections. */
module Interleavings {
  import opened Protocol
  import opened Paths
  import opened Steps
  import opened Mailboxes
  import opened Runs
  import opened Locks
  import opened Deliveries
  import opened Concurrency

  /** A step lies between the reading of its request and the writing of its answer, so a request read after
      another was answered comes later in the run. */
  lemma RealTimeOrder(entries: seq<Entry>, answeredAt: map<nat, nat>, steps: nat)
    requires Ordered(entries, answeredAt, steps)
    ensures forall k :: k in answeredAt ==> k < |entries| && entries[k].readAt < entries[k].appliedAt < answeredAt[k]
    ensures forall k, l | k in answeredAt && 0 <= l < |entries| && answeredAt[k] < entries[l].readAt :: k < l
  {
    forall k, l | k in answeredAt && 0 <= l < |entries| && answeredAt[k] < entries[l].readAt
      ensures k < l
    {
      assert entries[k].appliedAt < entries[l].appliedAt;
    }
  }

  /** A connection has at most one step whose answer it did not write. */
  lemma AtMostOneUnanswered(sys: System, k: nat, l: nat)
    requires OneUnanswered(sys) && k < |sys.entries| && l < |sys.entries|
    requires sys.entries[k].conn == sys.entries[l].conn && k !in sys.answeredAt && l !in sys.answeredAt
    ensures k == l
  {
  }

  /** Linearizability, with connections dropped at any point: the shared state is the end of a sequential
      run of the handlers in lock order; each connection has written the responses to its own lines, in
      order, answered by its own steps of that run, which ran its own requests; the run respects real time;
      and each connection leaves at most one step unanswered. */
  lemma Linearizable(sys: System)
    requires Reachable(sys)
    ensures IsRun(sys.run) && |sys.entries| == |sys.run.ops|
    ensures AllSpeak(sys)
    ensures forall k :: k in sys.answeredAt ==>
      k < |sys.entries| && sys.entries[k].readAt < sys.entries[k].appliedAt < sys.answeredAt[k]
    ensures forall k, l | k in sys.answeredAt && 0 <= l < |sys.entries| && sys.answeredAt[k] < sys.entries[l].readAt
      :: k < l
    ensures forall k: nat, l: nat | k < |sys.entries| && l < |sys.entries|
      && sys.entries[k].conn == sys.entries[l].conn && k !in sys.answeredAt && l !in sys.answeredAt :: k == l
  {
    ReachableInv(sys);
    RealTimeOrder(sys.entries, sys.answeredAt, sys.steps);
    forall k: nat, l: nat | k < |sys.entries| && l < |sys.entries|
      && sys.entries[k].conn == sys.entries[l].conn && k !in sys.answeredAt && l !in sys.answeredAt
      ensures k == l
    {
      AtMostOneUnanswered(sys, k, l);
    }
  }

  /** A response with an answer that satisfies `p` was written to some connection. */
  ghost predicate Written(sys: System, p: Answer -> bool) {
    exists c, x: nat :: WroteSuch(sys, c, x, p)
  }

  ghost predicate WroteSuch(sys: System, c: ConnId, x: nat, p: Answer -> bool) {
    && c in sys.conns && x < |sys.conns[c].written|
    && sys.conns[c].written[x].Envelope? && p(sys.conns[c].written[x].body)
  }

  /** What was written is what the answered steps answered. */
  lemma WrittenIff(sys: System, p: Answer -> bool)
    requires Reachable(sys) && !p(Failed(InvalidParams))
    ensures Written(sys, p) <==>
      exists n: nat :: n < |sys.run.answers| && n in sys.answeredAt && p(sys.run.answers[n])
  {
    ReachableInv(sys);
    if c, x: nat :| WroteSuch(sys, c, x, p) {
      var n := WrittenWasAnswered(sys, c, x, p);
    }
    if n: nat :| n < |sys.run.answers| && n in sys.answeredAt && p(sys.run.answers[n]) {
      AnsweredWasWritten(sys, n, p);
    }
  }

  lemma WrittenWasAnswered(sys: System, c: ConnId, x: nat, p: Answer -> bool) returns (n: nat)
    requires |sys.entries| == |sys.run.answers| && WrittenAnswered(sys) && WroteSuch(sys, c, x, p)
    requires !p(Failed(InvalidParams))
    ensures n < |sys.run.answers| && n in sys.answeredAt && p(sys.run.answers[n])
  {
    var envelope := sys.conns[c].written[x];
    assert Answers(sys, c, envelope);
    n :| AnsweredOn(sys, n, c) && envelope.body == sys.run.answers[n];
  }

  lemma AnsweredWasWritten(sys: System, n: nat, p: Answer -> bool)
    requires |sys.entries| == |sys.run.answers| && OneUnanswered(sys) && AnswersWritten(sys)
    requires n < |sys.run.answers| && n in sys.answeredAt && p(sys.run.answers[n])
    ensures Written(sys, p)
  {
    var c := sys.entries[n].conn;
    assert AnsweredOn(sys, n, c) && Wrote(sys.conns[c], sys.run.answers[n]);
    var x: nat :| x < |sys.conns[c].written| && sys.conns[c].written[x].Envelope?
                  && sys.conns[c].written[x].body == sys.run.answers[n];
    assert WroteSuch(sys, c, x, p);
  }

  /** Step `k` was applied for a connection that is gone before its answer was written. */
  predicate Lost(sys: System, k: nat) {
    && k < |sys.entries| && k !in sys.answeredAt
    && sys.entries[k].conn in sys.conns && !sys.conns[sys.entries[k].conn].open
  }

  /** Then its answer is never written: the connection never opens again. */
  lemma {:induction false} LostStaysLost(b: Behaviour, i: nat, n: nat, k: nat)
    requires IsBehaviour(b) && i <= n <= |b.events| && Lost(b.systems[i], k)
    ensures Lost(b.systems[n], k)
  {
    if i < n {
      LostStaysLost(b, i, n - 1, k);
      BehaviourRepliesOwn(b, n - 1);
      assert Happens(b, n - 1);
      NextKeepsLost(b.systems[n - 1], b.events[n - 1], k);
    }
  }

  lemma BehaviourRepliesOwn(b: Behaviour, n: nat)
    requires IsBehaviour(b) && n <= |b.events|
    ensures RepliesOwn(b.systems[n])
  {
    BehaviourInv(b, n);
  }

  lemma NextKeepsLost(sys: System, e: Event, k: nat)
    requires RepliesOwn(sys) && Guard(sys, e) && Lost(sys, k)
    ensures Lost(Next(sys, e), k)
  {
  }

  /** A connection that is gone takes no further part. */
  lemma {:induction false} ClosedStaysClosed(b: Behaviour, i: nat, n: nat, c: ConnId)
    requires IsBehaviour(b) && i <= n <= |b.events| && c in b.systems[i].conns && !b.systems[i].conns[c].open
    ensures c in b.systems[n].conns && b.systems[n].conns[c] == b.systems[i].conns[c]
  {
    if i < n {
      ClosedStaysClosed(b, i, n - 1, c);
      assert Happens(b, n - 1);
    }
  }

  /** After shutdown began no connection is accepted. */
  lemma {:induction false} NoneAcceptedAfterShutdown(b: Behaviour, i: nat, n: nat)
    requires IsBehaviour(b) && i < n <= |b.events| && b.events[i] == Shutdown
    ensures !b.systems[n].accepting && b.systems[n].conns.Keys == b.systems[i].conns.Keys
  {
    assert Happens(b, n - 1);
    if i < n - 1 {
      NoneAcceptedAfterShutdown(b, i, n - 1);
    }
  }

  /** Reading the clock closes a connection exactly for a claim in order whose expiry cannot be represented; the
      shared state does not change. */
  lemma PanicClosesIff(b: Behaviour, n: nat, c: ConnId)
    requires IsBehaviour(b) && n < |b.events| && b.events[n] == ReadClock(c)
    ensures c in b.systems[n].conns && c in b.systems[n + 1].conns && b.systems[n].conns[c].phase.Entered?
    ensures var request := b.systems[n].conns[c].phase.request;
      !b.systems[n + 1].conns[c].open <==>
        && request.Claim? && request.sessionId.Some? && request.path.Some? && !request.mode.Unrecognised?
        && ClaimExpiry(b.systems[n].clock, if request.ttlSec.Some? then request.ttlSec.value else 600).None?
    ensures b.systems[n + 1].run == b.systems[n].run
  {
    assert Happens(b, n);
  }

  /** No step is a crash: a claim that overflows takes its connection down before the lock. */
  lemma CrashesTouchNothing(sys: System, i: nat)
    requires Reachable(sys) && i < |sys.run.ops|
    ensures sys.run.answers[i] != Crashed
  {
    ReachableInv(sys);
    assert Stepped(sys.run, i);
    OnlyPanicsCrash(sys.run.states[i], sys.run.ops[i]);
  }

  lemma OnlyPanicsCrash(s: State, op: Op)
    ensures Step(s, op).answer == Crashed <==> Panics(op.request, op.now)
  {
  }

  /** The lock guarantees at the current clock of any system: the reservations granted without conflict and
      not expired now obey the readers-writers discipline on every path. */
  lemma LockSafety(sys: System, path: Path)
    requires Reachable(sys)
    ensures forall x, y | x in Exclusives(sys, path) && y in Readers(sys, path) + Writers(sys, path) + Exclusives(sys, path)
      :: x == y
    ensures forall x, y | x in Writers(sys, path) && y in Writers(sys, path) :: x == y
  {
    ReachableInv(sys);
    SamplesBeforeClock(sys);
    ReadersAndWriters(sys.run, |sys.run.ops|, sys.clock, path);
  }

  /** The sessions that hold a path now, by mode, having been told of no conflict. */
  ghost function Exclusives(sys: System, path: Path): set<Id>
    requires Reachable(sys)
  {
    Holders(sys.run, |sys.run.ops|, sys.clock, path, Mode.Exclusive)
  }

  ghost function Writers(sys: System, path: Path): set<Id>
    requires Reachable(sys)
  {
    Holders(sys.run, |sys.run.ops|, sys.clock, path, Mode.Write)
  }

  ghost function Readers(sys: System, path: Path): set<Id>
    requires Reachable(sys)
  {
    Holders(sys.run, |sys.run.ops|, sys.clock, path, Mode.Read)
  }

  lemma SamplesBeforeClock(sys: System)
    requires Sampled(sys)
    ensures SampledBy(sys.run, sys.clock)
  {
    forall op | op in sys.run.ops
      ensures op.now <= sys.clock
    {
      var i :| 0 <= i < |sys.run.ops| && sys.run.ops[i] == op;
    }
  }

  /** Accountability at the current clock: of two unexpired reservations that conflict, one was reported to
      the other's claim. */
  lemma ConflictWasReported(sys: System, x: Id, y: Id) returns (i: nat, j: nat)
    requires Reachable(sys) && x != y && x in Last(sys.run).reservations && y in Last(sys.run).reservations
    requires var rx := Last(sys.run).reservations[x]; var ry := Last(sys.run).reservations[y];
      && rx.expiresAt > sys.clock && ry.expiresAt > sys.clock
      && rx.sessionId != ry.sessionId && SamePath(rx.path, ry.path) && ModeConflicts(rx.mode, ry.mode)
    ensures ClaimedAt(sys.run, i, x) && ClaimedAt(sys.run, j, y) && i != j
    ensures i < j ==> Last(sys.run).reservations[x] in sys.run.answers[j].conflicts
    ensures j < i ==> Last(sys.run).reservations[y] in sys.run.answers[i].conflicts
  {
    ReachableInv(sys);
    SamplesBeforeClock(sys);
    var m := |sys.run.ops|;
    i := HeldWasClaimed(sys.run, x, m);
    j := HeldWasClaimed(sys.run, y, m);
    if i < j {
      Accountability(sys.run, m, sys.clock, x, i, y, j);
    } else if j < i {
      Accountability(sys.run, m, sys.clock, y, j, x, i);
    }
  }

  /** Messages are stamped under the lock, so every mailbox is in time order. */
  lemma MailboxInTimeOrder(sys: System, k: Id, x: nat, y: nat)
    requires Reachable(sys) && x < y < |Mailbox(Last(sys.run), k)|
    ensures Mailbox(Last(sys.run), k)[x].ts <= Mailbox(Last(sys.run), k)[y].ts
  {
    ReachableInv(sys);
    var run := sys.run;
    PostedInTimeOrder(run, k, |run.ops|, sys.clock);
    MessagesConserved(run, k, |run.ops|);
    var posted := PostedTo(run, k, |run.ops|);
    var box := Mailbox(Last(run), k);
    assert posted[x] == Unmarked(box[x]) && posted[y] == Unmarked(box[y]);
  }

  /** A sample taken under the lock is not earlier than any sample before it. */
  ghost predicate LateSamplesInOrder(run: Run) {
    forall i, j :: 0 <= i < j < |run.ops| && !SamplesFirst(run.ops[j].request) ==> run.ops[i].now <= run.ops[j].now
  }

  lemma {:induction false} PostedInTimeOrder(run: Run, k: Id, n: nat, t: Time)
    requires Shaped(run) && n <= |run.ops| && LateSamplesInOrder(run)
    requires forall i :: 0 <= i < n ==> run.ops[i].now <= t
    ensures forall x, y :: 0 <= x < y < |PostedTo(run, k, n)| ==> PostedTo(run, k, n)[x].ts <= PostedTo(run, k, n)[y].ts
    ensures forall x :: 0 <= x < |PostedTo(run, k, n)| ==> PostedTo(run, k, n)[x].ts <= t
  {
    if n > 0 {
      PostedInTimeOrder(run, k, n - 1, t);
      if PostsTo(run, n - 1, k) {
        PostedInTimeOrder(run, k, n - 1, run.ops[n - 1].now);
      }
    }
  }
}
