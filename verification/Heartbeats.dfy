/** When a session's heartbeat can go back: only between calls that overlap. */
module Heartbeats {
  import opened Protocol
  import opened Runs
  import opened RoundTrips
  import opened Concurrency
  import opened Scenarios

  /** The heartbeat of session `id` before step `n`. */
  function BeatBefore(sys: System, id: Id, n: nat): Time
    requires n < |sys.run.states| && id in sys.run.states[n].sessions
  {
    sys.run.states[n].sessions[id].lastHeartbeat
  }

  /** Step `k` read its request after step `j` was applied. */
  predicate Follows(sys: System, j: nat, k: nat)
    requires j < |sys.entries| && k < |sys.entries|
  {
    sys.entries[j].appliedAt < sys.entries[k].readAt
  }

  /** A step lowers the heartbeat of a session exactly when it touches the session with a sample below that
      of the last step that touched it, and only if it read its request before that one was applied. */
  lemma HeartbeatLoweredIff(sys: System, id: Id, n: nat) returns (j: nat)
    requires Reachable(sys) && n < |sys.run.ops|
    requires id in sys.run.states[n].sessions && id in sys.run.states[n + 1].sessions
    ensures |sys.entries| == |sys.run.ops|
    ensures j < n && Touches(sys.run, j, id) && forall k :: j < k < n ==> !Touches(sys.run, k, id)
    ensures BeatBefore(sys, id, n + 1) < BeatBefore(sys, id, n) <==>
      Touches(sys.run, n, id) && sys.run.ops[n].now < sys.run.ops[j].now
    ensures BeatBefore(sys, id, n + 1) < BeatBefore(sys, id, n) ==> !Follows(sys, j, n)
  {
    ReachableInv(sys);
    j := HeartbeatIsLastTouch(sys.run, id, n);
    TouchStep(sys.run, n, id);
  }

  /** Among the first `n` steps, each one from `i` on that touches the session read its request after every
      earlier one that touched it was applied. */
  ghost predicate OneAtATime(sys: System, id: Id, i: nat, n: nat)
    requires Shaped(sys.run) && n <= |sys.run.ops| == |sys.entries|
  {
    forall j, k | 0 <= j < k && i <= k < n && Touches(sys.run, j, id) && Touches(sys.run, k, id) :: Follows(sys, j, k)
  }

  /** The heartbeat of a session whose registrations and heartbeats do not overlap never goes back. */
  lemma {:induction false} HeartbeatMonotone(sys: System, id: Id, i: nat, n: nat)
    requires Reachable(sys) && i <= n <= |sys.run.ops| == |sys.entries|
    requires id in sys.run.states[i].sessions && id in sys.run.states[n].sessions
    requires OneAtATime(sys, id, i, n)
    ensures BeatBefore(sys, id, i) <= BeatBefore(sys, id, n)
  {
    if i < n {
      ReachableRun(sys);
      SessionBetween(sys.run, id, i, n - 1, n);
      HeartbeatMonotone(sys, id, i, n - 1);
      var j := HeartbeatLoweredIff(sys, id, n - 1);
    }
  }

  /** Extend a behaviour by the lock section of a heartbeat that has read its clock. */
  lemma ThenBeat(b: Behaviour, c: ConnId, id: Id, newId: Id) returns (t: Behaviour)
    requires IsBehaviour(b) && c in End(b).conns && End(b).conns[c].open && End(b).conns[c].phase.Clocked?
    requires End(b).conns[c].phase.request == Heartbeat(Some(id)) && |End(b).run.states| > 0
    requires id in Last(End(b).run).sessions && newId !in Last(End(b).run).minted
    ensures IsBehaviour(t) && |End(t).run.states| > 0 && End(t).steps == End(b).steps + 1
    ensures forall d :: d in End(b).conns && d != c ==> d in End(t).conns && End(t).conns[d] == End(b).conns[d]
    ensures Last(End(t).run).minted == Last(End(b).run).minted
    ensures id in Last(End(t).run).sessions
      && Last(End(t).run).sessions[id].lastHeartbeat == End(b).conns[c].phase.now
  {
    var e;
    t, e := ThenApply(b, c, newId);
  }

  /** Two connections that read the clock for heartbeats of `id`, connection 0 first, and wait for the lock. */
  lemma BothWaiting(id: Id) returns (b: Behaviour)
    ensures IsBehaviour(b) && |End(b).run.states| > 0
    ensures Last(End(b).run).minted == {id} && id in Last(End(b).run).sessions
    ensures forall c :: c == 0 || c == 1 ==>
      && c in End(b).conns && End(b).conns[c].open && End(b).conns[c].phase.Clocked?
      && End(b).conns[c].phase.request == Heartbeat(Some(id))
    ensures End(b).conns[0].phase.now < End(b).conns[1].phase.now
  {
    b := Registered0(id);
    b := Then(b, Accept(1));
    b := ThenEnter(b, 0, Heartbeat(Some(id)));
    b := Then(b, Tick(5));
    b := ThenEnter(b, 1, Heartbeat(Some(id)));
  }

  /** Calls that do overlap can: of two heartbeats of one session the one that read the clock first gets the
      lock last, and the heartbeat goes back although the clock does not. */
  lemma HeartbeatCanGoBack() returns (before: System, after: System, id: Id)
    ensures Reachable(before) && Reachable(after) && before.steps < after.steps
    ensures id in Last(before.run).sessions && id in Last(after.run).sessions
    ensures Last(after.run).sessions[id].lastHeartbeat < Last(before.run).sessions[id].lastHeartbeat
  {
    id := "sess_a";
    var b := BothWaiting(id);
    b := ThenBeat(b, 1, id, "x");
    before := End(b);
    assert Visits(b, |b.events|, before);
    b := ThenBeat(b, 0, id, "x");
    after := End(b);
    assert Visits(b, |b.events|, after);
  }
}
