/** Sequential runs of the handlers, as the states they pass through. The clock samples of a run are
    arbitrary: they need not follow the order of the steps, because three handlers read the clock
    before they take the lock. */
module Runs {
  import opened Protocol
  import opened Steps
  import opened Invariants

  /** `states[i]` is the state before step `i`; `answers[i]` is what step `i` answered. */
  datatype Run = Run(states: seq<State>, ops: seq<Op>, answers: seq<Answer>)

  ghost predicate Shaped(run: Run) {
    |run.states| == |run.ops| + 1 && |run.answers| == |run.ops|
  }

  /** Step `i` is a handler step, given an identifier that was never minted before. */
  ghost predicate Stepped(run: Run, i: nat)
    requires Shaped(run)
  {
    i < |run.ops| ==>
      && run.ops[i].newId !in run.states[i].minted
      && Outcome(run.states[i + 1], run.answers[i]) == Step(run.states[i], run.ops[i])
  }

  /** A chain of handler steps from any state. */
  ghost predicate Chain(run: Run) {
    Shaped(run) && forall i: nat :: Stepped(run, i)
  }

  /** A run from the empty state of a fresh daemon. */
  ghost predicate IsRun(run: Run) {
    Chain(run) && run.states[0] == Initial()
  }

  function Start(): Run {
    Run([Initial()], [], [])
  }

  function Last(run: Run): State
    requires |run.states| > 0
  {
    run.states[|run.states| - 1]
  }

  ghost function Extend(run: Run, op: Op): Run
    requires |run.states| > 0
  {
    var out := Step(Last(run), op);
    Run(run.states + [out.state], run.ops + [op], run.answers + [out.answer])
  }

  lemma ExtendChain(run: Run, op: Op)
    requires Chain(run) && op.newId !in Last(run).minted
    ensures Chain(Extend(run, op))
  {
    var t := Extend(run, op);
    forall i: nat
      ensures Stepped(t, i)
    {
      assert Stepped(run, i);
    }
  }

  lemma {:induction false} ChainInv(run: Run, n: nat)
    requires Chain(run) && Inv(run.states[0]) && n <= |run.ops|
    ensures Inv(run.states[n])
  {
    if n > 0 {
      ChainInv(run, n - 1);
      assert Stepped(run, n - 1);
      StepKeepsInv(run.states[n - 1], run.ops[n - 1]);
    }
  }

  lemma RunInv(run: Run, n: nat)
    requires IsRun(run) && n <= |run.ops|
    ensures Inv(run.states[n])
  {
    InitialInv();
    ChainInv(run, n);
  }

  lemma {:induction false} MintedGrows(run: Run, i: nat, n: nat)
    requires IsRun(run) && i <= n <= |run.ops|
    ensures run.states[i].minted <= run.states[n].minted
  {
    if i < n {
      MintedGrows(run, i, n - 1);
      assert Stepped(run, n - 1);
      StepMints(run.states[n - 1], run.ops[n - 1]);
    }
  }

  // ----- sessions -----

  ghost predicate Deregisters(op: Op, id: Id) {
    op.request == Deregister(Some(id))
  }

  /** Only the three session handlers touch the sessions and the pid index. */
  lemma SessionFrame(s: State, op: Op)
    requires !op.request.Register? && !op.request.Deregister? && !op.request.Heartbeat?
    ensures Step(s, op).state.sessions == s.sessions && Step(s, op).state.byPid == s.byPid
  {
  }

  /** A session is removed by its own deregistration and by nothing else, and keeps its pid. */
  lemma SessionStep(s: State, op: Op, id: Id)
    requires PidBijection(s) && op.newId !in s.minted && id in s.minted
    ensures id in Step(s, op).state.sessions <==> id in s.sessions && !Deregisters(op, id)
    ensures id in Step(s, op).state.sessions ==> Step(s, op).state.sessions[id].pid == s.sessions[id].pid
  {
    if op.request.Register? || op.request.Deregister? || op.request.Heartbeat? {
    } else {
      SessionFrame(s, op);
    }
  }

  lemma RunSessionStep(run: Run, n: nat, id: Id)
    requires IsRun(run) && n < |run.ops| && id in run.states[n].minted
    ensures id in run.states[n + 1].sessions <==> id in run.states[n].sessions && !Deregisters(run.ops[n], id)
    ensures id in run.states[n + 1].sessions ==> run.states[n + 1].sessions[id].pid == run.states[n].sessions[id].pid
  {
    RunInv(run, n);
    assert Stepped(run, n);
    SessionStep(run.states[n], run.ops[n], id);
  }

  /** Once minted, an identifier names a session exactly until that session is deregistered. */
  lemma {:induction false} SessionLasts(run: Run, id: Id, i: nat, n: nat)
    requires IsRun(run) && i <= n <= |run.ops| && id in run.states[i].minted
    ensures id in run.states[n].sessions <==>
      id in run.states[i].sessions && forall k :: i <= k < n ==> !Deregisters(run.ops[k], id)
    ensures id in run.states[n].sessions ==> run.states[n].sessions[id].pid == run.states[i].sessions[id].pid
  {
    if i < n {
      SessionLasts(run, id, i, n - 1);
      MintedGrows(run, i, n - 1);
      RunSessionStep(run, n - 1, id);
    }
  }

  lemma SessionBetween(run: Run, id: Id, i: nat, k: nat, n: nat)
    requires IsRun(run) && i <= k <= n <= |run.ops|
    requires id in run.states[i].sessions && id in run.states[n].sessions
    ensures id in run.states[k].sessions
  {
    RunInv(run, i);
    SessionLasts(run, id, i, k);
    SessionLasts(run, id, i, n);
  }

  /** What a registration answers: the session that holds the pid, which is new if there was none. */
  lemma RunRegister(run: Run, n: nat)
    requires IsRun(run) && n < |run.ops| && run.ops[n].request.Register? && run.ops[n].request.pid.Some?
    ensures run.answers[n].Registered? && run.answers[n].leaseTtlSec == LEASE_TTL_SEC
    ensures var id := run.answers[n].sessionId; var pid := run.ops[n].request.pid.value % 0x1_0000_0000;
      && id in run.states[n + 1].sessions && run.states[n + 1].sessions[id].pid == pid
      && id in run.states[n + 1].minted
      && (forall other :: other in run.states[n].sessions && run.states[n].sessions[other].pid == pid ==> other == id)
      && (id in run.states[n].minted ==> id in run.states[n].sessions)
  {
    RunInv(run, n);
    assert Stepped(run, n);
  }

  /** Two registrations return the same identifier exactly when their pids agree modulo 2^32, which is all
      the daemon keeps of them, and that identifier was not deregistered in between. */
  lemma ReRegisterIff(run: Run, i: nat, j: nat)
    requires IsRun(run) && i < j < |run.ops|
    requires run.ops[i].request.Register? && run.ops[i].request.pid.Some?
    requires run.ops[j].request.Register? && run.ops[j].request.pid.Some?
    ensures run.answers[i].Registered? && run.answers[j].Registered?
    ensures run.answers[j].sessionId == run.answers[i].sessionId <==>
      && run.ops[i].request.pid.value % 0x1_0000_0000 == run.ops[j].request.pid.value % 0x1_0000_0000
      && forall k :: i < k < j ==> !Deregisters(run.ops[k], run.answers[i].sessionId)
  {
    RunRegister(run, i);
    RunRegister(run, j);
    SessionLasts(run, run.answers[i].sessionId, i + 1, j);
    SessionLasts(run, run.answers[i].sessionId, i + 1, j + 1);
    MintedGrows(run, i + 1, j);
  }

  /** An identifier that was deregistered never names a session again, nor does a registration return it. */
  lemma DeregisteredNeverReturns(run: Run, id: Id, i: nat, n: nat)
    requires IsRun(run) && i < n <= |run.ops|
    requires id in run.states[i].sessions && Deregisters(run.ops[i], id)
    ensures id !in run.states[n].sessions
    ensures n < |run.ops| && run.ops[n].request.Register? ==> run.answers[n] != Registered(id, LEASE_TTL_SEC)
  {
    RunInv(run, i);
    SessionLasts(run, id, i, n);
    MintedGrows(run, i, n);
    if n < |run.ops| && run.ops[n].request.Register? {
      if run.ops[n].request.pid.Some? {
        RunRegister(run, n);
      } else {
        assert Stepped(run, n);
      }
    }
  }
}
