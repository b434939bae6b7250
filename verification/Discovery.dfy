/** What `discover.agents` finds, and what deregistered sessions leave behind. */
module Discovery {
  import opened Protocol
  import opened Steps
  import opened Invariants
  import opened Runs

  /** The sessions that satisfy every filter that was given, said filter by filter. */
  ghost predicate Satisfies(s: State, id: Id, prefix: Option<Path>, branch: Option<string>, capabilities: set<string>) {
    && id in s.sessions
    && match prefix {
         case None => true
         case Some(p) => id in s.liveState && exists f :: s.liveState[id].focusFile == Some(f) && p <= f
       }
    && match branch {
         case None => true
         case Some(b) => id in s.liveState && s.liveState[id].focusBranch == Some(b)
       }
    && capabilities <= set c | c in s.sessions[id].capabilities
  }

  lemma SatisfiesIsDiscovered(s: State, id: Id, prefix: Option<Path>, branch: Option<string>, capabilities: seq<string>)
    ensures Satisfies(s, id, prefix, branch, set c | c in capabilities) <==>
      Discovered(s, id, prefix, branch, capabilities)
  {
    var wanted := set c | c in capabilities;
    if Satisfies(s, id, prefix, branch, wanted) {
      forall c | c in capabilities
        ensures c in s.sessions[id].capabilities
      {
        assert c in wanted;
      }
    }
  }

  /** What a summary says of its session. */
  ghost predicate Summarises(s: State, x: Summary) {
    var id := x.sessionId;
    && id in s.sessions
    && x.pid in s.byPid && s.byPid[x.pid] == id
    && x.agentType == s.sessions[id].agentType && x.lastHeartbeat == s.sessions[id].lastHeartbeat
    && (id in s.liveState ==> x.status == s.liveState[id].status && x.focusFile == s.liveState[id].focusFile)
    && (id !in s.liveState ==> x.status == Idle && x.focusFile == None)
  }

  /** The summaries found are exact: a session has one exactly when it satisfies all the given filters, it has
      only one, and that carries its own pid, heartbeat and (defaulted) live status. */
  lemma DiscoverIsExact(s: State, id: Id, prefix: Option<Path>, branch: Option<string>, capabilities: seq<string>)
    requires Inv(s)
    ensures var found := Found(s, prefix, branch, capabilities);
      && (Satisfies(s, id, prefix, branch, set c | c in capabilities) <==> exists x :: x in found && x.sessionId == id)
      && (forall x :: x in found ==> Summarises(s, x))
      && (forall x, y :: x in found && y in found && x.sessionId == y.sessionId ==> x == y)
  {
    SatisfiesIsDiscovered(s, id, prefix, branch, capabilities);
    if Discovered(s, id, prefix, branch, capabilities) {
      assert SummaryOf(s, id) in Found(s, prefix, branch, capabilities);
    }
  }

  // ----- live state of sessions that are gone -----

  function Lookup(s: State, id: Id): Option<LiveState> {
    if id in s.liveState then Some(s.liveState[id]) else None
  }

  /** Equal except for the live state of identifiers that name no session. */
  ghost predicate SameButDead(s: State, t: State) {
    && t == s.(liveState := t.liveState)
    && forall id :: id in s.sessions ==> Lookup(s, id) == Lookup(t, id)
  }

  /** `state.get` on an identifier without a session whose leftover live state differs. */
  ghost predicate AsksTheDead(s: State, t: State, request: Request) {
    && request.StateGet? && request.sessionId.Some?
    && request.sessionId.value !in s.sessions
    && Lookup(s, request.sessionId.value) != Lookup(t, request.sessionId.value)
  }

  lemma SameInboxStep(s: State, t: State, op: Op)
    requires SameButDead(s, t)
    requires op.request.Post? || op.request.InboxList?
    ensures SameButDead(Step(s, op).state, Step(t, op).state)
    ensures Step(s, op).answer == Step(t, op).answer
  {
  }

  lemma SameReadStep(s: State, t: State, op: Op)
    requires UniqueMessages(s.inbox) && SameButDead(s, t) && op.request.InboxRead?
    ensures SameButDead(Step(s, op).state, Step(t, op).state)
    ensures Step(s, op).answer == Step(t, op).answer
  {
    if op.request.messageId.Some? {
      var id := op.request.messageId.value;
      InboxReadIsExact(s, op, id);
      InboxReadIsExact(t, op, id);
      if k, i :| HeldAt(s.inbox, k, i, id) {
        assert HeldAt(t.inbox, k, i, id);
      } else {
        assert forall k, i :: !HeldAt(t.inbox, k, i, id);
      }
    }
  }

  lemma SameLockStep(s: State, t: State, op: Op)
    requires SameButDead(s, t)
    requires op.request.Claim? || op.request.Release? || op.request.ReservationList?
    ensures SameButDead(Step(s, op).state, Step(t, op).state)
    ensures Step(s, op).answer == Step(t, op).answer
  {
  }

  lemma SameRegisterStep(s: State, t: State, op: Op)
    requires SameButDead(s, t) && op.newId !in s.liveState && op.newId !in t.liveState && op.request.Register?
    ensures SameButDead(Step(s, op).state, Step(t, op).state)
    ensures Step(s, op).answer == Step(t, op).answer
  {
    assert Lookup(s, op.newId) == Lookup(t, op.newId);
  }

  lemma SameSessionStep(s: State, t: State, op: Op)
    requires SameButDead(s, t) && (op.request.Deregister? || op.request.Heartbeat?)
    ensures SameButDead(Step(s, op).state, Step(t, op).state)
    ensures Step(s, op).answer == Step(t, op).answer
  {
  }

  lemma SameQueryStep(s: State, t: State, op: Op)
    requires SameButDead(s, t)
    requires op.request.SessionList? || op.request.SessionGet? || op.request.Discover?
      || op.request.StateSet? || op.request.StateGet? || op.request.Unknown?
    ensures SameButDead(Step(s, op).state, Step(t, op).state)
    ensures Step(s, op).answer == Step(t, op).answer <==> !AsksTheDead(s, t, op.request)
  {
    match op.request
    case Discover(prefix, branch, capabilities) =>
      assert Found(s, prefix, branch, capabilities) == Found(t, prefix, branch, capabilities) by {
        forall id | id in s.sessions
          ensures SummaryOf(s, id) == SummaryOf(t, id)
          ensures Discovered(s, id, prefix, branch, capabilities) == Discovered(t, id, prefix, branch, capabilities)
        {
          assert Lookup(s, id) == Lookup(t, id);
        }
      }
    case _ =>
  }

  /** Live state left behind by a deregistered session changes no answer except that of a `state.get` for
      that very identifier, and no other part of the next state: identifiers are never reused. */
  lemma DeadLiveStateIsSilent(s: State, t: State, op: Op)
    requires Inv(s) && Inv(t) && SameButDead(s, t) && op.newId !in s.minted
    ensures SameButDead(Step(s, op).state, Step(t, op).state)
    ensures Step(s, op).answer == Step(t, op).answer <==> !AsksTheDead(s, t, op.request)
  {
    match op.request
    case Register(_, _, _, _) => SameRegisterStep(s, t, op);
    case Deregister(_) => SameSessionStep(s, t, op);
    case Heartbeat(_) => SameSessionStep(s, t, op);
    case Claim(_, _, _, _) => SameLockStep(s, t, op);
    case Release(_) => SameLockStep(s, t, op);
    case ReservationList(_) => SameLockStep(s, t, op);
    case Post(_, _, _, _, _) => SameInboxStep(s, t, op);
    case InboxList(_, _, _) => SameInboxStep(s, t, op);
    case InboxRead(_) => SameReadStep(s, t, op);
    case _ => SameQueryStep(s, t, op);
  }

  /** Over two runs of the same steps from states that differ only in the live state of identifiers without a
      session, the states go on to differ only in that, and the answers differ exactly at the steps that ask
      for such an identifier. */
  lemma {:induction false} DeadLiveStateStaysSilent(x: Run, y: Run, n: nat)
    requires Chain(x) && Chain(y) && x.ops == y.ops && n <= |x.ops|
    requires Inv(x.states[0]) && Inv(y.states[0]) && SameButDead(x.states[0], y.states[0])
    ensures SameButDead(x.states[n], y.states[n])
    ensures forall i :: 0 <= i < n ==>
      (x.answers[i] == y.answers[i] <==> !AsksTheDead(x.states[i], y.states[i], x.ops[i].request))
  {
    if n > 0 {
      DeadLiveStateStaysSilent(x, y, n - 1);
      ChainInv(x, n - 1);
      ChainInv(y, n - 1);
      assert Stepped(x, n - 1) && Stepped(y, n - 1);
      DeadLiveStateIsSilent(x.states[n - 1], y.states[n - 1], x.ops[n - 1]);
    }
  }
}
