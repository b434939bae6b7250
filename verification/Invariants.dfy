/** Every step keeps the state invariant. */
module Invariants {
  import opened Protocol
  import opened Steps
  import opened Mailboxes

  lemma InitialInv()
    ensures Inv(Initial())
  {
  }

  /** Refreshing a heartbeat. */
  lemma TouchKeepsInv(s: State, id: Id, now: Time)
    requires Inv(s) && id in s.sessions
    ensures Inv(s.(sessions := s.sessions[id := s.sessions[id].(lastHeartbeat := now)]))
  {
  }

  lemma InsertKeepsInv(s: State, session: Session)
    requires Inv(s) && session.sessionId !in s.minted && session.pid !in s.byPid
    ensures Inv(InsertSession(s, session))
  {
    var t := InsertSession(s, session);
    assert PidBijection(t);
    assert Keyed(t);
    assert AllMinted(t);
  }

  lemma RegisterKeepsInv(s: State, op: Op)
    requires Inv(s) && op.newId !in s.minted
    requires op.request.Register? && op.request.pid.Some?
    ensures Inv(RegisterStep(s, op.request, op.now, op.newId).state)
  {
    var pid: Pid := op.request.pid.value % 0x1_0000_0000;
    if pid in s.byPid {
      OutOfSyncUnreachable(s, pid);
      TouchKeepsInv(s, s.byPid[pid], op.now);
    } else {
      var r := op.request;
      InsertKeepsInv(s, Session(op.newId, r.agentType, pid, op.now, r.workingDir, r.capabilities, op.now));
    }
  }

  lemma ReservationsKeepInv(s: State, reservations: map<Id, Reservation>, minted: set<Id>)
    requires Inv(s) && s.minted <= minted && reservations.Keys <= minted
    requires forall id :: id in reservations ==>
      reservations[id].reservationId == id && reservations[id].sessionId in s.minted
    ensures Inv(s.(reservations := reservations, minted := minted))
  {
  }

  lemma LiveStateKeepsInv(s: State, live: LiveState)
    requires Inv(s) && live.sessionId in s.sessions
    ensures Inv(s.(liveState := s.liveState[live.sessionId := live]))
  {
  }

  /** In a state that satisfies the invariant the reverse index is never out of sync:
      a pid in the index always has its session. */
  lemma OutOfSyncUnreachable(s: State, pid: Pid)
    requires Inv(s) && pid in s.byPid
    ensures s.byPid[pid] in s.sessions && s.sessions[s.byPid[pid]].pid == pid
    ensures forall id :: id in s.sessions && s.sessions[id].pid == pid ==> id == s.byPid[pid]
  {
  }

  lemma DeregisterKeepsInv(s: State, id: Id)
    requires Inv(s)
    ensures Inv(DeregisterStep(s, id).state)
  {
    var t := DeregisterStep(s, id).state;
    if id in s.sessions {
      forall p | p in t.byPid
        ensures t.byPid[p] in t.sessions
      {
        assert s.byPid[p] in s.sessions && s.sessions[s.byPid[p]].pid == p;
      }
    }
  }

  /** Replacing one mailbox by one that only has more read flags keeps the inbox invariants. */
  lemma MarkingKeepsInv(s: State, k: Id, box: seq<InboxMessage>)
    requires Inv(s) && |box| == |Mailbox(s, k)| && Grows(Mailbox(s, k), box)
    ensures Inv(s.(inbox := s.inbox[k := box]))
  {
    var t := s.(inbox := s.inbox[k := box]);
    forall k', i | k' in t.inbox && 0 <= i < |t.inbox[k']|
      ensures k' in s.inbox && i < |s.inbox[k']| && t.inbox[k'][i].messageId == s.inbox[k'][i].messageId
      ensures t.inbox[k'][i].toSession == s.inbox[k'][i].toSession
    {
    }
    forall id, a, i, b, j | HeldAt(t.inbox, a, i, id) && HeldAt(t.inbox, b, j, id)
      ensures a == b && i == j
    {
      assert HeldAt(s.inbox, a, i, id) && HeldAt(s.inbox, b, j, id);
    }
  }

  lemma PostKeepsInv(s: State, op: Op)
    requires Inv(s) && op.newId !in s.minted && WellFormedPost(op.request)
    ensures Inv(PostStep(s, op.request, op.now, op.newId).state)
  {
    var t := PostStep(s, op.request, op.now, op.newId).state;
    if op.request.fromSession.value in s.sessions {
      var to := op.request.toSession.value;
      var last := |Mailbox(s, to)|;
      forall k, i | k in t.inbox && 0 <= i < |t.inbox[k]|
        ensures (k == to && i == last) || (k in s.inbox && i < |s.inbox[k]| && t.inbox[k][i] == s.inbox[k][i])
      {
      }
      forall id, a, i, b, j | HeldAt(t.inbox, a, i, id) && HeldAt(t.inbox, b, j, id)
        ensures a == b && i == j
      {
        if id != op.newId {
          assert HeldAt(s.inbox, a, i, id) && HeldAt(s.inbox, b, j, id);
        }
      }
    }
  }

  lemma InboxListKeepsInv(s: State, id: Id, unreadOnly: bool, limit: Option<U64>)
    requires Inv(s)
    ensures Inv(InboxListStep(s, id, unreadOnly, limit).state)
  {
    var box := Mailbox(s, id);
    var budget := Budget(LimitOf(limit), |box|);
    DeliverMarksOnly(box, unreadOnly, budget);
    MarkingKeepsInv(s, id, Deliver(box, unreadOnly, budget).mailbox);
  }

  lemma InboxReadKeepsInv(s: State, id: Id)
    requires Inv(s)
    ensures Inv(InboxReadStep(s, id).state)
  {
    if exists k, i :: HeldAt(s.inbox, k, i, id) {
      var k, i :| HeldAt(s.inbox, k, i, id)
        && InboxReadStep(s, id).state == s.(inbox := s.inbox[k := s.inbox[k][i := Marked(s.inbox[k][i])]]);
      MarkingKeepsInv(s, k, s.inbox[k][i := Marked(s.inbox[k][i])]);
    }
  }

  lemma SessionStepKeepsInv(s: State, op: Op)
    requires Inv(s) && op.newId !in s.minted
    requires op.request.Register? || op.request.Deregister? || op.request.Heartbeat?
    ensures Inv(Step(s, op).state)
  {
    match op.request
    case Register(pid, _, _, _) => if pid.Some? { RegisterKeepsInv(s, op); }
    case Deregister(id) => if id.Some? { DeregisterKeepsInv(s, id.value); }
    case Heartbeat(id) => if id.Some? && id.value in s.sessions { TouchKeepsInv(s, id.value, op.now); }
  }

  lemma LockStepKeepsInv(s: State, op: Op)
    requires Inv(s) && op.newId !in s.minted
    requires op.request.Claim? || op.request.Release?
    ensures Inv(Step(s, op).state)
  {
    var t := Step(s, op).state;
    if Step(s, op).answer.Claimed? || Step(s, op).answer.Okay? {
      ReservationsKeepInv(s, t.reservations, t.minted);
    }
  }

  lemma InboxStepKeepsInv(s: State, op: Op)
    requires Inv(s) && op.newId !in s.minted
    requires op.request.Post? || op.request.InboxList? || op.request.InboxRead?
    ensures Inv(Step(s, op).state)
  {
    match op.request
    case Post(_, _, _, _, _) => if WellFormedPost(op.request) { PostKeepsInv(s, op); }
    case InboxList(id, unreadOnly, limit) => if id.Some? { InboxListKeepsInv(s, id.value, unreadOnly, limit); }
    case InboxRead(id) => if id.Some? { InboxReadKeepsInv(s, id.value); }
  }

  lemma StateSetKeepsInv(s: State, op: Op)
    requires Inv(s) && op.request.StateSet?
    ensures Inv(Step(s, op).state)
  {
    if Step(s, op).answer.Okay? {
      LiveStateKeepsInv(s, Step(s, op).state.liveState[op.request.sessionId.value]);
    }
  }

  lemma StepMints(s: State, op: Op)
    ensures s.minted <= Step(s, op).state.minted <= s.minted + {op.newId}
  {
  }

  /** Every handler keeps the invariant, given a fresh identifier. */
  lemma StepKeepsInv(s: State, op: Op)
    requires Inv(s) && op.newId !in s.minted
    ensures Inv(Step(s, op).state)
  {
    match op.request
    case Register(_, _, _, _) => SessionStepKeepsInv(s, op);
    case Deregister(_) => SessionStepKeepsInv(s, op);
    case Heartbeat(_) => SessionStepKeepsInv(s, op);
    case Claim(_, _, _, _) => LockStepKeepsInv(s, op);
    case Release(_) => LockStepKeepsInv(s, op);
    case Post(_, _, _, _, _) => InboxStepKeepsInv(s, op);
    case InboxList(_, _, _) => InboxStepKeepsInv(s, op);
    case InboxRead(_) => InboxStepKeepsInv(s, op);
    case StateSet(_, _, _, _, _) => StateSetKeepsInv(s, op);
    case _ =>
  }

  /** Within one mailbox too. */
  lemma MailboxDistinct(s: State, k: Id)
    requires UniqueMessages(s.inbox)
    ensures DistinctIds(Mailbox(s, k))
  {
    var box := Mailbox(s, k);
    forall i, j | 0 <= i < j < |box|
      ensures box[i].messageId != box[j].messageId
    {
      assert HeldAt(s.inbox, k, i, box[i].messageId) && HeldAt(s.inbox, k, j, box[j].messageId);
    }
  }

  /** In every reachable state `inbox.read` does not depend on the order in which mailboxes are searched:
      it marks the one message with that identifier and nothing else, or finds none and changes nothing. */
  lemma InboxReadIsExact(s: State, op: Op, id: Id)
    requires UniqueMessages(s.inbox) && op.request == InboxRead(Some(id))
    ensures forall k, i :: HeldAt(s.inbox, k, i, id) ==>
      Step(s, op) == Outcome(s.(inbox := s.inbox[k := s.inbox[k][i := Marked(s.inbox[k][i])]]),
                             OneMessage(Marked(s.inbox[k][i])))
    ensures (forall k, i :: !HeldAt(s.inbox, k, i, id)) ==> Step(s, op) == Outcome(s, Failed(NotFound))
  {
    if exists k, i :: HeldAt(s.inbox, k, i, id) {
      var k, i :| HeldAt(s.inbox, k, i, id)
        && Step(s, op) == Outcome(s.(inbox := s.inbox[k := s.inbox[k][i := Marked(s.inbox[k][i])]]),
                                  OneMessage(Marked(s.inbox[k][i])));
    }
  }

  /** The state after the message at position `i` of mailbox `k` is marked. */
  function MarkedAt(s: State, k: Id, i: nat): State
    requires k in s.inbox && i < |s.inbox[k]|
  {
    s.(inbox := s.inbox[k := s.inbox[k][i := Marked(s.inbox[k][i])]])
  }

  lemma FoundOutcome(s: State, op: Op, id: Id, k: Id, i: nat)
    requires Inv(s) && op.request == InboxRead(Some(id)) && HeldAt(s.inbox, k, i, id)
    ensures Step(s, op) == Outcome(MarkedAt(s, k, i), OneMessage(Marked(s.inbox[k][i]))) && Inv(MarkedAt(s, k, i))
  {
    InboxReadIsExact(s, op, id);
    MarkingKeepsInv(s, k, s.inbox[k][i := Marked(s.inbox[k][i])]);
  }

  lemma NotFoundOutcome(s: State, op: Op, id: Id)
    requires UniqueMessages(s.inbox) && op.request == InboxRead(Some(id)) && forall k, i :: !HeldAt(s.inbox, k, i, id)
    ensures Step(s, op) == Outcome(s, Failed(NotFound))
  {
    InboxReadIsExact(s, op, id);
  }

  lemma PostedOutcome(s: State, op: Op)
    requires Inv(s) && op.newId !in s.minted && WellFormedPost(op.request) && op.request.fromSession.value in s.sessions
    ensures var m := NewMessage(op.request, op.now, op.newId);
      Step(s, op) == Outcome(s.(inbox := s.inbox[m.toSession := Mailbox(s, m.toSession) + [m]],
                                minted := s.minted + {op.newId}), Posted(op.newId))
    ensures Inv(Step(s, op).state)
  {
    PostKeepsInv(s, op);
  }

  lemma ListedOutcome(s: State, op: Op, id: Id)
    requires Inv(s) && op.request.InboxList? && op.request.sessionId == Some(id)
    ensures Step(s, op) == InboxListStep(s, id, op.request.unreadOnly, op.request.limit) && Inv(Step(s, op).state)
  {
    InboxListKeepsInv(s, id, op.request.unreadOnly, op.request.limit);
  }

  /** The session a request acts for, of those that must be registered to act. */
  function ActorOf(request: Request): Option<Id> {
    match request
    case Heartbeat(id) => id
    case Claim(id, _, _, _) => id
    case Post(id, _, _, _, _) => id
    case StateSet(id, _, _, _, _) => id
    case _ => None
  }

  /** A refused or crashed request changes nothing, and a request for a session that is not registered is
      always refused or crashes. */
  lemma RefusalsChangeNothing(s: State, op: Op)
    ensures Step(s, op).answer.Failed? || Step(s, op).answer.Crashed? ==> Step(s, op).state == s
    ensures ActorOf(op.request).Some? && ActorOf(op.request).value !in s.sessions ==>
      Step(s, op).answer.Failed? || Step(s, op).answer.Crashed?
  {
  }
}
