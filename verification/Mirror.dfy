/** The intended write-through: each handler step paired with the store call that mirrors it. */
module Mirror {
  import opened Protocol
  import opened Steps
  import opened Mailboxes
  import opened Invariants
  import opened Runs
  import opened Db

  /** The columns of a message that the handlers do not set. */
  function RowOf(m: InboxMessage): InboxRow {
    InboxRow(m, "message", None, None)
  }

  /** The store call paired with step `op` that took the state to `s` and answered `answer`. */
  function MirrorWrite(op: Op, s: State, answer: Answer): Option<Write> {
    match op.request
    case Register(_, _, _, _) =>
      if answer.Registered? && answer.sessionId in s.sessions then Some(UpsertSession(s.sessions[answer.sessionId])) else None
    case Heartbeat(id) =>
      if answer.Beat? && id.Some? && id.value in s.sessions then Some(UpsertSession(s.sessions[id.value])) else None
    case Deregister(id) => if id.Some? then Some(Write.DeleteSession(id.value)) else None
    case Claim(_, _, _, _) =>
      if answer.Claimed? && answer.reservationId in s.reservations
      then Some(UpsertReservation(s.reservations[answer.reservationId])) else None
    case Release(id) => if answer.Okay? && id.Some? then Some(Write.DeleteReservation(id.value)) else None
    case StateSet(id, _, _, _, _) =>
      if answer.Okay? && id.Some? && id.value in s.liveState then Some(UpsertLiveState(s.liveState[id.value])) else None
    case Post(_, _, _, _, _) =>
      if answer.Posted? && WellFormedPost(op.request)
      then Some(InsertInbox(RowOf(NewMessage(op.request, op.now, op.newId)))) else None
    case InboxList(_, _, _) => if answer.Messages? then Some(MarkRead(IdsOf(answer.messages))) else None
    case InboxRead(_) => if answer.OneMessage? then Some(MarkRead([answer.message.messageId])) else None
    case _ => None
  }

  /** The reservations and live state of registered sessions. */
  function OwnedReservations(s: State): map<Id, Reservation> {
    map r | r in s.reservations && s.reservations[r].sessionId in s.sessions :: s.reservations[r]
  }

  function OwnedLiveState(s: State): map<Id, LiveState> {
    map id | id in s.liveState && id in s.sessions :: s.liveState[id]
  }

  /** The inbox table holds exactly the messages of all mailboxes. */
  ghost predicate SameInbox(inbox: map<Id, seq<InboxMessage>>, rows: map<Id, InboxRow>) {
    && (forall k, i :: k in inbox && 0 <= i < |inbox[k]| ==>
          inbox[k][i].messageId in rows && rows[inbox[k][i].messageId] == RowOf(inbox[k][i]))
    && (forall id :: id in rows ==> exists k, i :: HeldAt(inbox, k, i, id))
  }

  /** The sessions and the pid index are equal; reservations and live state are those of registered sessions
      (deleting a session cascades, while the maps keep its leftovers); the messages are equal. */
  ghost predicate Mirrors(s: State, t: Tables) {
    && t.sessions == s.sessions && t.byPid == s.byPid
    && t.reservations == OwnedReservations(s)
    && t.liveState == OwnedLiveState(s)
    && SameInbox(s.inbox, t.inbox)
  }

  /** The tables after the store call, if there is one and it is accepted. */
  function WriteThrough(t: Tables, w: Option<Write>): Option<Tables> {
    if w.None? then Some(t) else Perform(t, w.value)
  }

  /** One step of the simulation: the store accepts its call and ends up mirroring the new state. */
  ghost predicate Simulates(s: State, t: Tables, op: Op) {
    var out := Step(s, op);
    var u := WriteThrough(t, MirrorWrite(op, out.state, out.answer));
    u.Some? && Mirrors(out.state, u.value)
  }

  /** In the index of a bijection a session has one row, under its pid: the cascade drops just that one. */
  lemma IndexRowOf(s: State, id: Id)
    requires PidBijection(s)
    ensures (map p | p in s.byPid && s.byPid[p] != id :: s.byPid[p])
      == if id in s.sessions then s.byPid - {s.sessions[id].pid} else s.byPid
  {
    forall p | p in s.byPid
      ensures s.byPid[p] == id <==> id in s.sessions && p == s.sessions[id].pid
    {
      assert s.byPid[p] in s.sessions && s.sessions[s.byPid[p]].pid == p;
    }
  }

  lemma OwnedAfterDelete(s: State, id: Id)
    ensures var s' := s.(sessions := s.sessions - {id});
      && OwnedReservations(s') == (map r | r in OwnedReservations(s) && OwnedReservations(s)[r].sessionId != id
                                         :: OwnedReservations(s)[r])
      && OwnedLiveState(s') == OwnedLiveState(s) - {id}
  {
  }

  lemma DeregisterMirrors(s: State, t: Tables, id: Id)
    requires PidBijection(s) && Mirrors(s, t)
    ensures Perform(t, Write.DeleteSession(id)).Some?
    ensures Mirrors(DeregisterStep(s, id).state, Perform(t, Write.DeleteSession(id)).value)
  {
    IndexRowOf(s, id);
    OwnedAfterDelete(s, id);
    var s' := s.(sessions := s.sessions - {id});
    assert id !in s.sessions ==> s'.sessions == s.sessions;
    assert OwnedReservations(DeregisterStep(s, id).state) == OwnedReservations(s');
    assert OwnedLiveState(DeregisterStep(s, id).state) == OwnedLiveState(s');
  }

  /** Registering and refreshing put one session under its identifier and its pid; a new session owns
      nothing yet, for its identifier is fresh. */
  lemma UpsertSessionMirrors(s: State, t: Tables, session: Session, minted: set<Id>)
    requires Mirrors(s, t) && (session.sessionId in s.sessions
      || (session.sessionId !in s.liveState
          && forall r :: r in s.reservations ==> s.reservations[r].sessionId != session.sessionId))
    ensures Mirrors(s.(sessions := s.sessions[session.sessionId := session],
                       byPid := s.byPid[session.pid := session.sessionId], minted := minted),
                    t.(sessions := t.sessions[session.sessionId := session],
                       byPid := t.byPid[session.pid := session.sessionId]))
  {
    var s' := s.(sessions := s.sessions[session.sessionId := session]);
    assert OwnedReservations(s') == OwnedReservations(s);
    assert OwnedLiveState(s') == OwnedLiveState(s);
  }

  lemma ClaimMirrors(s: State, t: Tables, r: Reservation, minted: set<Id>)
    requires Mirrors(s, t) && r.sessionId in s.sessions
    ensures Mirrors(s.(reservations := s.reservations[r.reservationId := r], minted := minted),
                    t.(reservations := t.reservations[r.reservationId := r]))
  {
    var s' := s.(reservations := s.reservations[r.reservationId := r]);
    assert OwnedReservations(s') == OwnedReservations(s)[r.reservationId := r];
  }

  lemma ReleaseMirrors(s: State, t: Tables, id: Id)
    requires Mirrors(s, t)
    ensures Mirrors(s.(reservations := s.reservations - {id}), t.(reservations := t.reservations - {id}))
  {
    var s' := s.(reservations := s.reservations - {id});
    assert OwnedReservations(s') == OwnedReservations(s) - {id};
  }

  lemma StateSetMirrors(s: State, t: Tables, live: LiveState)
    requires Mirrors(s, t) && live.sessionId in s.sessions
    ensures Mirrors(s.(liveState := s.liveState[live.sessionId := live]),
                    t.(liveState := t.liveState[live.sessionId := live]))
  {
    var s' := s.(liveState := s.liveState[live.sessionId := live]);
    assert OwnedLiveState(s') == OwnedLiveState(s)[live.sessionId := live];
  }

  // ----- messages -----

  lemma PostMirrors(s: State, t: Tables, m: InboxMessage, minted: set<Id>)
    requires Mirrors(s, t) && (forall k, i :: !HeldAt(s.inbox, k, i, m.messageId))
    ensures m.messageId !in t.inbox
    ensures Mirrors(s.(inbox := s.inbox[m.toSession := Mailbox(s, m.toSession) + [m]], minted := minted),
                    t.(inbox := t.inbox[m.messageId := RowOf(m)]))
  {
    var inbox: map<Id, seq<InboxMessage>> := s.inbox[m.toSession := Mailbox(s, m.toSession) + [m]];
    var rows: map<Id, InboxRow> := t.inbox[m.messageId := RowOf(m)];
    var last := |Mailbox(s, m.toSession)|;
    forall k: Id, i: int | k in inbox && 0 <= i < |inbox[k]|
      ensures inbox[k][i].messageId in rows && rows[inbox[k][i].messageId] == RowOf(inbox[k][i])
    {
      if !(k == m.toSession && i == last) {
        assert HeldAt(s.inbox, k, i, inbox[k][i].messageId);
      }
    }
    forall id: Id | id in rows
      ensures exists k, i :: HeldAt(inbox, k, i, id)
    {
      if id == m.messageId {
        assert HeldAt(inbox, m.toSession, last, id);
      } else {
        var k, i :| HeldAt(s.inbox, k, i, id);
        assert HeldAt(inbox, k, i, id);
      }
    }
  }

  /** Identifiers taken from one mailbox are found in no other. */
  lemma OnlyInBox(s: State, k: Id, ids: seq<Id>, l: Id, i: int)
    requires UniqueMessages(s.inbox) && l in s.inbox && 0 <= i < |s.inbox[l]| && s.inbox[l][i].messageId in ids
    requires exists j :: 0 <= j < |Mailbox(s, k)| && Mailbox(s, k)[j].messageId == s.inbox[l][i].messageId
    ensures l == k
  {
    var id := s.inbox[l][i].messageId;
    var j :| 0 <= j < |Mailbox(s, k)| && Mailbox(s, k)[j].messageId == id;
    assert HeldAt(s.inbox, l, i, id) && HeldAt(s.inbox, k, j, id);
  }

  /** Marking by identifier in the table is marking, in one mailbox, the messages with those identifiers. */
  lemma MarkMirrors(s: State, t: Tables, k: Id, box: seq<InboxMessage>, ids: seq<Id>)
    requires UniqueMessages(s.inbox) && Mirrors(s, t) && |box| == |Mailbox(s, k)|
    requires forall i :: 0 <= i < |box| ==>
      box[i] == if Mailbox(s, k)[i].messageId in ids then Marked(Mailbox(s, k)[i]) else Mailbox(s, k)[i]
    requires forall id :: id in ids ==> exists j :: 0 <= j < |Mailbox(s, k)| && Mailbox(s, k)[j].messageId == id
    ensures Mirrors(s.(inbox := s.inbox[k := box]), t.(inbox := Marking(t.inbox, ids)))
  {
    var inbox: map<Id, seq<InboxMessage>> := s.inbox[k := box];
    var rows: map<Id, InboxRow> := Marking(t.inbox, ids);
    forall l: Id, i: int | l in inbox && 0 <= i < |inbox[l]|
      ensures inbox[l][i].messageId in rows && rows[inbox[l][i].messageId] == RowOf(inbox[l][i])
    {
      assert l in s.inbox && inbox[l][i].messageId == s.inbox[l][i].messageId;
      if s.inbox[l][i].messageId in ids {
        OnlyInBox(s, k, ids, l, i);
      }
    }
    forall id: Id | id in rows
      ensures exists l, i :: HeldAt(inbox, l, i, id)
    {
      var l, i :| HeldAt(s.inbox, l, i, id);
      assert HeldAt(inbox, l, i, id);
    }
  }

  /** Listing a mailbox and marking the delivered identifiers in the table agree. */
  lemma InboxListMirrors(s: State, t: Tables, id: Id, unreadOnly: bool, budget: nat)
    requires UniqueMessages(s.inbox) && Mirrors(s, t)
    ensures var d := Deliver(Mailbox(s, id), unreadOnly, budget);
      Mirrors(s.(inbox := s.inbox[id := d.mailbox]), t.(inbox := Marking(t.inbox, IdsOf(d.delivered))))
  {
    var box := Mailbox(s, id);
    var d := Deliver(box, unreadOnly, budget);
    var ids := IdsOf(d.delivered);
    MailboxDistinct(s, id);
    forall i | 0 <= i < |box|
      ensures d.mailbox[i] == if box[i].messageId in ids then Marked(box[i]) else box[i]
    {
      IdsPickTaken(box, unreadOnly, budget, i);
      DeliverNextMarks(box, unreadOnly, budget, i);
    }
    forall m | m in ids
      ensures exists j :: 0 <= j < |box| && box[j].messageId == m
    {
      var x: nat :| x < |ids| && ids[x] == m;
      var p := DeliveredFrom(box, unreadOnly, budget, x);
      assert box[p].messageId == m;
    }
    MarkMirrors(s, t, id, d.mailbox, ids);
  }

  lemma InboxReadMirrors(s: State, t: Tables, k: Id, i: int, id: Id)
    requires UniqueMessages(s.inbox) && Mirrors(s, t) && HeldAt(s.inbox, k, i, id)
    ensures Mirrors(s.(inbox := s.inbox[k := s.inbox[k][i := Marked(s.inbox[k][i])]]),
                    t.(inbox := Marking(t.inbox, [id])))
  {
    var box := s.inbox[k];
    forall j | 0 <= j < |box|
      ensures box[j].messageId in [id] <==> j == i
    {
      assert HeldAt(s.inbox, k, j, box[j].messageId);
    }
    MarkMirrors(s, t, k, box[i := Marked(box[i])], [id]);
  }

  // ----- steps and runs -----

  lemma RegisterSimulates(s: State, t: Tables, op: Op)
    requires PidBijection(s) && Keyed(s) && AllMinted(s) && Mirrors(s, t) && op.newId !in s.minted && op.request.Register?
    ensures Simulates(s, t, op)
  {
    if op.request.pid.Some? {
      var s' := Step(s, op).state;
      var session := s'.sessions[Step(s, op).answer.sessionId];
      UpsertSessionMirrors(s, t, session, s'.minted);
    }
  }

  lemma HeartbeatSimulates(s: State, t: Tables, op: Op)
    requires PidBijection(s) && Keyed(s) && Mirrors(s, t) && op.request.Heartbeat?
    ensures Simulates(s, t, op)
  {
    var id := op.request.sessionId;
    if id.Some? && id.value in s.sessions {
      TouchMirrors(s, t, id.value, op.now);
    }
  }

  lemma TouchMirrors(s: State, t: Tables, id: Id, now: Time)
    requires PidBijection(s) && Keyed(s) && Mirrors(s, t) && id in s.sessions
    ensures var session := s.sessions[id].(lastHeartbeat := now);
      && Perform(t, UpsertSession(session)).Some?
      && Mirrors(s.(sessions := s.sessions[id := session]), Perform(t, UpsertSession(session)).value)
  {
    assert s.byPid[s.sessions[id].pid := id] == s.byPid;
    UpsertSessionMirrors(s, t, s.sessions[id].(lastHeartbeat := now), s.minted);
  }

  lemma DeregisterSimulates(s: State, t: Tables, op: Op)
    requires PidBijection(s) && Mirrors(s, t) && op.request.Deregister?
    ensures Simulates(s, t, op)
  {
    if op.request.sessionId.Some? {
      DeregisterMirrors(s, t, op.request.sessionId.value);
    }
  }

  lemma ClaimSimulates(s: State, t: Tables, op: Op)
    requires Mirrors(s, t) && op.request.Claim?
    ensures Simulates(s, t, op)
  {
    if Step(s, op).answer.Claimed? {
      ClaimMirrors(s, t, NewReservation(op.request, op.now, op.newId), s.minted + {op.newId});
    }
  }

  lemma ReleaseSimulates(s: State, t: Tables, op: Op)
    requires Mirrors(s, t) && op.request.Release?
    ensures Simulates(s, t, op)
  {
    var id := op.request.reservationId;
    if id.Some? && id.value in s.reservations {
      ReleaseMirrors(s, t, id.value);
    }
  }

  lemma StateSetSimulates(s: State, t: Tables, op: Op)
    requires Mirrors(s, t) && op.request.StateSet?
    ensures Simulates(s, t, op)
  {
    if Step(s, op).answer.Okay? {
      StateSetMirrors(s, t, Step(s, op).state.liveState[op.request.sessionId.value]);
    }
  }

  lemma PostSimulates(s: State, t: Tables, op: Op)
    requires AllMinted(s) && Mirrors(s, t) && op.newId !in s.minted && op.request.Post?
    ensures Simulates(s, t, op)
  {
    if Step(s, op).answer.Posted? {
      PostMirrors(s, t, NewMessage(op.request, op.now, op.newId), s.minted + {op.newId});
    }
  }

  lemma InboxListSimulates(s: State, t: Tables, op: Op)
    requires UniqueMessages(s.inbox) && Mirrors(s, t) && op.request.InboxList?
    ensures Simulates(s, t, op)
  {
    var request := op.request;
    if request.sessionId.Some? {
      var box := Mailbox(s, request.sessionId.value);
      InboxListMirrors(s, t, request.sessionId.value, request.unreadOnly, Budget(LimitOf(request.limit), |box|));
    }
  }

  lemma InboxReadSimulates(s: State, t: Tables, op: Op)
    requires UniqueMessages(s.inbox) && Mirrors(s, t) && op.request.InboxRead?
    ensures Simulates(s, t, op)
  {
    if op.request.messageId.Some? {
      var id := op.request.messageId.value;
      if k, i :| HeldAt(s.inbox, k, i, id) {
        FoundSimulates(s, t, op, k, i, id);
      } else {
        InboxReadIsExact(s, op, id);
      }
    }
  }

  lemma FoundSimulates(s: State, t: Tables, op: Op, k: Id, i: nat, id: Id)
    requires UniqueMessages(s.inbox) && Mirrors(s, t) && op.request == InboxRead(Some(id)) && HeldAt(s.inbox, k, i, id)
    ensures Simulates(s, t, op)
  {
    InboxReadIsExact(s, op, id);
    InboxReadMirrors(s, t, k, i, id);
  }

  lemma QuerySimulates(s: State, t: Tables, op: Op)
    requires Mirrors(s, t)
    requires op.request.SessionList? || op.request.SessionGet? || op.request.ReservationList?
      || op.request.StateGet? || op.request.Discover? || op.request.Unknown?
    ensures Simulates(s, t, op)
  {
  }

  /** Every handler step paired with its store call keeps the tables a mirror of the maps, and the store
      never refuses the call. */
  lemma StepSimulates(s: State, t: Tables, op: Op)
    requires Inv(s) && Mirrors(s, t) && op.newId !in s.minted
    ensures Simulates(s, t, op)
  {
    match op.request
    case Register(_, _, _, _) => RegisterSimulates(s, t, op);
    case Heartbeat(_) => HeartbeatSimulates(s, t, op);
    case Deregister(_) => DeregisterSimulates(s, t, op);
    case Claim(_, _, _, _) => ClaimSimulates(s, t, op);
    case Release(_) => ReleaseSimulates(s, t, op);
    case StateSet(_, _, _, _, _) => StateSetSimulates(s, t, op);
    case Post(_, _, _, _, _) => PostSimulates(s, t, op);
    case InboxList(_, _, _) => InboxListSimulates(s, t, op);
    case InboxRead(_) => InboxReadSimulates(s, t, op);
    case _ => QuerySimulates(s, t, op);
  }

  function EmptyTables(): Tables {
    Tables(map[], map[], map[], map[], map[], map[], map[])
  }

  /** The tables after the store calls of the first `n` steps; `None` once one was refused. */
  ghost function TablesAfter(run: Run, n: nat): Option<Tables>
    requires Shaped(run) && n <= |run.ops|
  {
    if n == 0 then Some(EmptyTables())
    else
      var t := TablesAfter(run, n - 1);
      if t.None? then None
      else WriteThrough(t.value, MirrorWrite(run.ops[n - 1], run.states[n], run.answers[n - 1]))
  }

  /** Over every run the store accepts all its calls and mirrors the maps. */
  lemma {:induction false} RunMirrored(run: Run, n: nat)
    requires IsRun(run) && n <= |run.ops|
    ensures TablesAfter(run, n).Some? && Mirrors(run.states[n], TablesAfter(run, n).value)
  {
    if n > 0 {
      RunMirrored(run, n - 1);
      RunStepMirrored(run, n - 1, TablesAfter(run, n - 1).value);
    }
  }

  lemma RunStepMirrored(run: Run, i: nat, t: Tables)
    requires IsRun(run) && i < |run.ops| && Mirrors(run.states[i], t)
    ensures var u := WriteThrough(t, MirrorWrite(run.ops[i], run.states[i + 1], run.answers[i]));
      u.Some? && Mirrors(run.states[i + 1], u.value)
  {
    RunInv(run, i);
    assert Stepped(run, i);
    StepSimulates(run.states[i], t, run.ops[i]);
  }

  /** And all its keys hold. */
  lemma {:induction false} RunKeepsKeys(run: Run, n: nat)
    requires Shaped(run) && n <= |run.ops| && TablesAfter(run, n).Some?
    ensures ForeignKeys(TablesAfter(run, n).value) && PrimaryKeys(TablesAfter(run, n).value)
  {
    if n > 0 {
      RunKeepsKeys(run, n - 1);
      var w := MirrorWrite(run.ops[n - 1], run.states[n], run.answers[n - 1]);
      if w.Some? {
        WritesKeepKeys(TablesAfter(run, n - 1).value, w.value);
      }
    }
  }
}
