/** The relational store: seven tables with foreign keys that cascade on delete. A row is kept as a record
    of its columns under its primary key; time columns hold the instants whose text module Rfc3339 gives. */
module Db {
  import opened Protocol

  datatype InboxRow = InboxRow(message: InboxMessage, messageType: string, threadId: Option<Id>,
                               references: Option<seq<string>>)

  datatype Thread = Thread(threadId: Id, title: string, topic: Option<string>, createdBy: Id, createdAt: Time,
                           status: string)

  datatype Tables = Tables(
    sessions: map<Id, Session>,
    byPid: map<Pid, Id>,
    reservations: map<Id, Reservation>,
    liveState: map<Id, LiveState>,
    inbox: map<Id, InboxRow>,
    threads: map<Id, Thread>,
    participants: map<(Id, Id), Time>)

  /** Every foreign key of the schema points to a row. */
  ghost predicate ForeignKeys(t: Tables) {
    && (forall p :: p in t.byPid ==> t.byPid[p] in t.sessions)
    && (forall id :: id in t.reservations ==> t.reservations[id].sessionId in t.sessions)
    && (forall id :: id in t.liveState ==> id in t.sessions)
    && (forall id :: id in t.threads ==> t.threads[id].createdBy in t.sessions)
    && (forall k :: k in t.participants ==> k.0 in t.threads && k.1 in t.sessions)
  }

  ghost predicate PrimaryKeys(t: Tables) {
    && (forall id :: id in t.sessions ==> t.sessions[id].sessionId == id)
    && (forall id :: id in t.reservations ==> t.reservations[id].reservationId == id)
    && (forall id :: id in t.liveState ==> t.liveState[id].sessionId == id)
    && (forall id :: id in t.inbox ==> t.inbox[id].message.messageId == id)
    && (forall id :: id in t.threads ==> t.threads[id].threadId == id)
  }

  /** The calls that write. */
  datatype Write =
    | UpsertSession(session: Session)
    | DeleteSession(id: Id)
    | UpsertReservation(reservation: Reservation)
    | DeleteReservation(id: Id)
    | UpsertLiveState(live: LiveState)
    | InsertInbox(row: InboxRow)
    | MarkRead(ids: seq<Id>)
    | UpsertThread(thread: Thread)
    | DeleteThread(id: Id)
    | AddParticipant(threadId: Id, sessionId: Id, now: Time)
    | RemoveParticipant(threadId: Id, sessionId: Id)

  /** A session row and, by cascade, the rows that refer to it, directly or through a thread it created. */
  function Cascade(t: Tables, id: Id): Tables {
    t.(sessions := t.sessions - {id},
       byPid := map p | p in t.byPid && t.byPid[p] != id :: t.byPid[p],
       reservations := map r | r in t.reservations && t.reservations[r].sessionId != id :: t.reservations[r],
       liveState := t.liveState - {id},
       threads := map h | h in t.threads && t.threads[h].createdBy != id :: t.threads[h],
       participants := map k | k in t.participants && k.1 != id
                             && !(k.0 in t.threads && t.threads[k.0].createdBy == id) :: t.participants[k])
  }

  function Marking(inbox: map<Id, InboxRow>, ids: seq<Id>): map<Id, InboxRow> {
    map m | m in inbox :: if m in ids then inbox[m].(message := inbox[m].message.(read := true)) else inbox[m]
  }

  /** What a call leaves in the tables; `None` when a foreign key refuses it, which changes nothing. */
  function Perform(t: Tables, w: Write): Option<Tables> {
    match w
    case UpsertSession(s) =>
      Some(t.(sessions := t.sessions[s.sessionId := s], byPid := t.byPid[s.pid := s.sessionId]))
    case DeleteSession(id) =>
      if id !in t.sessions then Some(t)
      else
        var u := Cascade(t, id);
        Some(u.(byPid := u.byPid - {t.sessions[id].pid}))
    case UpsertReservation(r) =>
      if r.sessionId !in t.sessions then None
      else Some(t.(reservations := t.reservations[r.reservationId := r]))
    case DeleteReservation(id) => Some(t.(reservations := t.reservations - {id}))
    case UpsertLiveState(l) =>
      if l.sessionId !in t.sessions then None
      else Some(t.(liveState := t.liveState[l.sessionId := l]))
    case InsertInbox(row) =>
      var id := row.message.messageId;
      var kept := if id in t.inbox then t.inbox[id].(message := t.inbox[id].message.(read := row.message.read)) else row;
      Some(t.(inbox := t.inbox[id := kept]))
    case MarkRead(ids) => Some(t.(inbox := Marking(t.inbox, ids)))
    case UpsertThread(h) =>
      if h.threadId in t.threads then
        var prior := t.threads[h.threadId];
        Some(t.(threads := t.threads[h.threadId := prior.(title := h.title, topic := h.topic, status := h.status)]))
      else if h.createdBy !in t.sessions then None
      else Some(t.(threads := t.threads[h.threadId := h]))
    case DeleteThread(id) =>
      Some(t.(threads := t.threads - {id},
              participants := map k | k in t.participants && k.0 != id :: t.participants[k]))
    case AddParticipant(h, id, now) =>
      if (h, id) in t.participants then Some(t)
      else if h !in t.threads || id !in t.sessions then None
      else Some(t.(participants := t.participants[(h, id) := now]))
    case RemoveParticipant(h, id) => Some(t.(participants := t.participants - {(h, id)}))
  }

  lemma DeleteKeepsKeys(t: Tables, id: Id)
    requires ForeignKeys(t) && PrimaryKeys(t)
    ensures ForeignKeys(Cascade(t, id)) && PrimaryKeys(Cascade(t, id))
  {
  }

  lemma MoreThreadsKeepKeys(t: Tables, threads: map<Id, Thread>)
    requires ForeignKeys(t) && PrimaryKeys(t) && t.threads.Keys <= threads.Keys
    requires forall id :: id in threads ==> threads[id].threadId == id && threads[id].createdBy in t.sessions
    ensures ForeignKeys(t.(threads := threads)) && PrimaryKeys(t.(threads := threads))
  {
  }

  lemma UpsertThreadKeepsKeys(t: Tables, h: Thread)
    requires ForeignKeys(t) && PrimaryKeys(t)
    ensures var u := Perform(t, UpsertThread(h)); u.Some? ==> ForeignKeys(u.value) && PrimaryKeys(u.value)
  {
    var row := if h.threadId in t.threads
               then t.threads[h.threadId].(title := h.title, topic := h.topic, status := h.status) else h;
    if row.createdBy in t.sessions {
      MoreThreadsKeepKeys(t, t.threads[h.threadId := row]);
    }
  }

  lemma DeleteThreadKeepsKeys(t: Tables, id: Id)
    requires ForeignKeys(t) && PrimaryKeys(t)
    ensures var u := Perform(t, DeleteThread(id)); u.Some? ==> ForeignKeys(u.value) && PrimaryKeys(u.value)
  {
  }

  lemma ParticipantWritesKeepKeys(t: Tables, w: Write)
    requires ForeignKeys(t) && PrimaryKeys(t)
    requires w.AddParticipant? || w.RemoveParticipant?
    ensures Perform(t, w).Some? ==> ForeignKeys(Perform(t, w).value) && PrimaryKeys(Perform(t, w).value)
  {
  }

  lemma MessageWritesKeepKeys(t: Tables, w: Write)
    requires ForeignKeys(t) && PrimaryKeys(t)
    requires w.InsertInbox? || w.MarkRead?
    ensures Perform(t, w).Some? ==> ForeignKeys(Perform(t, w).value) && PrimaryKeys(Perform(t, w).value)
  {
  }

  lemma DeletesKeepKeys(t: Tables, w: Write)
    requires ForeignKeys(t) && PrimaryKeys(t)
    requires w.DeleteSession? || w.DeleteReservation?
    ensures Perform(t, w).Some? ==> ForeignKeys(Perform(t, w).value) && PrimaryKeys(Perform(t, w).value)
  {
    if w.DeleteSession? {
      DeleteKeepsKeys(t, w.id);
    }
  }

  lemma UpsertsKeepKeys(t: Tables, w: Write)
    requires ForeignKeys(t) && PrimaryKeys(t)
    requires w.UpsertSession? || w.UpsertReservation? || w.UpsertLiveState?
    ensures Perform(t, w).Some? ==> ForeignKeys(Perform(t, w).value) && PrimaryKeys(Perform(t, w).value)
  {
  }

  /** Every call keeps all foreign keys and primary keys. */
  lemma WritesKeepKeys(t: Tables, w: Write)
    requires ForeignKeys(t) && PrimaryKeys(t)
    ensures Perform(t, w).Some? ==> ForeignKeys(Perform(t, w).value) && PrimaryKeys(Perform(t, w).value)
  {
    if w.UpsertThread? {
      UpsertThreadKeepsKeys(t, w.thread);
    } else if w.DeleteThread? {
      DeleteThreadKeepsKeys(t, w.id);
    } else if w.AddParticipant? || w.RemoveParticipant? {
      ParticipantWritesKeepKeys(t, w);
    } else if w.InsertInbox? || w.MarkRead? {
      MessageWritesKeepKeys(t, w);
    } else if w.DeleteSession? || w.DeleteReservation? {
      DeletesKeepKeys(t, w);
    } else {
      UpsertsKeepKeys(t, w);
    }
  }

  // ----- the rows a deletion reaches -----

  /** A row, by table and primary key. */
  datatype Row =
    | SessionRow(id: Id)
    | PidRow(pid: Pid)
    | ReservationRow(id: Id)
    | LiveRow(id: Id)
    | MessageRow(id: Id)
    | ThreadRow(id: Id)
    | ParticipantRow(threadId: Id, sessionId: Id)

  predicate HasRow(t: Tables, r: Row) {
    match r
    case SessionRow(id) => id in t.sessions
    case PidRow(p) => p in t.byPid
    case ReservationRow(id) => id in t.reservations
    case LiveRow(id) => id in t.liveState
    case MessageRow(id) => id in t.inbox
    case ThreadRow(id) => id in t.threads
    case ParticipantRow(h, id) => (h, id) in t.participants
  }

  /** Row `r` holds a foreign key to row `parent`, as the schema declares them. */
  predicate RefersTo(t: Tables, r: Row, parent: Row) {
    HasRow(t, r) &&
    match r
    case PidRow(p) => parent == SessionRow(t.byPid[p])
    case ReservationRow(id) => parent == SessionRow(t.reservations[id].sessionId)
    case LiveRow(id) => parent == SessionRow(id)
    case ThreadRow(id) => parent == SessionRow(t.threads[id].createdBy)
    case ParticipantRow(h, id) => parent == ThreadRow(h) || parent == SessionRow(id)
    case _ => false
  }

  /** A path of foreign keys from row `r` to row `target`. */
  ghost predicate IsPath(t: Tables, path: seq<Row>, r: Row, target: Row) {
    && |path| > 0 && path[0] == r && path[|path| - 1] == target
    && forall i :: 0 <= i < |path| - 1 ==> RefersTo(t, path[i], path[i + 1])
  }

  ghost predicate Reaches(t: Tables, r: Row, target: Row) {
    exists path :: IsPath(t, path, r, target)
  }

  /** The row reaches the session directly, or through a thread. */
  predicate Dependent(t: Tables, r: Row, id: Id) {
    || r == SessionRow(id)
    || RefersTo(t, r, SessionRow(id))
    || (r.ParticipantRow? && RefersTo(t, r, ThreadRow(r.threadId)) && RefersTo(t, ThreadRow(r.threadId), SessionRow(id)))
  }

  lemma {:induction false} PathIsDependent(t: Tables, path: seq<Row>, r: Row, id: Id)
    requires IsPath(t, path, r, SessionRow(id))
    ensures Dependent(t, r, id)
    decreases |path|
  {
    if |path| > 1 {
      assert RefersTo(t, path[0], path[1]);
      PathIsDependent(t, path[1..], path[1], id);
    }
  }

  /** Two foreign keys are as far as any path goes. */
  lemma ReachesIff(t: Tables, r: Row, id: Id)
    ensures Reaches(t, r, SessionRow(id)) <==> Dependent(t, r, id)
  {
    if path :| IsPath(t, path, r, SessionRow(id)) {
      PathIsDependent(t, path, r, id);
    }
    if r == SessionRow(id) {
      assert IsPath(t, [r], r, SessionRow(id));
    } else if RefersTo(t, r, SessionRow(id)) {
      assert IsPath(t, [r, SessionRow(id)], r, SessionRow(id));
    } else if Dependent(t, r, id) {
      assert IsPath(t, [r, ThreadRow(r.threadId), SessionRow(id)], r, SessionRow(id));
    }
  }

  /** The columns of a row are the same in both tables. */
  ghost predicate SameRow(t: Tables, u: Tables, r: Row)
    requires HasRow(t, r) && HasRow(u, r)
  {
    match r
    case SessionRow(id) => t.sessions[id] == u.sessions[id]
    case PidRow(p) => t.byPid[p] == u.byPid[p]
    case ReservationRow(id) => t.reservations[id] == u.reservations[id]
    case LiveRow(id) => t.liveState[id] == u.liveState[id]
    case MessageRow(id) => t.inbox[id] == u.inbox[id]
    case ThreadRow(id) => t.threads[id] == u.threads[id]
    case ParticipantRow(h, id) => t.participants[(h, id)] == u.participants[(h, id)]
  }

  /** What the deletion keeps, said with the two-step dependency of the schema. */
  lemma DeleteKeepsIff(t: Tables, id: Id, r: Row)
    requires HasRow(t, r)
    ensures HasRow(Perform(t, DeleteSession(id)).value, r) <==>
      id !in t.sessions || (!Dependent(t, r, id) && r != PidRow(t.sessions[id].pid))
  {
  }

  lemma UnknownHasNoDependents(t: Tables, id: Id, r: Row)
    requires ForeignKeys(t) && HasRow(t, r) && id !in t.sessions
    ensures !Dependent(t, r, id)
  {
  }

  lemma DeleteChangesNoRow(t: Tables, id: Id, r: Row)
    requires HasRow(t, r) && HasRow(Perform(t, DeleteSession(id)).value, r)
    ensures SameRow(t, Perform(t, DeleteSession(id)).value, r)
  {
  }

  /** Deleting a session removes exactly the rows from which it can be reached along foreign keys, and the
      index row of its pid; every other row stays as it was. */
  lemma DeleteIsCascadeClosure(t: Tables, id: Id, r: Row)
    requires ForeignKeys(t) && HasRow(t, r)
    ensures var u := Perform(t, DeleteSession(id)).value;
      && (HasRow(u, r) <==> !Reaches(t, r, SessionRow(id))
                            && !(id in t.sessions && r == PidRow(t.sessions[id].pid)))
      && (HasRow(u, r) ==> SameRow(t, u, r))
  {
    DeleteKeepsIff(t, id, r);
    ReachesIff(t, r, id);
    if id !in t.sessions {
      UnknownHasNoDependents(t, id, r);
    }
    if HasRow(Perform(t, DeleteSession(id)).value, r) {
      DeleteChangesNoRow(t, id, r);
    }
  }

  /** An upsert removes no row and changes no row but its own (and, for a session, the index row of its pid). */
  lemma UpsertDropsNothing(t: Tables, w: Write, r: Row)
    requires HasRow(t, r) && Perform(t, w).Some?
    requires w.UpsertSession? || w.UpsertReservation? || w.UpsertLiveState? || w.UpsertThread?
    ensures HasRow(Perform(t, w).value, r)
    ensures !SameRow(t, Perform(t, w).value, r) ==>
      || (w.UpsertSession? && (r == SessionRow(w.session.sessionId) || r == PidRow(w.session.pid)))
      || (w.UpsertReservation? && r == ReservationRow(w.reservation.reservationId))
      || (w.UpsertLiveState? && r == LiveRow(w.live.sessionId))
      || (w.UpsertThread? && r == ThreadRow(w.thread.threadId))
  {
  }

  /** The index row that a deletion drops by pid is another session's exactly when the index no longer names
      the deleted session there. That other session then keeps its row but cannot be found by its pid. */
  lemma DeleteLosesNamesakeIff(t: Tables, id: Id, other: Id)
    requires ForeignKeys(t) && id in t.sessions && other in t.sessions && other != id
    ensures var p := t.sessions[id].pid; var u := Perform(t, DeleteSession(id)).value;
      && other in u.sessions && p !in u.byPid
      && ((forall q :: q in t.byPid && t.byPid[q] == other ==> q in u.byPid && u.byPid[q] == other)
          <==> !(p in t.byPid && t.byPid[p] == other))
  {
  }

  /** For instance when two sessions were stored under one pid. */
  lemma NamesakeLost(a: Session, b: Session, t: Tables)
    requires a.sessionId != b.sessionId && a.pid == b.pid
    ensures var t1 := Perform(t, UpsertSession(a)).value; var t2 := Perform(t1, UpsertSession(b)).value;
      var u := Perform(t2, DeleteSession(a.sessionId)).value;
      b.sessionId in u.sessions && u.sessions[b.sessionId] == b && b.pid !in u.byPid
  {
  }

  // ----- the store -----

  class Store {
    var sessions: map<Id, Session>
    var sessionsByPid: map<Pid, Id>
    var reservations: map<Id, Reservation>
    var liveState: map<Id, LiveState>
    var inboxMessages: map<Id, InboxRow>
    var threads: map<Id, Thread>
    var participants: map<(Id, Id), Time>

    function Snapshot(): Tables
      reads this
    {
      Tables(sessions, sessionsByPid, reservations, liveState, inboxMessages, threads, participants)
    }

    /** The tables after call `w` in `before`, and whether it was accepted. */
    ghost predicate Did(before: Tables, w: Write, ok: bool)
      reads this
    {
      && ok == Perform(before, w).Some?
      && Snapshot() == if ok then Perform(before, w).value else before
    }

    constructor ()
      ensures Snapshot() == Tables(map[], map[], map[], map[], map[], map[], map[])
    {
      sessions, sessionsByPid, reservations, liveState := map[], map[], map[], map[];
      inboxMessages, threads, participants := map[], map[], map[];
    }

    method WriteSession(session: Session) returns (ok: bool)
      modifies this
      ensures Did(old(Snapshot()), UpsertSession(session), ok)
    {
      sessions := sessions[session.sessionId := session];
      sessionsByPid := sessionsByPid[session.pid := session.sessionId];
      ok := true;
    }

    /** Look up the pid, delete the session row (the engine cascades), then delete the index row of the pid. */
    method RemoveSession(id: Id) returns (ok: bool)
      modifies this
      ensures Did(old(Snapshot()), DeleteSession(id), ok)
    {
      var pid := if id in sessions then Some(sessions[id].pid) else None;
      DeleteSessionRow(id);
      if pid.Some? {
        sessionsByPid := sessionsByPid - {pid.value};
      }
      ok := true;
    }

    /** `ON DELETE CASCADE`: children of the session, then children of its threads. No row, no cascade. */
    method DeleteSessionRow(id: Id)
      modifies this
      ensures Snapshot() == if id in old(sessions) then Cascade(old(Snapshot()), id) else old(Snapshot())
    {
      if id !in sessions {
        return;
      }
      sessions := sessions - {id};
      sessionsByPid := map p | p in sessionsByPid && sessionsByPid[p] != id :: sessionsByPid[p];
      reservations := map r | r in reservations && reservations[r].sessionId != id :: reservations[r];
      liveState := liveState - {id};
      participants := map k | k in participants && k.1 != id
                            && !(k.0 in threads && threads[k.0].createdBy == id) :: participants[k];
      threads := map h | h in threads && threads[h].createdBy != id :: threads[h];
    }

    method WriteReservation(r: Reservation) returns (ok: bool)
      modifies this
      ensures Did(old(Snapshot()), UpsertReservation(r), ok)
    {
      ok := r.sessionId in sessions;
      if ok {
        reservations := reservations[r.reservationId := r];
      }
    }

    method RemoveReservation(id: Id) returns (ok: bool)
      modifies this
      ensures Did(old(Snapshot()), DeleteReservation(id), ok)
    {
      reservations := reservations - {id};
      ok := true;
    }

    method WriteLiveState(l: LiveState) returns (ok: bool)
      modifies this
      ensures Did(old(Snapshot()), UpsertLiveState(l), ok)
    {
      ok := l.sessionId in sessions;
      if ok {
        liveState := liveState[l.sessionId := l];
      }
    }

    /** A message that is already stored only takes over the read flag. */
    method InsertInboxMessage(row: InboxRow) returns (ok: bool)
      modifies this
      ensures Did(old(Snapshot()), InsertInbox(row), ok)
    {
      var id := row.message.messageId;
      if id in inboxMessages {
        var prior := inboxMessages[id];
        inboxMessages := inboxMessages[id := prior.(message := prior.message.(read := row.message.read))];
      } else {
        inboxMessages := inboxMessages[id := row];
      }
      ok := true;
    }

    /** One update per identifier. */
    method MarkInboxRead(ids: seq<Id>) returns (ok: bool)
      modifies this
      ensures Did(old(Snapshot()), MarkRead(ids), ok)
    {
      for i := 0 to |ids|
        invariant Snapshot() == old(Snapshot()).(inbox := Marking(old(inboxMessages), ids[..i]))
      {
        if ids[i] in inboxMessages {
          var row := inboxMessages[ids[i]];
          inboxMessages := inboxMessages[ids[i] := row.(message := row.message.(read := true))];
        }
        assert ids[..i + 1] == ids[..i] + [ids[i]];
      }
      assert ids[..|ids|] == ids;
      ok := true;
    }

    /** A thread that exists keeps its creator and creation time. */
    method WriteThread(h: Thread) returns (ok: bool)
      modifies this
      ensures Did(old(Snapshot()), UpsertThread(h), ok)
    {
      if h.threadId in threads {
        var prior := threads[h.threadId];
        threads := threads[h.threadId := prior.(title := h.title, topic := h.topic, status := h.status)];
        ok := true;
      } else {
        ok := h.createdBy in sessions;
        if ok {
          threads := threads[h.threadId := h];
        }
      }
    }

    method RemoveThread(id: Id) returns (ok: bool)
      modifies this
      ensures Did(old(Snapshot()), DeleteThread(id), ok)
    {
      participants := map k | k in participants && k.0 != id :: participants[k];
      threads := threads - {id};
      ok := true;
    }

    /** `INSERT OR IGNORE` ignores a duplicate, not a missing parent. */
    method AddThreadParticipant(threadId: Id, sessionId: Id, now: Time) returns (ok: bool)
      modifies this
      ensures Did(old(Snapshot()), AddParticipant(threadId, sessionId, now), ok)
    {
      if (threadId, sessionId) in participants {
        return true;
      }
      ok := threadId in threads && sessionId in sessions;
      if ok {
        participants := participants[(threadId, sessionId) := now];
      }
    }

    method RemoveThreadParticipant(threadId: Id, sessionId: Id) returns (ok: bool)
      modifies this
      ensures Did(old(Snapshot()), RemoveParticipant(threadId, sessionId), ok)
    {
      participants := participants - {(threadId, sessionId)};
      ok := true;
    }
  }
}
