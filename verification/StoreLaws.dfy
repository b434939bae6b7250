/** What stays in the store over sequences of calls: the origin of threads, the contents of messages, the time
    of joining; what the deletions remove; and which calls are refused. */
module StoreLaws {
  import opened Protocol
  import opened Db

  /** A call that is refused changes nothing. */
  function After(t: Tables, w: Write): Tables {
    if Perform(t, w).Some? then Perform(t, w).value else t
  }

  function AfterAll(t: Tables, writes: seq<Write>): Tables {
    if writes == [] then t else After(AfterAll(t, writes[..|writes| - 1]), writes[|writes| - 1])
  }

  /** A call is refused exactly if the row it would add or change refers to a row that is missing. */
  lemma RefusedIff(t: Tables, w: Write)
    ensures Perform(t, w).None? <==>
      match w
      case UpsertReservation(r) => r.sessionId !in t.sessions
      case UpsertLiveState(l) => l.sessionId !in t.sessions
      case UpsertThread(h) => h.threadId !in t.threads && h.createdBy !in t.sessions
      case AddParticipant(h, id, _) => (h, id) !in t.participants && (h !in t.threads || id !in t.sessions)
      case _ => false
  {
  }

  /** A row that is new and not refused is stored as given. */
  lemma NewRowsAsGiven(t: Tables, w: Write)
    requires Perform(t, w).Some?
    ensures var u := After(t, w);
      match w
      case UpsertThread(h) => h.threadId !in t.threads ==> u.threads == t.threads[h.threadId := h]
      case InsertInbox(row) =>
        row.message.messageId !in t.inbox ==> u.inbox == t.inbox[row.message.messageId := row]
      case AddParticipant(h, id, now) =>
        (h, id) !in t.participants ==> u.participants == t.participants[(h, id) := now]
      case _ => true
  {
  }

  // ----- threads -----

  /** The call removes thread `id`, which `creator` created. */
  predicate DropsThread(w: Write, id: Id, creator: Id) {
    w == Write.DeleteThread(id) || w == Write.DeleteSession(creator)
  }

  /** The last values of the columns that an upsert of thread `id` replaces. */
  function Revised(h: Thread, writes: seq<Write>): Thread {
    if writes == [] then h
    else
      var prior := Revised(h, writes[..|writes| - 1]);
      var w := writes[|writes| - 1];
      if w.UpsertThread? && w.thread.threadId == h.threadId then
        Thread(h.threadId, w.thread.title, w.thread.topic, h.createdBy, h.createdAt, w.thread.status)
      else prior
  }

  lemma RevisedOrigin(h: Thread, writes: seq<Write>)
    ensures Revised(h, writes).threadId == h.threadId
    ensures Revised(h, writes).createdBy == h.createdBy && Revised(h, writes).createdAt == h.createdAt
  {
  }

  /** A thread stays until it or its creator is deleted. It keeps its creator and creation time from its first
      upsert and has its title, topic and status from its last. */
  lemma {:induction false} ThreadKeepsOrigin(t: Tables, writes: seq<Write>, id: Id)
    requires id in t.threads && t.threads[id].threadId == id
    requires forall w :: w in writes ==> !DropsThread(w, id, t.threads[id].createdBy)
    ensures id in AfterAll(t, writes).threads && AfterAll(t, writes).threads[id] == Revised(t.threads[id], writes)
  {
    if writes != [] {
      var init, w := writes[..|writes| - 1], writes[|writes| - 1];
      ThreadKeepsOrigin(t, init, id);
      RevisedOrigin(t.threads[id], init);
      assert w in writes;
      ThreadStep(AfterAll(t, init), w, id);
    }
  }

  lemma ThreadStep(t: Tables, w: Write, id: Id)
    requires id in t.threads && t.threads[id].threadId == id && !DropsThread(w, id, t.threads[id].createdBy)
    ensures id in After(t, w).threads
    ensures var h := t.threads[id];
      After(t, w).threads[id] == if w.UpsertThread? && w.thread.threadId == id
        then Thread(id, w.thread.title, w.thread.topic, h.createdBy, h.createdAt, w.thread.status)
        else h
  {
    if !w.UpsertThread? && !w.DeleteThread? && !w.DeleteSession? {
      ThreadsUntouched(t, w);
    }
  }

  lemma ThreadsUntouched(t: Tables, w: Write)
    requires !w.UpsertThread? && !w.DeleteThread? && !w.DeleteSession?
    ensures After(t, w).threads == t.threads
  {
  }

  /** Deleting a thread removes exactly the rows from which it can be reached along foreign keys. */
  lemma ThreadDeleteIsClosure(t: Tables, id: Id, r: Row)
    requires HasRow(t, r)
    ensures HasRow(After(t, Write.DeleteThread(id)), r) <==> !Reaches(t, r, ThreadRow(id))
    ensures HasRow(After(t, Write.DeleteThread(id)), r) ==> SameRow(t, After(t, Write.DeleteThread(id)), r)
  {
    if path :| IsPath(t, path, r, ThreadRow(id)) {
      PathToThread(t, path, r, id);
    }
    if r == ThreadRow(id) {
      assert IsPath(t, [r], r, ThreadRow(id));
    } else if RefersTo(t, r, ThreadRow(id)) {
      assert IsPath(t, [r, ThreadRow(id)], r, ThreadRow(id));
    }
  }

  lemma {:induction false} PathToThread(t: Tables, path: seq<Row>, r: Row, id: Id)
    requires IsPath(t, path, r, ThreadRow(id))
    ensures r == ThreadRow(id) || RefersTo(t, r, ThreadRow(id))
    decreases |path|
  {
    if |path| > 1 {
      assert RefersTo(t, path[0], path[1]);
      PathToThread(t, path[1..], path[1], id);
    }
  }

  /** The other deletions remove their own row only. */
  lemma DeletesOneRow(t: Tables, w: Write, r: Row)
    requires HasRow(t, r) && (w.DeleteReservation? || w.RemoveParticipant?)
    ensures HasRow(After(t, w), r) <==>
      r != if w.DeleteReservation? then ReservationRow(w.id) else ParticipantRow(w.threadId, w.sessionId)
    ensures HasRow(After(t, w), r) ==> SameRow(t, After(t, w), r)
  {
  }

  // ----- messages -----

  /** The read flag of message `id`: the last insert of it decides, unless it was marked since. */
  function ReadAfter(read: bool, writes: seq<Write>, id: Id): bool {
    if writes == [] then read
    else
      match writes[|writes| - 1]
      case InsertInbox(row) =>
        if row.message.messageId == id then row.message.read else ReadAfter(read, writes[..|writes| - 1], id)
      case MarkRead(ids) => id in ids || ReadAfter(read, writes[..|writes| - 1], id)
      case _ => ReadAfter(read, writes[..|writes| - 1], id)
  }

  /** No call removes a stored message or changes more of it than its read flag. */
  lemma {:induction false} MessageKeepsContents(t: Tables, writes: seq<Write>, id: Id)
    requires id in t.inbox
    ensures id in AfterAll(t, writes).inbox
    ensures var row := t.inbox[id];
      AfterAll(t, writes).inbox[id] == row.(message := row.message.(read := ReadAfter(row.message.read, writes, id)))
  {
    if writes != [] {
      var init := writes[..|writes| - 1];
      MessageKeepsContents(t, init, id);
      MessageStep(AfterAll(t, init), writes[|writes| - 1], id);
    }
  }

  lemma MessageStep(t: Tables, w: Write, id: Id)
    requires id in t.inbox
    ensures id in After(t, w).inbox
    ensures var row := t.inbox[id];
      var read := match w
                  case InsertInbox(other) => if other.message.messageId == id then other.message.read else row.message.read
                  case MarkRead(ids) => id in ids || row.message.read
                  case _ => row.message.read;
      After(t, w).inbox[id] == row.(message := row.message.(read := read))
  {
    if !w.InsertInbox? && !w.MarkRead? {
      InboxUntouched(t, w);
    }
  }

  lemma InboxUntouched(t: Tables, w: Write)
    requires !w.InsertInbox? && !w.MarkRead?
    ensures After(t, w).inbox == t.inbox
  {
  }

  // ----- participants -----

  /** A participant stays until it is removed, or its thread, the thread's creator or its session is deleted; it
      keeps the time at which it was first added. */
  lemma {:induction false} ParticipantKeepsTime(t: Tables, writes: seq<Write>, h: Id, id: Id)
    requires (h, id) in t.participants && h in t.threads && t.threads[h].threadId == h
    requires forall w :: w in writes ==>
      !DropsThread(w, h, t.threads[h].createdBy) && w != Write.DeleteSession(id) && w != RemoveParticipant(h, id)
    ensures (h, id) in AfterAll(t, writes).participants
    ensures AfterAll(t, writes).participants[(h, id)] == t.participants[(h, id)]
  {
    if writes != [] {
      var init, w := writes[..|writes| - 1], writes[|writes| - 1];
      ParticipantKeepsTime(t, init, h, id);
      ThreadKeepsOrigin(t, init, h);
      RevisedOrigin(t.threads[h], init);
      assert w in writes;
      ParticipantStep(AfterAll(t, init), w, h, id);
    }
  }

  lemma ParticipantStep(t: Tables, w: Write, h: Id, id: Id)
    requires (h, id) in t.participants && h in t.threads
    requires !DropsThread(w, h, t.threads[h].createdBy) && w != Write.DeleteSession(id) && w != RemoveParticipant(h, id)
    ensures (h, id) in After(t, w).participants && After(t, w).participants[(h, id)] == t.participants[(h, id)]
  {
  }
}
