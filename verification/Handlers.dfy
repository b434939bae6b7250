/** The handlers as they run on the shared state: each one reads or edits the five maps in place.
    The clock sample and the minted identifier are parameters. */
module Handlers {
  import opened Protocol
  import opened Paths
  import opened Steps
  import opened Mailboxes
  import opened Invariants

  class AppState {
    var sessions: map<Id, Session>
    var sessionsByPid: map<Pid, Id>
    var reservations: map<Id, Reservation>
    var liveState: map<Id, LiveState>
    var inbox: map<Id, seq<InboxMessage>>
    ghost var minted: set<Id>

    ghost function Snapshot(): State
      reads this
    {
      State(sessions, sessionsByPid, reservations, liveState, inbox, minted)
    }

    ghost predicate Valid()
      reads this
    {
      Inv(Snapshot())
    }

    /** The state and the reply are those of handler step `op` taken in state `before`. */
    ghost predicate Took(before: State, op: Op, reply: Reply)
      reads this
    {
      Snapshot() == Step(before, op).state && Sends(reply, Step(before, op).answer)
    }

    constructor ()
      ensures Valid() && Snapshot() == Initial()
    {
      sessions, sessionsByPid, reservations := map[], map[], map[];
      liveState, inbox := map[], map[];
      minted := {};
    }

    // ----- sessions -----

    method InsertNewSession(pid: Pid, agentType: AgentType, workingDir: Path, capabilities: seq<string>,
                            now: Time, newId: Id)
      returns (id: Id)
      modifies this
      ensures id == newId
      ensures Snapshot() == InsertSession(old(Snapshot()),
                              Session(newId, agentType, pid, now, workingDir, capabilities, now))
    {
      id := newId;
      minted := minted + {id};
      var session := Session(id, agentType, pid, now, workingDir, capabilities, now);
      sessions := sessions[id := session];
      sessionsByPid := sessionsByPid[pid := id];
    }

    method SessionRegister(pid: Option<U64>, agentType: AgentType, workingDir: Path, capabilities: seq<string>,
                           now: Time, newId: Id)
      returns (reply: Reply)
      requires Valid() && newId !in minted
      modifies this
      ensures Valid() && Took(old(Snapshot()), Op(Register(pid, agentType, workingDir, capabilities), now, newId), reply)
    {
      StepKeepsInv(Snapshot(), Op(Register(pid, agentType, workingDir, capabilities), now, newId));
      if pid.None? {
        return FailedReply(InvalidParams);
      }
      var key: Pid := pid.value % 0x1_0000_0000;
      var id: Id;
      if key in sessionsByPid && sessionsByPid[key] in sessions {
        id := sessionsByPid[key];
        sessions := sessions[id := sessions[id].(lastHeartbeat := now)];
      } else {
        id := InsertNewSession(key, agentType, workingDir, capabilities, now, newId);
      }
      reply := RegisteredReply(id, LEASE_TTL_SEC);
    }

    method SessionDeregister(sessionId: Option<Id>, ghost now: Time, ghost newId: Id) returns (reply: Reply)
      requires Valid() && newId !in minted
      modifies this
      ensures Valid() && Took(old(Snapshot()), Op(Deregister(sessionId), now, newId), reply)
    {
      StepKeepsInv(Snapshot(), Op(Deregister(sessionId), now, newId));
      if sessionId.None? {
        return FailedReply(InvalidParams);
      }
      var id := sessionId.value;
      if id in sessions {
        var removed := sessions[id];
        sessions := sessions - {id};
        sessionsByPid := sessionsByPid - {removed.pid};
      }
      reply := OkayReply;
    }

    method SessionHeartbeat(sessionId: Option<Id>, now: Time, ghost newId: Id) returns (reply: Reply)
      requires Valid() && newId !in minted
      modifies this
      ensures Valid() && Took(old(Snapshot()), Op(Heartbeat(sessionId), now, newId), reply)
    {
      StepKeepsInv(Snapshot(), Op(Heartbeat(sessionId), now, newId));
      if sessionId.None? {
        return FailedReply(InvalidParams);
      }
      var id := sessionId.value;
      if id !in sessions {
        return FailedReply(NotFound);
      }
      sessions := sessions[id := sessions[id].(lastHeartbeat := now)];
      reply := BeatReply(HEARTBEAT_INTERVAL_SEC);
    }

    method SessionListAll(ghost now: Time, ghost newId: Id) returns (reply: Reply)
      requires Valid()
      ensures Took(Snapshot(), Op(SessionList, now, newId), reply)
    {
      var all: seq<Session> := [];
      var rest := sessions.Keys;
      while rest != {}
        invariant rest <= sessions.Keys
        invariant forall x :: x in all <==>
          x.sessionId in sessions && x.sessionId !in rest && x == sessions[x.sessionId]
        invariant forall i, j :: 0 <= i < j < |all| ==> all[i] != all[j]
        decreases rest
      {
        var id :| id in rest;
        rest := rest - {id};
        all := all + [sessions[id]];
      }
      reply := SessionsReply(all);
    }

    method SessionGetOne(sessionId: Option<Id>, ghost now: Time, ghost newId: Id) returns (reply: Reply)
      requires Valid()
      ensures Took(Snapshot(), Op(SessionGet(sessionId), now, newId), reply)
    {
      if sessionId.None? {
        return FailedReply(InvalidParams);
      }
      if sessionId.value !in sessions {
        return FailedReply(NotFound);
      }
      reply := OneSessionReply(sessions[sessionId.value]);
    }

    // ----- reservations -----

    /** The unexpired reservations of other sessions that conflict, in iteration order. */
    method CollectConflicts(sessionId: Id, path: Path, mode: Mode, now: Time) returns (conflicts: seq<Reservation>)
      requires Valid()
      ensures Enumerates(conflicts, Blockers(Snapshot(), sessionId, path, mode, now))
    {
      conflicts := [];
      var rest := reservations.Keys;
      while rest != {}
        invariant rest <= reservations.Keys
        invariant forall x :: x in conflicts <==>
          x.reservationId in reservations && x.reservationId !in rest && x == reservations[x.reservationId]
          && Blocks(x, sessionId, path, mode, now)
        invariant forall i, j :: 0 <= i < j < |conflicts| ==> conflicts[i] != conflicts[j]
        decreases rest
      {
        var id :| id in rest;
        rest := rest - {id};
        var r := reservations[id];
        if SamePath(r.path, path) && r.sessionId != sessionId && r.expiresAt > now && ModeConflicts(mode, r.mode) {
          conflicts := conflicts + [r];
        }
      }
    }

    method ReservationClaim(sessionId: Option<Id>, path: Option<Path>, mode: Arg<Mode>, ttlSec: Option<U64>,
                            now: Time, newId: Id)
      returns (reply: Reply)
      requires Valid() && newId !in minted
      modifies this
      ensures Valid() && Took(old(Snapshot()), Op(Claim(sessionId, path, mode, ttlSec), now, newId), reply)
    {
      StepKeepsInv(Snapshot(), Op(Claim(sessionId, path, mode, ttlSec), now, newId));
      if sessionId.None? || path.None? || mode.Unrecognised? {
        return FailedReply(InvalidParams);
      }
      var wanted := if mode.Given? then mode.value else Mode.Write;
      var expires := ClaimExpiry(now, if ttlSec.Some? then ttlSec.value else DEFAULT_TTL_SEC);
      if expires.None? {
        return CrashedReply;
      }
      if sessionId.value !in sessions {
        return FailedReply(NotFound);
      }
      var conflicts := CollectConflicts(sessionId.value, path.value, wanted, now);
      minted := minted + {newId};
      var reservation := Reservation(newId, sessionId.value, path.value, wanted, now, expires.value);
      reservations := reservations[newId := reservation];
      reply := ClaimedReply(newId, conflicts);
    }

    method ReservationRelease(reservationId: Option<Id>, ghost now: Time, ghost newId: Id) returns (reply: Reply)
      requires Valid() && newId !in minted
      modifies this
      ensures Valid() && Took(old(Snapshot()), Op(Release(reservationId), now, newId), reply)
    {
      StepKeepsInv(Snapshot(), Op(Release(reservationId), now, newId));
      if reservationId.None? {
        return FailedReply(InvalidParams);
      }
      var id := reservationId.value;
      if id !in reservations {
        return FailedReply(NotFound);
      }
      reservations := reservations - {id};
      reply := OkayReply;
    }

    method ReservationListActive(prefix: Option<Path>, now: Time, ghost newId: Id) returns (reply: Reply)
      requires Valid()
      ensures Took(Snapshot(), Op(ReservationList(prefix), now, newId), reply)
    {
      var active: seq<Reservation> := [];
      var rest := reservations.Keys;
      while rest != {}
        invariant rest <= reservations.Keys
        invariant forall x :: x in active <==>
          x.reservationId in reservations && x.reservationId !in rest && x == reservations[x.reservationId]
          && Listed(x, None, now)
        invariant forall i, j :: 0 <= i < j < |active| ==> active[i] != active[j]
        decreases rest
      {
        var id :| id in rest;
        rest := rest - {id};
        if reservations[id].expiresAt > now {
          active := active + [reservations[id]];
        }
      }
      if prefix.Some? {
        active := Retain(active, prefix.value);
      }
      reply := ReservationsReply(active);
    }

    /** `retain`: drop the reservations whose path does not start with `prefix`. */
    static method Retain(all: seq<Reservation>, prefix: Path) returns (kept: seq<Reservation>)
      requires forall i, j :: 0 <= i < j < |all| ==> all[i] != all[j]
      ensures forall r :: r in kept <==> r in all && HasPrefix(r.path, prefix)
      ensures forall i, j :: 0 <= i < j < |kept| ==> kept[i] != kept[j]
    {
      kept := [];
      for i := 0 to |all|
        invariant forall r :: r in kept <==> r in all[..i] && HasPrefix(r.path, prefix)
        invariant forall a, b :: 0 <= a < b < |kept| ==> kept[a] != kept[b]
      {
        if HasPrefix(all[i].path, prefix) {
          kept := kept + [all[i]];
        }
      }
    }

    // ----- inbox -----

    method InboxPost(fromSession: Option<Id>, toSession: Option<Id>, subject: string, body: string,
                     priority: Arg<Priority>, now: Time, newId: Id)
      returns (reply: Reply)
      requires Valid() && newId !in minted
      modifies this
      ensures Valid()
      ensures Took(old(Snapshot()), Op(Post(fromSession, toSession, subject, body, priority), now, newId), reply)
    {
      if fromSession.None? || toSession.None? || priority.Unrecognised? {
        return FailedReply(InvalidParams);
      }
      var level := if priority.Given? then priority.value else Normal;
      if fromSession.value !in sessions {
        return FailedReply(NotFound);
      }
      PostedOutcome(Snapshot(), Op(Post(fromSession, toSession, subject, body, priority), now, newId));
      minted := minted + {newId};
      var message := InboxMessage(newId, fromSession.value, toSession.value, subject, body, level, now, false);
      var messages := if toSession.value in inbox then inbox[toSession.value] else [];
      inbox := inbox[toSession.value := messages + [message]];
      reply := PostedReply(newId);
    }

    /** The three passes over a mailbox: collect identifiers, mark by identifier, select by identifier. */
    method InboxListMessages(sessionId: Option<Id>, unreadOnly: bool, limit: Option<U64>,
                             ghost now: Time, ghost newId: Id)
      returns (reply: Reply)
      requires Valid() && newId !in minted
      modifies this
      ensures Valid() && Took(old(Snapshot()), Op(InboxList(sessionId, unreadOnly, limit), now, newId), reply)
    {
      if sessionId.None? {
        return FailedReply(InvalidParams);
      }
      var id := sessionId.value;
      ListedOutcome(Snapshot(), Op(InboxList(sessionId, unreadOnly, limit), now, newId), id);
      var count := if limit.Some? then limit.value else DEFAULT_LIST_LIMIT;
      var messages := if id in inbox then inbox[id] else [];
      MailboxDistinct(Snapshot(), id);
      var result;
      messages, result := ThreePasses(messages, unreadOnly, count);
      inbox := inbox[id := messages];
      reply := MessagesReply(result);
    }

    static method ThreePasses(box: seq<InboxMessage>, unreadOnly: bool, limit: U64)
      returns (messages: seq<InboxMessage>, result: seq<InboxMessage>)
      requires DistinctIds(box)
      ensures Delivery(result, messages) == Deliver(box, unreadOnly, Budget(limit, |box|))
    {
      var take := if limit > 0 then limit else |box|;
      var resultIds := CollectIds(box, unreadOnly, take);
      messages := MarkRead(box, unreadOnly, take, resultIds);
      result := Select(box, unreadOnly, take, messages, resultIds);
    }

    /** First pass: filter, then take. */
    static method CollectIds(box: seq<InboxMessage>, unreadOnly: bool, take: nat) returns (resultIds: seq<Id>)
      ensures resultIds == IdsOf(Deliver(box, unreadOnly, take).delivered)
    {
      resultIds := [];
      var i := 0;
      while i < |box| && |resultIds| < take
        invariant i <= |box|
        invariant resultIds == IdsOf(Deliver(box[..i], unreadOnly, take).delivered)
      {
        DeliverNext(box, unreadOnly, take, i);
        if !unreadOnly || !box[i].read {
          resultIds := resultIds + [box[i].messageId];
        }
        i := i + 1;
      }
      if i < |box| {
        BudgetSpent(box, unreadOnly, take, i);
      }
      assert box[..|box|] == box;
    }

    /** Second pass: mark the messages whose identifier was collected. */
    static method MarkRead(box: seq<InboxMessage>, ghost unreadOnly: bool, ghost take: nat, resultIds: seq<Id>)
      returns (messages: seq<InboxMessage>)
      requires DistinctIds(box) && resultIds == IdsOf(Deliver(box, unreadOnly, take).delivered)
      ensures messages == Deliver(box, unreadOnly, take).mailbox
    {
      messages := box;
      for j := 0 to |box|
        invariant |messages| == |box|
        invariant forall x :: 0 <= x < j ==> messages[x] == Deliver(box, unreadOnly, take).mailbox[x]
        invariant forall x :: j <= x < |box| ==> messages[x] == box[x]
      {
        IdsPickTaken(box, unreadOnly, take, j);
        DeliverNextMarks(box, unreadOnly, take, j);
        if messages[j].messageId in resultIds {
          messages := messages[j := messages[j].(read := true)];
        }
      }
    }

    /** Third pass: select the messages, now read, whose identifier was collected. */
    static method Select(ghost box: seq<InboxMessage>, ghost unreadOnly: bool, ghost take: nat,
                         messages: seq<InboxMessage>, resultIds: seq<Id>)
      returns (result: seq<InboxMessage>)
      requires DistinctIds(box) && resultIds == IdsOf(Deliver(box, unreadOnly, take).delivered)
      requires messages == Deliver(box, unreadOnly, take).mailbox
      ensures result == Deliver(box, unreadOnly, take).delivered
    {
      result := [];
      for j := 0 to |messages|
        invariant result == Deliver(box[..j], unreadOnly, take).delivered
      {
        DeliverNext(box, unreadOnly, take, j);
        IdsPickTaken(box, unreadOnly, take, j);
        DeliverNextMarks(box, unreadOnly, take, j);
        if messages[j].messageId in resultIds {
          result := result + [messages[j]];
        }
      }
      assert box[..|box|] == box;
    }

    /** Searches the mailboxes in iteration order and stops at the first match. */
    method InboxReadOne(messageId: Option<Id>, ghost now: Time, ghost newId: Id) returns (reply: Reply)
      requires Valid() && newId !in minted
      modifies this
      ensures Valid() && Took(old(Snapshot()), Op(InboxRead(messageId), now, newId), reply)
    {
      ghost var op := Op(InboxRead(messageId), now, newId);
      if messageId.None? {
        return FailedReply(InvalidParams);
      }
      var found := FindMessage(messageId.value);
      if found.None? {
        NotFoundOutcome(Snapshot(), op, messageId.value);
        return FailedReply(NotFound);
      }
      var k, i := found.value.0, found.value.1;
      FoundOutcome(Snapshot(), op, messageId.value, k, i);
      var m := inbox[k][i].(read := true);
      inbox := inbox[k := inbox[k][i := m]];
      reply := OneMessageReply(m);
    }

    method FindMessage(messageId: Id) returns (found: Option<(Id, nat)>)
      ensures found.Some? ==> HeldAt(inbox, found.value.0, found.value.1, messageId)
      ensures found.None? ==> forall k, i :: !HeldAt(inbox, k, i, messageId)
    {
      var rest := inbox.Keys;
      while rest != {}
        invariant rest <= inbox.Keys
        invariant forall k, i :: HeldAt(inbox, k, i, messageId) ==> k in rest
        decreases rest
      {
        var k :| k in rest;
        rest := rest - {k};
        var i := 0;
        while i < |inbox[k]| && inbox[k][i].messageId != messageId
          invariant i <= |inbox[k]|
          invariant forall j :: 0 <= j < i ==> inbox[k][j].messageId != messageId
        {
          i := i + 1;
        }
        if i < |inbox[k]| {
          return Some((k, i));
        }
      }
      found := None;
    }

    // ----- live state and discovery -----

    method StateSetLive(sessionId: Option<Id>, focusFile: Option<Path>, focusBranch: Option<string>,
                        worktree: Option<Path>, status: Arg<Status>, now: Time, ghost newId: Id)
      returns (reply: Reply)
      requires Valid() && newId !in minted
      modifies this
      ensures Valid()
      ensures Took(old(Snapshot()), Op(StateSet(sessionId, focusFile, focusBranch, worktree, status), now, newId), reply)
    {
      StepKeepsInv(Snapshot(), Op(StateSet(sessionId, focusFile, focusBranch, worktree, status), now, newId));
      if sessionId.None? || status.Unrecognised? {
        return FailedReply(InvalidParams);
      }
      var current := if status.Given? then status.value else Idle;
      if sessionId.value !in sessions {
        return FailedReply(NotFound);
      }
      var live := LiveState(sessionId.value, focusFile, focusBranch, worktree, current, now);
      liveState := liveState[sessionId.value := live];
      reply := OkayReply;
    }

    method StateGetLive(sessionId: Option<Id>, ghost now: Time, ghost newId: Id) returns (reply: Reply)
      requires Valid()
      ensures Took(Snapshot(), Op(StateGet(sessionId), now, newId), reply)
    {
      if sessionId.None? {
        return FailedReply(InvalidParams);
      }
      if sessionId.value !in liveState {
        return FailedReply(NotFound);
      }
      reply := LiveReply(liveState[sessionId.value]);
    }

    method DiscoverAgents(prefix: Option<Path>, branch: Option<string>, capabilities: seq<string>,
                          ghost now: Time, ghost newId: Id)
      returns (reply: Reply)
      requires Valid()
      ensures Took(Snapshot(), Op(Discover(prefix, branch, capabilities), now, newId), reply)
    {
      var summaries := CollectAgents(prefix, branch, capabilities);
      reply := AgentsReply(summaries);
    }

    method CollectAgents(prefix: Option<Path>, branch: Option<string>, capabilities: seq<string>)
      returns (summaries: seq<Summary>)
      ensures Enumerates(summaries, Found(Snapshot(), prefix, branch, capabilities))
    {
      summaries := [];
      var rest := sessions.Keys;
      while rest != {}
        invariant rest <= sessions.Keys
        invariant forall x :: x in summaries <==>
          x.sessionId in sessions && x.sessionId !in rest && x == SummaryOf(Snapshot(), x.sessionId)
          && Discovered(Snapshot(), x.sessionId, prefix, branch, capabilities)
        invariant forall i, j :: 0 <= i < j < |summaries| ==> summaries[i] != summaries[j]
        decreases rest
      {
        var id :| id in rest;
        rest := rest - {id};
        var session := sessions[id];
        var status := if id in liveState then liveState[id].status else Idle;
        var focusFile := if id in liveState then liveState[id].focusFile else None;
        if prefix.Some? {
          if focusFile.None? || !HasPrefix(focusFile.value, prefix.value) {
            continue;
          }
        }
        if branch.Some? {
          if !(id in liveState && liveState[id].focusBranch == branch) {
            continue;
          }
        }
        if capabilities != [] {
          if !(forall c | c in capabilities :: c in session.capabilities) {
            continue;
          }
        }
        summaries := summaries + [Summary(id, session.agentType, session.pid, status, focusFile, session.lastHeartbeat)];
      }
    }
  }
}
