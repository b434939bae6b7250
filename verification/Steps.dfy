/** The daemon's state as a value, and what each locked handler section does to it.
    A step takes the clock sample and the identifier it may mint as parameters. */
module Steps {
  import opened Protocol
  import opened Paths

  /** The five maps of `AppStateInner`, and the identifiers minted so far. */
  datatype State = State(
    sessions: map<Id, Session>,
    byPid: map<Pid, Id>,
    reservations: map<Id, Reservation>,
    liveState: map<Id, LiveState>,
    inbox: map<Id, seq<InboxMessage>>,
    minted: set<Id>)

  datatype Outcome = Outcome(state: State, answer: Answer)

  /** One handler run: the request, the handler's clock sample, and a fresh identifier. */
  datatype Op = Op(request: Request, now: Time, newId: Id)

  function Initial(): State {
    State(map[], map[], map[], map[], map[], {})
  }

  function Refuse(s: State, error: Error): Outcome {
    Outcome(s, Failed(error))
  }

  // ----- sessions -----

  function InsertSession(s: State, session: Session): State {
    s.(sessions := s.sessions[session.sessionId := session],
       byPid := s.byPid[session.pid := session.sessionId],
       minted := s.minted + {session.sessionId})
  }

  function RegisterStep(s: State, request: Request, now: Time, newId: Id): Outcome
    requires request.Register? && request.pid.Some?
  {
    var pid: Pid := request.pid.value % 0x1_0000_0000;
    if pid in s.byPid && s.byPid[pid] in s.sessions then
      var id := s.byPid[pid];
      Outcome(s.(sessions := s.sessions[id := s.sessions[id].(lastHeartbeat := now)]),
              Registered(id, LEASE_TTL_SEC))
    else
      var session := Session(newId, request.agentType, pid, now, request.workingDir, request.capabilities, now);
      Outcome(InsertSession(s, session), Registered(newId, LEASE_TTL_SEC))
  }

  function DeregisterStep(s: State, id: Id): Outcome {
    Outcome(if id in s.sessions
            then s.(sessions := s.sessions - {id}, byPid := s.byPid - {s.sessions[id].pid})
            else s,
            Okay)
  }

  function HeartbeatStep(s: State, id: Id, now: Time): Outcome {
    if id !in s.sessions then Refuse(s, NotFound)
    else Outcome(s.(sessions := s.sessions[id := s.sessions[id].(lastHeartbeat := now)]),
                 Beat(HEARTBEAT_INTERVAL_SEC))
  }

  // ----- reservations -----

  predicate Blocks(held: Reservation, sessionId: Id, path: Path, mode: Mode, now: Time) {
    && SamePath(held.path, path)
    && held.sessionId != sessionId
    && held.expiresAt > now
    && ModeConflicts(mode, held.mode)
  }

  function Blockers(s: State, sessionId: Id, path: Path, mode: Mode, now: Time): set<Reservation> {
    set k | k in s.reservations && Blocks(s.reservations[k], sessionId, path, mode, now) :: s.reservations[k]
  }

  function TtlOf(ttl: Option<U64>): U64 {
    if ttl.Some? then ttl.value else DEFAULT_TTL_SEC
  }

  function ModeOf(mode: Arg<Mode>): Mode
    requires !mode.Unrecognised?
  {
    if mode.Given? then mode.value else Mode.Write
  }

  predicate WellFormedClaim(request: Request) {
    request.Claim? && request.sessionId.Some? && request.path.Some? && !request.mode.Unrecognised?
  }

  /** The granted lock: what a claim inserts. */
  function NewReservation(request: Request, now: Time, newId: Id): Reservation
    requires WellFormedClaim(request) && ClaimExpiry(now, TtlOf(request.ttlSec)).Some?
  {
    Reservation(newId, request.sessionId.value, request.path.value, ModeOf(request.mode),
                now, ClaimExpiry(now, TtlOf(request.ttlSec)).value)
  }

  /** A claim inserts its reservation whether or not others block it. */
  function ClaimStep(s: State, request: Request, now: Time, newId: Id): Outcome
    requires WellFormedClaim(request)
  {
    if ClaimExpiry(now, TtlOf(request.ttlSec)).None? then Outcome(s, Crashed)
    else if request.sessionId.value !in s.sessions then Refuse(s, NotFound)
    else
      var r := NewReservation(request, now, newId);
      Outcome(s.(reservations := s.reservations[newId := r], minted := s.minted + {newId}),
              Claimed(newId, Blockers(s, r.sessionId, r.path, r.mode, now)))
  }

  function ReleaseStep(s: State, id: Id): Outcome {
    if id !in s.reservations then Refuse(s, NotFound)
    else Outcome(s.(reservations := s.reservations - {id}), Okay)
  }

  predicate Listed(r: Reservation, prefix: Option<Path>, now: Time) {
    r.expiresAt > now && (prefix.Some? ==> HasPrefix(r.path, prefix.value))
  }

  function Active(s: State, prefix: Option<Path>, now: Time): set<Reservation> {
    set k | k in s.reservations && Listed(s.reservations[k], prefix, now) :: s.reservations[k]
  }

  // ----- inbox -----

  /** The mailbox of `id`; a missing entry reads as empty. */
  function Mailbox(s: State, id: Id): seq<InboxMessage> {
    if id in s.inbox then s.inbox[id] else []
  }

  function PriorityOf(priority: Arg<Priority>): Priority
    requires !priority.Unrecognised?
  {
    if priority.Given? then priority.value else Normal
  }

  predicate WellFormedPost(request: Request) {
    request.Post? && request.fromSession.Some? && request.toSession.Some? && !request.priority.Unrecognised?
  }

  function NewMessage(request: Request, now: Time, newId: Id): InboxMessage
    requires WellFormedPost(request)
  {
    InboxMessage(newId, request.fromSession.value, request.toSession.value, request.subject, request.body,
                 PriorityOf(request.priority), now, false)
  }

  /** Only the sender must be registered; the recipient may be any name. */
  function PostStep(s: State, request: Request, now: Time, newId: Id): Outcome
    requires WellFormedPost(request)
  {
    if request.fromSession.value !in s.sessions then Refuse(s, NotFound)
    else
      var m := NewMessage(request, now, newId);
      Outcome(s.(inbox := s.inbox[m.toSession := Mailbox(s, m.toSession) + [m]], minted := s.minted + {newId}),
              Posted(newId))
  }

  /** A mailbox scanned once from its oldest message: what is delivered, and the mailbox afterwards. */
  datatype Delivery = Delivery(delivered: seq<InboxMessage>, mailbox: seq<InboxMessage>)

  /** Deliver, oldest first, at most `budget` messages that match, marking each one read. */
  function Deliver(messages: seq<InboxMessage>, unreadOnly: bool, budget: nat): (d: Delivery)
    ensures |d.mailbox| == |messages|
  {
    if messages == [] then Delivery([], [])
    else
      var m := messages[|messages| - 1];
      var d := Deliver(messages[..|messages| - 1], unreadOnly, budget);
      if |d.delivered| < budget && !(unreadOnly && m.read) then
        Delivery(d.delivered + [m.(read := true)], d.mailbox + [m.(read := true)])
      else
        Delivery(d.delivered, d.mailbox + [m])
  }

  /** A limit of zero means no limit. */
  function Budget(limit: U64, size: nat): nat {
    if limit > 0 then limit else size
  }

  function LimitOf(limit: Option<U64>): U64 {
    if limit.Some? then limit.value else DEFAULT_LIST_LIMIT
  }

  function InboxListStep(s: State, id: Id, unreadOnly: bool, limit: Option<U64>): Outcome {
    var box := Mailbox(s, id);
    var d := Deliver(box, unreadOnly, Budget(LimitOf(limit), |box|));
    Outcome(s.(inbox := s.inbox[id := d.mailbox]), Messages(d.delivered))
  }

  /** Message `messageId` is at position `i` of mailbox `k`. */
  ghost predicate HeldAt(inbox: map<Id, seq<InboxMessage>>, k: Id, i: int, messageId: Id) {
    k in inbox && 0 <= i < |inbox[k]| && inbox[k][i].messageId == messageId
  }

  ghost function InboxReadStep(s: State, messageId: Id): Outcome {
    if exists k, i :: HeldAt(s.inbox, k, i, messageId) then
      var k, i :| HeldAt(s.inbox, k, i, messageId);
      var m := s.inbox[k][i].(read := true);
      Outcome(s.(inbox := s.inbox[k := s.inbox[k][i := m]]), OneMessage(m))
    else Refuse(s, NotFound)
  }

  // ----- live state and discovery -----

  function StatusOf(status: Arg<Status>): Status
    requires !status.Unrecognised?
  {
    if status.Given? then status.value else Idle
  }

  function StateSetStep(s: State, request: Request, now: Time): Outcome
    requires request.StateSet? && request.sessionId.Some? && !request.status.Unrecognised?
  {
    var id := request.sessionId.value;
    if id !in s.sessions then Refuse(s, NotFound)
    else
      var live := LiveState(id, request.focusFile, request.focusBranch, request.worktree,
                            StatusOf(request.status), now);
      Outcome(s.(liveState := s.liveState[id := live]), Okay)
  }

  function FocusOf(s: State, id: Id): Option<Path> {
    if id in s.liveState then s.liveState[id].focusFile else None
  }

  function SummaryOf(s: State, id: Id): Summary
    requires id in s.sessions
  {
    var session := s.sessions[id];
    Summary(id, session.agentType, session.pid,
            if id in s.liveState then s.liveState[id].status else Idle,
            FocusOf(s, id), session.lastHeartbeat)
  }

  /** Session `id` satisfies every filter that was given. */
  predicate Discovered(s: State, id: Id, prefix: Option<Path>, branch: Option<string>, capabilities: seq<string>) {
    && id in s.sessions
    && (prefix.Some? ==> FocusOf(s, id).Some? && HasPrefix(FocusOf(s, id).value, prefix.value))
    && (branch.Some? ==> id in s.liveState && s.liveState[id].focusBranch == branch)
    && (forall c :: c in capabilities ==> c in s.sessions[id].capabilities)
  }

  function Found(s: State, prefix: Option<Path>, branch: Option<string>, capabilities: seq<string>): set<Summary> {
    set id | id in s.sessions && Discovered(s, id, prefix, branch, capabilities) :: SummaryOf(s, id)
  }

  // ----- dispatch -----

  ghost function Step(s: State, op: Op): Outcome {
    match op.request
    case Register(pid, _, _, _) =>
      if pid.None? then Refuse(s, InvalidParams) else RegisterStep(s, op.request, op.now, op.newId)
    case Deregister(id) =>
      if id.None? then Refuse(s, InvalidParams) else DeregisterStep(s, id.value)
    case Heartbeat(id) =>
      if id.None? then Refuse(s, InvalidParams) else HeartbeatStep(s, id.value, op.now)
    case SessionList =>
      Outcome(s, Sessions(set id | id in s.sessions :: s.sessions[id]))
    case SessionGet(id) =>
      if id.None? then Refuse(s, InvalidParams)
      else if id.value !in s.sessions then Refuse(s, NotFound)
      else Outcome(s, OneSession(s.sessions[id.value]))
    case Claim(_, _, _, _) =>
      if !WellFormedClaim(op.request) then Refuse(s, InvalidParams) else ClaimStep(s, op.request, op.now, op.newId)
    case Release(id) =>
      if id.None? then Refuse(s, InvalidParams) else ReleaseStep(s, id.value)
    case ReservationList(prefix) =>
      Outcome(s, Reservations(Active(s, prefix, op.now)))
    case Post(_, _, _, _, _) =>
      if !WellFormedPost(op.request) then Refuse(s, InvalidParams) else PostStep(s, op.request, op.now, op.newId)
    case InboxList(id, unreadOnly, limit) =>
      if id.None? then Refuse(s, InvalidParams) else InboxListStep(s, id.value, unreadOnly, limit)
    case InboxRead(id) =>
      if id.None? then Refuse(s, InvalidParams) else InboxReadStep(s, id.value)
    case StateSet(id, _, _, _, status) =>
      if id.None? || status.Unrecognised? then Refuse(s, InvalidParams) else StateSetStep(s, op.request, op.now)
    case StateGet(id) =>
      if id.None? then Refuse(s, InvalidParams)
      else if id.value !in s.liveState then Refuse(s, NotFound)
      else Outcome(s, Live(s.liveState[id.value]))
    case Discover(prefix, branch, capabilities) =>
      Outcome(s, Agents(Found(s, prefix, branch, capabilities)))
    case Unknown(_) => Refuse(s, MethodNotFound)
  }

  // ----- what every step keeps -----

  /** The pid index and the sessions describe the same one-to-one relation. */
  ghost predicate PidBijection(s: State) {
    && (forall p :: p in s.byPid ==> s.byPid[p] in s.sessions && s.sessions[s.byPid[p]].pid == p)
    && (forall id :: id in s.sessions ==> s.sessions[id].pid in s.byPid && s.byPid[s.sessions[id].pid] == id)
  }

  ghost predicate Keyed(s: State) {
    && (forall id :: id in s.sessions ==> s.sessions[id].sessionId == id)
    && (forall id :: id in s.reservations ==> s.reservations[id].reservationId == id)
    && (forall id :: id in s.liveState ==> s.liveState[id].sessionId == id)
    && (forall k, i :: k in s.inbox && 0 <= i < |s.inbox[k]| ==> s.inbox[k][i].toSession == k)
  }

  ghost predicate AllMinted(s: State) {
    && s.sessions.Keys <= s.minted
    && s.reservations.Keys <= s.minted
    && s.liveState.Keys <= s.minted
    && (forall id :: id in s.reservations ==> s.reservations[id].sessionId in s.minted)
    && (forall k, i :: k in s.inbox && 0 <= i < |s.inbox[k]| ==> s.inbox[k][i].messageId in s.minted)
  }

  /** No message identifier occurs twice, in one mailbox or in two. */
  ghost predicate UniqueMessages(inbox: map<Id, seq<InboxMessage>>) {
    forall id, k, i, k', i' | HeldAt(inbox, k, i, id) && HeldAt(inbox, k', i', id) :: k == k' && i == i'
  }

  ghost predicate Inv(s: State) {
    PidBijection(s) && Keyed(s) && AllMinted(s) && UniqueMessages(s.inbox)
  }
}
