/** Entities exchanged with the daemon: the records of the protocol crate, the
    decoded parameters of its fourteen methods, and their results. */
module Protocol {

  datatype Option<+T> = None | Some(value: T)

  /** An optional enum-valued parameter: missing (or not a string), a known name, or an unknown name. */
  datatype Arg<+T> = Absent | Given(value: T) | Unrecognised

  type Id = string
  type Path = string
  type Pid = n: nat | n < 0x1_0000_0000
  type U64 = n: nat | n < 0x1_0000_0000_0000_0000

  /** Nanoseconds since the Unix epoch. */
  type Time = int

  const NANOS_PER_SECOND := 1_000_000_000
  const HEARTBEAT_INTERVAL_SEC := 30
  const LEASE_TTL_SEC := 90
  const DEFAULT_TTL_SEC: U64 := 600
  const DEFAULT_LIST_LIMIT: U64 := 50

  datatype AgentType = Forge | Codex | Claude | Copilot | Custom(name: string)

  datatype Mode = Read | Write | Exclusive

  datatype Priority = Low | Normal | High

  datatype Status = Idle | Working | Blocked | Done | Stuck

  datatype Session = Session(sessionId: Id, agentType: AgentType, pid: Pid, startedAt: Time,
                             workingDir: Path, capabilities: seq<string>, lastHeartbeat: Time)

  datatype Reservation = Reservation(reservationId: Id, sessionId: Id, path: Path, mode: Mode,
                                     acquiredAt: Time, expiresAt: Time)

  datatype InboxMessage = InboxMessage(messageId: Id, fromSession: Id, toSession: Id, subject: string,
                                       body: string, priority: Priority, ts: Time, read: bool)

  datatype LiveState = LiveState(sessionId: Id, focusFile: Option<Path>, focusBranch: Option<string>,
                                 worktree: Option<Path>, status: Status, lastHeartbeat: Time)

  datatype Summary = Summary(sessionId: Id, agentType: AgentType, pid: Pid, status: Status,
                             focusFile: Option<Path>, lastHeartbeat: Time)

  datatype Error = InvalidParams | NotFound | MethodNotFound

  /** A decoded request. Required parameters are options: `None` is a missing or ill-typed value. */
  datatype Request =
    | Register(pid: Option<U64>, agentType: AgentType, workingDir: Path, capabilities: seq<string>)
    | Deregister(sessionId: Option<Id>)
    | Heartbeat(sessionId: Option<Id>)
    | SessionList
    | SessionGet(sessionId: Option<Id>)
    | Claim(sessionId: Option<Id>, path: Option<Path>, mode: Arg<Mode>, ttlSec: Option<U64>)
    | Release(reservationId: Option<Id>)
    | ReservationList(prefix: Option<Path>)
    | Post(fromSession: Option<Id>, toSession: Option<Id>, subject: string, body: string, priority: Arg<Priority>)
    | InboxList(sessionId: Option<Id>, unreadOnly: bool, limit: Option<U64>)
    | InboxRead(messageId: Option<Id>)
    | StateSet(sessionId: Option<Id>, focusFile: Option<Path>, focusBranch: Option<string>,
               worktree: Option<Path>, status: Arg<Status>)
    | StateGet(sessionId: Option<Id>)
    | Discover(prefix: Option<Path>, branch: Option<string>, capabilities: seq<string>)
    | Unknown(name: string)

  /** What a request means, with results drawn from a hash map as sets.
      `Crashed` is a handler that panics: its connection task dies and nothing is sent. */
  datatype Answer =
    | Registered(sessionId: Id, leaseTtlSec: nat)
    | Okay
    | Beat(nextHeartbeatSec: nat)
    | Sessions(sessions: set<Session>)
    | OneSession(session: Session)
    | Claimed(reservationId: Id, conflicts: set<Reservation>)
    | Reservations(active: set<Reservation>)
    | Posted(messageId: Id)
    | Messages(messages: seq<InboxMessage>)
    | OneMessage(message: InboxMessage)
    | Live(live: LiveState)
    | Agents(agents: set<Summary>)
    | Failed(error: Error)
    | Crashed

  /** The same result as it is sent, with hash-map results listed in iteration order. */
  datatype Reply =
    | RegisteredReply(sessionId: Id, leaseTtlSec: nat)
    | OkayReply
    | BeatReply(nextHeartbeatSec: nat)
    | SessionsReply(sessions: seq<Session>)
    | OneSessionReply(session: Session)
    | ClaimedReply(reservationId: Id, conflicts: seq<Reservation>)
    | ReservationsReply(active: seq<Reservation>)
    | PostedReply(messageId: Id)
    | MessagesReply(messages: seq<InboxMessage>)
    | OneMessageReply(message: InboxMessage)
    | LiveReply(live: LiveState)
    | AgentsReply(agents: seq<Summary>)
    | FailedReply(error: Error)
    | CrashedReply

  /** `list` names every element of `items` exactly once. */
  ghost predicate Enumerates<T(!new)>(list: seq<T>, items: set<T>) {
    && (forall x :: x in list <==> x in items)
    && (forall i, j :: 0 <= i < j < |list| ==> list[i] != list[j])
  }

  /** `reply` is a way to send `answer`. */
  ghost predicate Sends(reply: Reply, answer: Answer) {
    match answer
    case Registered(id, lease) => reply == RegisteredReply(id, lease)
    case Okay => reply == OkayReply
    case Beat(next) => reply == BeatReply(next)
    case Sessions(all) => reply.SessionsReply? && Enumerates(reply.sessions, all)
    case OneSession(session) => reply == OneSessionReply(session)
    case Claimed(id, conflicts) =>
      reply.ClaimedReply? && reply.reservationId == id && Enumerates(reply.conflicts, conflicts)
    case Reservations(active) => reply.ReservationsReply? && Enumerates(reply.active, active)
    case Posted(id) => reply == PostedReply(id)
    case Messages(messages) => reply == MessagesReply(messages)
    case OneMessage(message) => reply == OneMessageReply(message)
    case Live(live) => reply == LiveReply(live)
    case Agents(agents) => reply.AgentsReply? && Enumerates(reply.agents, agents)
    case Failed(error) => reply == FailedReply(error)
    case Crashed => reply == CrashedReply
  }

  /** The mode compatibility table of the lock: everything conflicts with `Exclusive`,
      writers conflict with writers, readers share. */
  function ModeConflicts(wanted: Mode, held: Mode): (r: bool)
    ensures !r <==> (wanted.Read? && !held.Exclusive?) || (held.Read? && !wanted.Exclusive?)
  {
    match wanted
    case Read => held.Exclusive?
    case Write => held.Write? || held.Exclusive?
    case Exclusive => true
  }

  lemma ConflictIsMutual(x: Mode, y: Mode)
    ensures ModeConflicts(x, y) <==> ModeConflicts(y, x)
  {
  }

  function Strength(mode: Mode): nat {
    match mode
    case Read => 0
    case Write => 1
    case Exclusive => 2
  }

  /** The table is not the rule that a claim conflicts with held modes of equal or greater strength:
      the two agree exactly for writing claims and for exclusive holders. */
  lemma ConflictIsStrengthIff(wanted: Mode, held: Mode)
    ensures (ModeConflicts(wanted, held) <==> Strength(wanted) <= Strength(held)) <==> wanted.Write? || held.Exclusive?
  {
  }

  // ----- the expiry of a claim -----

  const I64_SPAN := 0x1_0000_0000_0000_0000
  const I64_MAX := 0x7fff_ffff_ffff_ffff

  /** Seconds a `TimeDelta` can hold, and the instants a `DateTime<Utc>` can hold. */
  const MAX_DELTA_SECONDS := I64_MAX / 1000
  const MIN_INSTANT: Time := -8_334_601_228_800 * NANOS_PER_SECOND
  const MAX_INSTANT: Time := 8_210_266_876_799 * NANOS_PER_SECOND + 999_999_999

  /** `ttl as i64`: reinterpretation of the 64-bit pattern as a signed number. */
  function AsI64(ttl: U64): int {
    if ttl <= I64_MAX then ttl else ttl - I64_SPAN
  }

  /** `now + Duration::seconds(ttl as i64)`; `None` where chrono panics. */
  function ClaimExpiry(now: Time, ttl: U64): Option<Time> {
    var seconds := AsI64(ttl);
    if seconds < -MAX_DELTA_SECONDS || seconds > MAX_DELTA_SECONDS then None
    else
      var expires := now + seconds * NANOS_PER_SECOND;
      if expires < MIN_INSTANT || expires > MAX_INSTANT then None else Some(expires)
  }

  /** A ttl of `seconds` from `now` can be represented: as a duration in milliseconds, and as an instant. */
  predicate Representable(now: Time, seconds: int) {
    && -9_223_372_036_854_775 <= seconds <= 9_223_372_036_854_775
    && -8_334_601_228_800_000_000_000 <= now + seconds * NANOS_PER_SECOND < 8_210_266_876_800_000_000_000
  }

  /** A claim has an expiry exactly when its ttl, read as a signed number, can be represented, and then it
      is that many seconds after the sample. */
  lemma ExpiryIff(now: Time, ttl: U64)
    ensures ttl < 0x8000_0000_0000_0000 ==>
      ClaimExpiry(now, ttl) == if Representable(now, ttl) then Some(now + ttl * NANOS_PER_SECOND) else None
    ensures ttl >= 0x8000_0000_0000_0000 ==>
      var seconds := ttl - 0x1_0000_0000_0000_0000;
      ClaimExpiry(now, ttl) == if Representable(now, seconds) then Some(now + seconds * NANOS_PER_SECOND) else None
  {
  }

  /** Between the years 0 and 9999 every ttl up to a hundred thousand years has one. */
  lemma OrdinaryTtls(now: Time, ttl: U64)
    requires -62_167_219_200 <= now / NANOS_PER_SECOND < 253_402_300_800 && ttl <= 3_155_760_000_000
    ensures ClaimExpiry(now, ttl) == Some(now + ttl * NANOS_PER_SECOND)
  {
    ExpiryIff(now, ttl);
  }

  /** A claim is in force at the instant it was sampled exactly when its ttl is
      positive as a signed number; a ttl from 2^63 up that does not panic expires in the past. */
  lemma ClaimInForceIff(now: Time, ttl: U64)
    requires ClaimExpiry(now, ttl).Some?
    ensures ClaimExpiry(now, ttl).value > now <==> 0 < ttl <= I64_MAX
    ensures ClaimExpiry(now, ttl).value == now + ttl * NANOS_PER_SECOND <==> ttl <= I64_MAX
  {
  }

  /** The largest ttl makes a claim that expired a second before it was made; one of 2^63 - 1 panics. */
  lemma LargestTtls()
    ensures ClaimExpiry(0, I64_SPAN - 1) == Some(-NANOS_PER_SECOND)
    ensures ClaimExpiry(0, I64_MAX) == None
  {
  }
}
