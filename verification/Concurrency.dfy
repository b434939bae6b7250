/** The daemon with many connections. Every connection is a task that reads a line, enters a handler,
    perhaps reads the clock, takes the lock once, and writes a response; tasks interleave freely and may
    be dropped (by the peer, a timeout, a panic or the abort at shutdown) between any two of these. */
module Concurrency {
  import opened Protocol
  import opened Steps
  import opened Runs
  import opened Listener

  type ConnId = nat

  /** Where a connection task is. `readAt` numbers the event that read the request;
      `entry` is the step of the run a response belongs to, if it came from a handler. */
  datatype Phase =
    | Reading
    | Entered(id: RpcId, request: Request, readAt: nat)
    | Clocked(id: RpcId, request: Request, readAt: nat, now: Time)
    | Replying(envelope: Envelope<Answer>, entry: Option<nat>)

  datatype Conn = Conn(open: bool, phase: Phase, consumed: seq<Line>, written: seq<Envelope<Answer>>)

  /** Which connection a handler step served, and when its request was read and its lock section ran. */
  datatype Entry = Entry(conn: ConnId, readAt: nat, appliedAt: nat)

  /** `run` records the lock sections in lock order; its last state is the shared state. */
  datatype System = System(clock: Time, steps: nat, accepting: bool, conns: map<ConnId, Conn>,
                           run: Run, entries: seq<Entry>, answeredAt: map<nat, nat>)

  datatype Event =
    | Tick(now: Time)
    | Accept(c: ConnId)
    | Arrive(c: ConnId, line: Line)
    | ReadClock(c: ConnId)
    | Apply(c: ConnId, newId: Id, out: Outcome)
    | Write(c: ConnId)
    | Drop(c: ConnId)
    | Shutdown

  /** The handlers that read the clock before they take the lock: a registration, a heartbeat and a claim
      with valid parameters. The others that need the clock read it under the lock. */
  predicate SamplesFirst(request: Request) {
    || (request.Register? && request.pid.Some?)
    || (request.Heartbeat? && request.sessionId.Some?)
    || WellFormedClaim(request)
  }

  function Boot(clock: Time): System {
    System(clock, 0, true, map[], Start(), [], map[])
  }

  function PhaseAfter(line: Line, step: nat): Phase {
    match line
    case Blank => Reading
    case Notification(_) => Reading
    case Oversize => Replying(Envelope(Number(0), Failed(InvalidParams)), None)
    case Malformed => Replying(ParseError, None)
    case Call(id, request) => Entered(id, request, step)
  }

  predicate ReadyToLock(phase: Phase) {
    phase.Clocked? || (phase.Entered? && !SamplesFirst(phase.request))
  }

  /** The handler step a connection is about to take. */
  function OpOf(sys: System, c: ConnId, newId: Id): Op
    requires c in sys.conns && ReadyToLock(sys.conns[c].phase)
  {
    var phase := sys.conns[c].phase;
    Op(phase.request, if phase.Clocked? then phase.now else sys.clock, newId)
  }

  ghost predicate Guard(sys: System, e: Event) {
    |sys.run.states| > 0 &&
    match e
    case Tick(now) => now >= sys.clock
    case Accept(c) => sys.accepting && c !in sys.conns
    case Arrive(c, _) => c in sys.conns && sys.conns[c].open && sys.conns[c].phase.Reading?
    case ReadClock(c) =>
      c in sys.conns && sys.conns[c].open && sys.conns[c].phase.Entered? && SamplesFirst(sys.conns[c].phase.request)
    case Apply(c, newId, _) =>
      c in sys.conns && sys.conns[c].open && ReadyToLock(sys.conns[c].phase) && newId !in Last(sys.run).minted
    case Write(c) => c in sys.conns && sys.conns[c].open && sys.conns[c].phase.Replying?
    case Drop(c) => c in sys.conns && sys.conns[c].open
    case Shutdown => true
  }

  /** The outcome named by a lock section is that of the handler. */
  ghost predicate Honest(sys: System, e: Event)
    requires Guard(sys, e)
  {
    e.Apply? ==> e.out == Step(Last(sys.run), OpOf(sys, e.c, e.newId))
  }

  /** A claim whose expiry overflows panics right after reading the clock. */
  predicate Panics(request: Request, now: Time) {
    WellFormedClaim(request) && ClaimExpiry(now, TtlOf(request.ttlSec)).None?
  }

  ghost function Next(sys: System, e: Event): System
    requires Guard(sys, e)
  {
    var s := sys.(steps := sys.steps + 1);
    match e
    case Tick(now) => s.(clock := now)
    case Accept(c) => s.(conns := s.conns[c := Conn(true, Reading, [], [])])
    case Arrive(c, line) =>
      var conn := s.conns[c];
      s.(conns := s.conns[c := conn.(phase := PhaseAfter(line, sys.steps), consumed := conn.consumed + [line])])
    case ReadClock(c) =>
      var conn := s.conns[c];
      var p := conn.phase;
      s.(conns := s.conns[c := if Panics(p.request, s.clock) then conn.(open := false)
                               else conn.(phase := Clocked(p.id, p.request, p.readAt, s.clock))])
    case Apply(c, newId, out) =>
      var conn := s.conns[c];
      var p := conn.phase;
      s.(conns := s.conns[c := conn.(phase := Replying(Envelope(p.id, out.answer), Some(|s.entries|)))],
         run := Run(s.run.states + [out.state], s.run.ops + [OpOf(sys, c, newId)], s.run.answers + [out.answer]),
         entries := s.entries + [Entry(c, p.readAt, sys.steps)])
    case Write(c) =>
      var conn := s.conns[c];
      s.(conns := s.conns[c := conn.(phase := Reading, written := conn.written + [conn.phase.envelope])],
         answeredAt := if conn.phase.entry.Some? then s.answeredAt[conn.phase.entry.value := sys.steps] else s.answeredAt)
    case Drop(c) => s.(conns := s.conns[c := s.conns[c].(open := false)])
    case Shutdown => s.(accepting := false)
  }

  // ----- what every event keeps -----

  ghost predicate Recorded(sys: System) {
    IsRun(sys.run) && |sys.entries| == |sys.run.ops|
  }

  lemma NextRecorded(sys: System, e: Event)
    requires Recorded(sys) && Guard(sys, e) && Honest(sys, e)
    ensures Recorded(Next(sys, e))
  {
    if e.Apply? {
      var op := OpOf(sys, e.c, e.newId);
      ExtendChain(sys.run, op);
      assert Next(sys, e).run == Extend(sys.run, op);
    }
  }

  /** Every sample lies at or before the clock, and a sample taken under the lock is not earlier than any
      sample of an earlier step. */
  ghost predicate Sampled(sys: System) {
    && (forall i :: 0 <= i < |sys.run.ops| ==> sys.run.ops[i].now <= sys.clock)
    && (forall c :: c in sys.conns && sys.conns[c].phase.Clocked? ==>
          sys.conns[c].phase.now <= sys.clock && SamplesFirst(sys.conns[c].phase.request)
          && !Panics(sys.conns[c].phase.request, sys.conns[c].phase.now))
    && (forall i, j :: 0 <= i < j < |sys.run.ops| && !SamplesFirst(sys.run.ops[j].request) ==>
          sys.run.ops[i].now <= sys.run.ops[j].now)
    && (forall i :: 0 <= i < |sys.run.ops| ==> !Panics(sys.run.ops[i].request, sys.run.ops[i].now))
  }

  lemma NextSampled(sys: System, e: Event)
    requires Sampled(sys) && Guard(sys, e)
    ensures Sampled(Next(sys, e))
  {
  }

  /** Lock sections run one at a time, after their request was read and before its answer is written. */
  ghost predicate Ordered(entries: seq<Entry>, answeredAt: map<nat, nat>, steps: nat) {
    && (forall i :: 0 <= i < |entries| ==> entries[i].readAt < entries[i].appliedAt < steps)
    && (forall i, j :: 0 <= i < j < |entries| ==> entries[i].appliedAt < entries[j].appliedAt)
    && (forall i :: i in answeredAt ==> i < |entries| && entries[i].appliedAt < answeredAt[i] < steps)
  }

  /** A request being handled was read by an earlier event. */
  ghost predicate ReadEarlier(sys: System) {
    forall c :: c in sys.conns && (sys.conns[c].phase.Entered? || sys.conns[c].phase.Clocked?) ==>
      sys.conns[c].phase.readAt < sys.steps
  }

  lemma NextReadEarlier(sys: System, e: Event)
    requires ReadEarlier(sys) && Guard(sys, e)
    ensures ReadEarlier(Next(sys, e))
  {
  }

  lemma NextOrdered(sys: System, e: Event)
    requires Ordered(sys.entries, sys.answeredAt, sys.steps) && ReadEarlier(sys) && RepliesOwn(sys) && Guard(sys, e)
    ensures Ordered(Next(sys, e).entries, Next(sys, e).answeredAt, Next(sys, e).steps)
  {
    if e.Apply? {
      assert Next(sys, e).entries == sys.entries + [Entry(e.c, sys.conns[e.c].phase.readAt, sys.steps)];
    }
  }

  /** A connection has at most one step that was applied but whose answer was not written: the one it is replying to. */
  ghost predicate OneUnanswered(sys: System) {
    && (forall k :: 0 <= k < |sys.entries| ==> sys.entries[k].conn in sys.conns)
    && (forall k :: 0 <= k < |sys.entries| && k !in sys.answeredAt ==>
          var phase := sys.conns[sys.entries[k].conn].phase; phase.Replying? && phase.entry == Some(k))
  }

  /** The step a connection is replying for is its own. */
  ghost predicate RepliesOwn(sys: System) {
    forall c :: c in sys.conns && sys.conns[c].phase.Replying? && sys.conns[c].phase.entry.Some? ==>
      var k := sys.conns[c].phase.entry.value; k < |sys.entries| && sys.entries[k].conn == c
  }

  lemma NextOneUnanswered(sys: System, e: Event)
    requires OneUnanswered(sys) && Guard(sys, e)
    ensures OneUnanswered(Next(sys, e))
  {
  }

  lemma NextRepliesOwn(sys: System, e: Event)
    requires RepliesOwn(sys) && Guard(sys, e)
    ensures RepliesOwn(Next(sys, e))
  {
  }

  /** A request read after another one was applied has the later sample: where requests do not overlap, their
      samples follow the lock order. */
  ghost predicate ReadsInOrder(entries: seq<Entry>, ops: seq<Op>)
    requires |entries| == |ops|
  {
    forall i, j | 0 <= i < |entries| && 0 <= j < |entries| && entries[i].appliedAt < entries[j].readAt ::
      ops[i].now <= ops[j].now
  }

  /** So does a sample that waits for the lock. */
  ghost predicate ClocksInOrder(sys: System)
    requires |sys.entries| == |sys.run.ops|
  {
    forall c, i | c in sys.conns && sys.conns[c].phase.Clocked? && 0 <= i < |sys.entries|
      && sys.entries[i].appliedAt < sys.conns[c].phase.readAt :: sys.run.ops[i].now <= sys.conns[c].phase.now
  }

  lemma NextClocksInOrder(sys: System, e: Event)
    requires |sys.entries| == |sys.run.ops| && ClocksInOrder(sys) && Sampled(sys) && ReadEarlier(sys) && Guard(sys, e)
    ensures ClocksInOrder(Next(sys, e))
  {
  }

  lemma NextReadsInOrder(sys: System, e: Event)
    requires |sys.entries| == |sys.run.ops| && ReadsInOrder(sys.entries, sys.run.ops)
    requires ClocksInOrder(sys) && Sampled(sys) && ReadEarlier(sys) && Guard(sys, e)
    requires Ordered(sys.entries, sys.answeredAt, sys.steps)
    ensures ReadsInOrder(Next(sys, e).entries, Next(sys, e).run.ops)
  {
    if e.Apply? {
      AppendReadInOrder(sys.entries, sys.run.ops, Entry(e.c, sys.conns[e.c].phase.readAt, sys.steps), OpOf(sys, e.c, e.newId));
    }
  }

  lemma AppendReadInOrder(entries: seq<Entry>, ops: seq<Op>, entry: Entry, op: Op)
    requires |entries| == |ops| && ReadsInOrder(entries, ops)
    requires forall i :: 0 <= i < |entries| ==> entries[i].readAt < entry.appliedAt
    requires entry.readAt < entry.appliedAt
    requires forall i :: 0 <= i < |entries| && entries[i].appliedAt < entry.readAt ==> ops[i].now <= op.now
    ensures ReadsInOrder(entries + [entry], ops + [op])
  {
  }

  // ----- which answers were written -----

  /** A response that no handler step gave. */
  predicate NoAnswer(envelope: Envelope<Answer>) {
    envelope == ParseError || envelope == Envelope(Number(0), Failed(InvalidParams))
  }

  /** The connection wrote `answer`. */
  ghost predicate Wrote(conn: Conn, answer: Answer) {
    exists x :: 0 <= x < |conn.written| && conn.written[x].Envelope? && conn.written[x].body == answer
  }

  /** The answer of step `k` was written on connection `c`. */
  predicate AnsweredOn(sys: System, k: nat, c: ConnId) {
    k in sys.answeredAt && k < |sys.entries| && sys.entries[k].conn == c
  }

  /** What a connection is about to write is the answer of its step, not written before. */
  ghost predicate RepliesAnswers(sys: System)
    requires |sys.entries| == |sys.run.answers|
  {
    forall c :: c in sys.conns && sys.conns[c].phase.Replying? ==>
      var phase := sys.conns[c].phase;
      if phase.entry.None? then NoAnswer(phase.envelope)
      else
        var k := phase.entry.value;
        && k < |sys.entries| && k !in sys.answeredAt && sys.entries[k].conn == c
        && phase.envelope.Envelope? && phase.envelope.body == sys.run.answers[k]
  }

  /** The steps that count as answered are those whose answers were written. */
  ghost predicate AnswersWritten(sys: System)
    requires |sys.entries| == |sys.run.answers|
  {
    forall k: nat, c :: c in sys.conns && AnsweredOn(sys, k, c) ==> Wrote(sys.conns[c], sys.run.answers[k])
  }

  /** A response that is no step's answer, or that of an answered step of the connection. */
  ghost predicate Answers(sys: System, c: ConnId, envelope: Envelope<Answer>)
    requires |sys.entries| == |sys.run.answers|
  {
    || NoAnswer(envelope)
    || exists k: nat :: AnsweredOn(sys, k, c) && envelope.Envelope? && envelope.body == sys.run.answers[k]
  }

  /** Nothing else was written. */
  ghost predicate WrittenAnswered(sys: System)
    requires |sys.entries| == |sys.run.answers|
  {
    forall c, x :: c in sys.conns && 0 <= x < |sys.conns[c].written| ==> Answers(sys, c, sys.conns[c].written[x])
  }

  lemma NextRepliesAnswers(sys: System, e: Event)
    requires |sys.entries| == |sys.run.answers| && RepliesAnswers(sys) && Guard(sys, e)
    requires Ordered(sys.entries, sys.answeredAt, sys.steps)
    ensures RepliesAnswers(Next(sys, e))
  {
  }

  lemma WroteMore(conn: Conn, envelope: Envelope<Answer>, answer: Answer)
    requires Wrote(conn, answer) || (envelope.Envelope? && envelope.body == answer)
    ensures Wrote(conn.(phase := Reading, written := conn.written + [envelope]), answer)
  {
    var more := conn.written + [envelope];
    if Wrote(conn, answer) {
      var x :| 0 <= x < |conn.written| && conn.written[x].Envelope? && conn.written[x].body == answer;
      assert more[x] == conn.written[x];
    } else {
      assert more[|conn.written|] == envelope;
    }
  }

  lemma NextAnswersWritten(sys: System, e: Event)
    requires |sys.entries| == |sys.run.answers| && RepliesAnswers(sys) && AnswersWritten(sys) && Guard(sys, e)
    requires Ordered(sys.entries, sys.answeredAt, sys.steps) && OneUnanswered(sys)
    ensures AnswersWritten(Next(sys, e))
  {
    var next := Next(sys, e);
    forall k: nat, c | c in next.conns && AnsweredOn(next, k, c)
      ensures Wrote(next.conns[c], next.run.answers[k])
    {
      assert k < |sys.entries| && c in sys.conns && next.run.answers[k] == sys.run.answers[k];
      if e.Write? && c == e.c {
        assert AnsweredOn(sys, k, c) || sys.conns[c].phase.entry == Some(k);
        WroteMore(sys.conns[c], sys.conns[c].phase.envelope, sys.run.answers[k]);
      } else {
        assert AnsweredOn(sys, k, c);
        assert next.conns[c].written == sys.conns[c].written;
      }
    }
  }

  lemma NextAnswers(sys: System, e: Event, c: ConnId, envelope: Envelope<Answer>)
    requires |sys.entries| == |sys.run.answers| && Guard(sys, e) && RepliesAnswers(sys)
    requires Answers(sys, c, envelope) || (e.Write? && e.c == c && envelope == sys.conns[c].phase.envelope)
    ensures Answers(Next(sys, e), c, envelope)
  {
    var next := Next(sys, e);
    if NoAnswer(envelope) {
    } else if Answers(sys, c, envelope) {
      var k: nat :| AnsweredOn(sys, k, c) && envelope.Envelope? && envelope.body == sys.run.answers[k];
      assert AnsweredOn(next, k, c) && next.run.answers[k] == sys.run.answers[k];
    } else {
      assert AnsweredOn(next, sys.conns[c].phase.entry.value, c);
    }
  }

  lemma NextWrittenAnswered(sys: System, e: Event)
    requires |sys.entries| == |sys.run.answers| && RepliesAnswers(sys) && WrittenAnswered(sys) && Guard(sys, e)
    ensures WrittenAnswered(Next(sys, e))
  {
    var next := Next(sys, e);
    forall c, x | c in next.conns && 0 <= x < |next.conns[c].written|
      ensures Answers(next, c, next.conns[c].written[x])
    {
      if c in sys.conns && x < |sys.conns[c].written| {
        assert next.conns[c].written[x] == sys.conns[c].written[x];
      }
      NextAnswers(sys, e, c, next.conns[c].written[x]);
    }
  }

  /** Of one item per step, those of the steps that served connection `c`, in lock order. */
  function Of<T>(entries: seq<Entry>, items: seq<T>, c: ConnId): seq<T>
    requires |entries| == |items|
  {
    if entries == [] then []
    else
      var n := |entries| - 1;
      var prior := Of(entries[..n], items[..n], c);
      if entries[n].conn == c then prior + [items[n]] else prior
  }

  lemma OfNext<T>(entries: seq<Entry>, items: seq<T>, entry: Entry, item: T, c: ConnId)
    requires |entries| == |items|
    ensures Of(entries + [entry], items + [item], c)
      == if entry.conn == c then Of(entries, items, c) + [item] else Of(entries, items, c)
  {
    assert (entries + [entry])[..|entries|] == entries && (items + [item])[..|items|] == items;
  }

  lemma {:induction false} OfNone<T>(entries: seq<Entry>, items: seq<T>, c: ConnId)
    requires |entries| == |items| && forall i :: 0 <= i < |entries| ==> entries[i].conn != c
    ensures Of(entries, items, c) == []
  {
    if entries != [] {
      OfNone(entries[..|entries| - 1], items[..|entries| - 1], c);
    }
  }

  /** The steps of a connection, picked out of the run together with their answers. */
  lemma {:induction false} OfAt(entries: seq<Entry>, ops: seq<Op>, answers: seq<Answer>, c: ConnId, i: nat)
    returns (k: nat)
    requires |entries| == |ops| == |answers| && i < |Of(entries, ops, c)|
    ensures |Of(entries, ops, c)| == |Of(entries, answers, c)|
    ensures k < |entries| && entries[k].conn == c
    ensures Of(entries, ops, c)[i] == ops[k] && Of(entries, answers, c)[i] == answers[k]
  {
    var n := |entries| - 1;
    OfLengths(entries[..n], ops[..n], answers[..n], c);
    if i < |Of(entries[..n], ops[..n], c)| {
      k := OfAt(entries[..n], ops[..n], answers[..n], c, i);
    } else {
      k := n;
    }
  }

  lemma {:induction false} OfLengths(entries: seq<Entry>, ops: seq<Op>, answers: seq<Answer>, c: ConnId)
    requires |entries| == |ops| == |answers|
    ensures |Of(entries, ops, c)| == |Of(entries, answers, c)|
  {
    if entries != [] {
      var n := |entries| - 1;
      OfLengths(entries[..n], ops[..n], answers[..n], c);
    }
  }

  function RequestsOf(ops: seq<Op>): (requests: seq<Request>)
    ensures |requests| == |ops|
  {
    seq(|ops|, i requires 0 <= i < |ops| => ops[i].request)
  }

  /** The steps ran the requests of `lines`, one each, in order, and `responses` carry their answers. */
  ghost predicate Serves(lines: seq<Line>, ops: seq<Op>, answers: seq<Answer>, responses: seq<Envelope<Answer>>) {
    Calls(lines) == |answers| && Requests(lines) == RequestsOf(ops) && responses == Respond(lines, answers)
  }

  lemma ServesNext(lines: seq<Line>, ops: seq<Op>, answers: seq<Answer>, responses: seq<Envelope<Answer>>, line: Line,
                   op: Op, answer: Answer)
    requires Serves(lines, ops, answers, responses)
    ensures !line.Call? ==> Serves(lines + [line], ops, answers, responses + ResponseTo(line, answer))
    ensures line.Call? && op.request == line.request ==>
      Serves(lines + [line], ops + [op], answers + [answer], responses + ResponseTo(line, answer))
  {
    RespondNext(lines, answers, line, answer);
    assert (lines + [line])[..|lines|] == lines;
    assert RequestsOf(ops + [op]) == RequestsOf(ops) + [op.request];
  }

  /** What a connection has written, and the response it is writing, are the responses to the lines it has
      read, where each call is answered by its own handler step. */
  ghost predicate Speaks(conn: Conn, ops: seq<Op>, answers: seq<Answer>) {
    match conn.phase
    case Reading => Serves(conn.consumed, ops, answers, conn.written)
    case Entered(id, request, _) => Awaits(conn, Call(id, request), ops, answers)
    case Clocked(id, request, _, _) => Awaits(conn, Call(id, request), ops, answers)
    case Replying(envelope, _) => Serves(conn.consumed, ops, answers, conn.written + [envelope])
  }

  /** All lines but the last, `line`, are served. */
  ghost predicate Awaits(conn: Conn, line: Line, ops: seq<Op>, answers: seq<Answer>) {
    && |conn.consumed| > 0 && conn.consumed[|conn.consumed| - 1] == line
    && Serves(conn.consumed[..|conn.consumed| - 1], ops, answers, conn.written)
  }

  ghost predicate ConnSpeaks(sys: System, c: ConnId)
    requires |sys.entries| == |sys.run.answers| == |sys.run.ops| && c in sys.conns
  {
    Speaks(sys.conns[c], Of(sys.entries, sys.run.ops, c), Of(sys.entries, sys.run.answers, c))
  }

  ghost predicate AllSpeak(sys: System)
    requires |sys.entries| == |sys.run.answers| == |sys.run.ops|
  {
    forall c :: c in sys.conns ==> ConnSpeaks(sys, c)
  }

  lemma ArriveSpeaks(conn: Conn, line: Line, step: nat, ops: seq<Op>, answers: seq<Answer>)
    requires conn.phase.Reading? && Speaks(conn, ops, answers)
    ensures Speaks(conn.(phase := PhaseAfter(line, step), consumed := conn.consumed + [line]), ops, answers)
  {
    assert (conn.consumed + [line])[..|conn.consumed|] == conn.consumed;
    if !line.Call? {
      ServesNext(conn.consumed, ops, answers, conn.written, line, Op(SessionList, 0, ""), Okay);
      assert conn.written + [] == conn.written;
    }
  }

  lemma ApplySpeaks(conn: Conn, ops: seq<Op>, answers: seq<Answer>, op: Op, answer: Answer, entry: nat)
    requires (conn.phase.Entered? || conn.phase.Clocked?) && Speaks(conn, ops, answers) && op.request == conn.phase.request
    ensures Speaks(conn.(phase := Replying(Envelope(conn.phase.id, answer), Some(entry))), ops + [op], answers + [answer])
  {
    var line := Call(conn.phase.id, conn.phase.request);
    var init := conn.consumed[..|conn.consumed| - 1];
    assert conn.consumed == init + [line];
    ServesNext(init, ops, answers, conn.written, line, op, answer);
  }

  lemma NextSpeaks(sys: System, e: Event)
    requires |sys.entries| == |sys.run.answers| == |sys.run.ops| && OneUnanswered(sys) && AllSpeak(sys) && Guard(sys, e)
    ensures AllSpeak(Next(sys, e))
  {
    forall c | c in Next(sys, e).conns
      ensures ConnSpeaks(Next(sys, e), c)
    {
      if e.Apply? {
        ApplyConnSpeaks(sys, e, c);
      } else {
        if e.Accept? && c == e.c {
          OfNone(sys.entries, sys.run.ops, c);
          OfNone(sys.entries, sys.run.answers, c);
        }
        NextConnSpeaks(sys, e, c, Of(sys.entries, sys.run.ops, c), Of(sys.entries, sys.run.answers, c));
      }
    }
  }

  lemma ApplyConnSpeaks(sys: System, e: Event, c: ConnId)
    requires |sys.entries| == |sys.run.answers| == |sys.run.ops| && Guard(sys, e) && e.Apply?
    requires c in sys.conns && ConnSpeaks(sys, c)
    ensures ConnSpeaks(Next(sys, e), c)
  {
    var entry := Entry(e.c, sys.conns[e.c].phase.readAt, sys.steps);
    var op := OpOf(sys, e.c, e.newId);
    OfNext(sys.entries, sys.run.ops, entry, op, c);
    OfNext(sys.entries, sys.run.answers, entry, e.out.answer, c);
    if c == e.c {
      ApplySpeaks(sys.conns[c], Of(sys.entries, sys.run.ops, c), Of(sys.entries, sys.run.answers, c),
                  op, e.out.answer, |sys.entries|);
    }
  }

  lemma NextConnSpeaks(sys: System, e: Event, c: ConnId, ops: seq<Op>, answers: seq<Answer>)
    requires Guard(sys, e) && !e.Apply? && c in Next(sys, e).conns
    requires c in sys.conns ==> Speaks(sys.conns[c], ops, answers)
    requires c !in sys.conns ==> ops == [] && answers == []
    ensures Speaks(Next(sys, e).conns[c], ops, answers)
  {
    match e
    case Arrive(d, line) =>
      if c == d { ArriveSpeaks(sys.conns[c], line, sys.steps, ops, answers); }
    case _ =>
  }

  ghost predicate SysInv(sys: System) {
    && Recorded(sys) && Sampled(sys) && ReadEarlier(sys)
    && Ordered(sys.entries, sys.answeredAt, sys.steps) && OneUnanswered(sys) && RepliesOwn(sys) && AllSpeak(sys)
    && ReadsInOrder(sys.entries, sys.run.ops) && ClocksInOrder(sys)
    && RepliesAnswers(sys) && AnswersWritten(sys) && WrittenAnswered(sys)
  }

  // ----- behaviours -----

  /** A behaviour: the systems an execution passes through and the events between them. */
  datatype Behaviour = Behaviour(systems: seq<System>, events: seq<Event>)

  ghost predicate Happens(b: Behaviour, i: nat)
    requires |b.systems| == |b.events| + 1
  {
    i < |b.events| ==>
      && Guard(b.systems[i], b.events[i]) && Honest(b.systems[i], b.events[i])
      && b.systems[i + 1] == Next(b.systems[i], b.events[i])
  }

  ghost predicate IsBehaviour(b: Behaviour) {
    && |b.systems| == |b.events| + 1
    && (exists clock :: b.systems[0] == Boot(clock))
    && forall i: nat :: Happens(b, i)
  }

  lemma NextKeepsInv(sys: System, e: Event)
    requires SysInv(sys) && Guard(sys, e) && Honest(sys, e)
    ensures SysInv(Next(sys, e))
  {
    NextRecorded(sys, e);
    NextSampled(sys, e);
    NextReadEarlier(sys, e);
    NextOrdered(sys, e);
    NextOneUnanswered(sys, e);
    NextRepliesOwn(sys, e);
    NextSpeaks(sys, e);
    NextReadsInOrder(sys, e);
    NextClocksInOrder(sys, e);
    NextRepliesAnswers(sys, e);
    NextAnswersWritten(sys, e);
    NextWrittenAnswered(sys, e);
  }

  lemma {:induction false} BehaviourInv(b: Behaviour, n: nat)
    requires IsBehaviour(b) && n <= |b.events|
    ensures SysInv(b.systems[n])
  {
    if n > 0 {
      BehaviourInv(b, n - 1);
      assert Happens(b, n - 1);
      NextKeepsInv(b.systems[n - 1], b.events[n - 1]);
    }
  }

  /** A system that some behaviour passes through. */
  ghost predicate Reachable(sys: System)
    ensures Reachable(sys) ==> Shaped(sys.run)
  {
    assert forall b: Behaviour, n: nat | Visits(b, n, sys) :: Shaped(sys.run) by {
      forall b: Behaviour, n: nat | Visits(b, n, sys)
        ensures Shaped(sys.run)
      {
        BehaviourInv(b, n);
      }
    }
    exists b: Behaviour, n: nat :: Visits(b, n, sys)
  }

  lemma ReachableInv(sys: System)
    requires Reachable(sys)
    ensures SysInv(sys)
  {
    var b: Behaviour, n: nat :| Visits(b, n, sys);
    BehaviourInv(b, n);
  }

  lemma ReachableRun(sys: System)
    requires Reachable(sys)
    ensures IsRun(sys.run) && |sys.entries| == |sys.run.ops|
  {
    ReachableInv(sys);
  }

  ghost predicate Visits(b: Behaviour, n: nat, sys: System) {
    IsBehaviour(b) && n <= |b.events| && b.systems[n] == sys
  }
}
