/** One connection of the listener: lines in, response lines out. */
module Listener {
  import opened Protocol
  import opened Steps
  import opened Invariants
  import opened Runs
  import opened Handlers

  datatype RpcId = Text(text: string) | Number(number: U64)

  /** An input line, as far as the loop tells lines apart. A notification is a request without an id. */
  datatype Line = Blank | Oversize | Malformed | Notification(request: Request) | Call(id: RpcId, request: Request)

  /** A response line: a parse error (whose id is null), or a result or error for an id. */
  datatype Envelope<+R> = ParseError | Envelope(id: RpcId, body: R)

  /** What the environment supplies to one handler run. */
  datatype Sample = Sample(now: Time, newId: Id)

  /** How many of the lines are dispatched to a handler. */
  function Calls(lines: seq<Line>): (n: nat)
    ensures n <= |lines|
  {
    if lines == [] then 0
    else Calls(lines[..|lines| - 1]) + (if lines[|lines| - 1].Call? then 1 else 0)
  }

  /** The requests of those lines. */
  function Requests(lines: seq<Line>): (requests: seq<Request>)
    ensures |requests| == Calls(lines)
  {
    if lines == [] then []
    else
      var prior := Requests(lines[..|lines| - 1]);
      if lines[|lines| - 1].Call? then prior + [lines[|lines| - 1].request] else prior
  }

  /** The response to one line, if it gets one, where `answer` is what its handler answered. */
  function ResponseTo(line: Line, answer: Answer): seq<Envelope<Answer>> {
    match line
    case Blank => []
    case Notification(_) => []
    case Oversize => [Envelope(Number(0), Failed(InvalidParams))]
    case Malformed => [ParseError]
    case Call(id, _) => [Envelope(id, answer)]
  }

  /** The responses to `lines`, in order, where `answers` are those of the calls among them. */
  function Respond(lines: seq<Line>, answers: seq<Answer>): seq<Envelope<Answer>>
    requires |answers| == Calls(lines)
  {
    if lines == [] then []
    else
      var init, line := lines[..|lines| - 1], lines[|lines| - 1];
      if line.Call? then
        Respond(init, answers[..|answers| - 1]) + ResponseTo(line, answers[|answers| - 1])
      else
        Respond(init, answers) + ResponseTo(line, Okay)
  }

  /** The answers once `line` was handled. */
  function Answered(line: Line, answers: seq<Answer>, answer: Answer): seq<Answer> {
    if line.Call? then answers + [answer] else answers
  }

  lemma RespondNext(lines: seq<Line>, answers: seq<Answer>, line: Line, answer: Answer)
    requires |answers| == Calls(lines)
    ensures Calls(lines + [line]) == |Answered(line, answers, answer)|
    ensures Respond(lines + [line], Answered(line, answers, answer))
      == Respond(lines, answers) + ResponseTo(line, answer)
  {
    assert (lines + [line])[..|lines|] == lines;
    assert (answers + [answer])[..|answers|] == answers;
  }

  /** The position of the response to line `i` among all responses. */
  function Place(lines: seq<Line>, i: nat): nat
    requires i <= |lines|
  {
    if i == 0 then 0
    else Place(lines, i - 1) + (if lines[i - 1].Blank? || lines[i - 1].Notification? then 0 else 1)
  }

  lemma {:induction false} ResponseCount(lines: seq<Line>, answers: seq<Answer>)
    requires |answers| == Calls(lines)
    ensures |Respond(lines, answers)| == Place(lines, |lines|)
  {
    if lines != [] {
      var last := |lines| - 1;
      ResponseCount(lines[..last], if lines[last].Call? then answers[..|answers| - 1] else answers);
      PlaceOfPrefix(lines, last);
    }
  }

  /** Responses come in input order, one for each line that is not blank or a notification, and each
      call is answered under its own id with what its own handler answered. */
  lemma {:induction false} ResponseInPlace(lines: seq<Line>, answers: seq<Answer>, i: nat)
    requires |answers| == Calls(lines) && i < |lines| && !lines[i].Blank? && !lines[i].Notification?
    ensures Calls(lines[..i]) <= |answers| && (lines[i].Call? ==> Calls(lines[..i]) < |answers|)
    ensures Place(lines, i) < |Respond(lines, answers)| == Place(lines, |lines|)
    ensures Respond(lines, answers)[Place(lines, i)]
      == ResponseTo(lines[i], if lines[i].Call? then answers[Calls(lines[..i])] else Okay)[0]
  {
    var last := |lines| - 1;
    var init := lines[..last];
    var prior := if lines[last].Call? then answers[..|answers| - 1] else answers;
    ResponseCount(lines, answers);
    ResponseCount(init, prior);
    PlaceOfPrefix(lines, last);
    if i < last {
      ResponseInPlace(init, prior, i);
      PlaceAgrees(init, lines, i);
      assert init[..i] == lines[..i];
    }
  }

  lemma {:induction false} PlaceOfPrefix(lines: seq<Line>, n: nat)
    requires n <= |lines|
    ensures Place(lines[..n], n) == Place(lines, n)
  {
    PlaceAgrees(lines[..n], lines, n);
  }

  lemma {:induction false} PlaceAgrees(x: seq<Line>, y: seq<Line>, n: nat)
    requires n <= |x| && n <= |y| && x[..n] == y[..n]
    ensures Place(x, n) == Place(y, n)
  {
    if n > 0 {
      assert x[..n - 1] == x[..n][..n - 1] == y[..n - 1];
      assert x[n - 1] == x[..n][n - 1] == y[n - 1];
      PlaceAgrees(x, y, n - 1);
    }
  }

  /** The handler steps of the calls among `lines`, each with its sample. */
  function OpsOf(lines: seq<Line>, samples: seq<Sample>): (ops: seq<Op>)
    requires Calls(lines) <= |samples|
    ensures |ops| == Calls(lines)
  {
    if lines == [] then []
    else
      var init, line := lines[..|lines| - 1], lines[|lines| - 1];
      if line.Call? then
        OpsOf(init, samples) + [Op(line.request, samples[Calls(init)].now, samples[Calls(init)].newId)]
      else OpsOf(init, samples)
  }

  ghost predicate SendsEnvelope(wire: Envelope<Reply>, meaning: Envelope<Answer>) {
    match meaning
    case ParseError => wire.ParseError?
    case Envelope(id, answer) => wire.Envelope? && wire.id == id && Sends(wire.body, answer)
  }

  /** `wire` is a way to send the envelopes of `meaning`, in order. */
  ghost predicate SendsAll(wire: seq<Envelope<Reply>>, meaning: seq<Envelope<Answer>>) {
    && |wire| == |meaning|
    && forall i :: 0 <= i < |wire| ==> SendsEnvelope(wire[i], meaning[i])
  }

  /** Route a method to its handler. */
  method Dispatch(app: AppState, request: Request, now: Time, newId: Id) returns (reply: Reply)
    requires app.Valid() && newId !in app.minted
    modifies app
    ensures app.Valid() && app.Took(old(app.Snapshot()), Op(request, now, newId), reply)
  {
    match request
    case Register(pid, agentType, workingDir, capabilities) =>
      reply := app.SessionRegister(pid, agentType, workingDir, capabilities, now, newId);
    case Deregister(id) => reply := app.SessionDeregister(id, now, newId);
    case Heartbeat(id) => reply := app.SessionHeartbeat(id, now, newId);
    case SessionList => reply := app.SessionListAll(now, newId);
    case SessionGet(id) => reply := app.SessionGetOne(id, now, newId);
    case Claim(id, path, mode, ttl) => reply := app.ReservationClaim(id, path, mode, ttl, now, newId);
    case Release(id) => reply := app.ReservationRelease(id, now, newId);
    case ReservationList(prefix) => reply := app.ReservationListActive(prefix, now, newId);
    case Post(from, to, subject, body, priority) =>
      reply := app.InboxPost(from, to, subject, body, priority, now, newId);
    case InboxList(id, unreadOnly, limit) => reply := app.InboxListMessages(id, unreadOnly, limit, now, newId);
    case InboxRead(id) => reply := app.InboxReadOne(id, now, newId);
    case StateSet(id, focusFile, focusBranch, worktree, status) =>
      reply := app.StateSetLive(id, focusFile, focusBranch, worktree, status, now, newId);
    case StateGet(id) => reply := app.StateGetLive(id, now, newId);
    case Discover(prefix, branch, capabilities) =>
      reply := app.DiscoverAgents(prefix, branch, capabilities, now, newId);
    case Unknown(_) => reply := FailedReply(MethodNotFound);
  }

  /** The samples from number `k` on carry distinct identifiers that are not minted yet. */
  ghost predicate FreshFrom(samples: seq<Sample>, k: nat, minted: set<Id>) {
    && (forall i :: k <= i < |samples| ==> samples[i].newId !in minted)
    && (forall i, j :: k <= i < j < |samples| ==> samples[i].newId != samples[j].newId)
  }

  /** Run the handler of one call, recording its step. */
  method Serve(app: AppState, request: Request, sample: Sample, ghost run: Run)
    returns (reply: Reply, ghost next: Run, ghost answer: Answer)
    requires sample.newId !in app.minted && Chain(run) && Inv(run.states[0]) && Last(run) == app.Snapshot()
    modifies app
    ensures old(app.minted) <= app.minted <= old(app.minted) + {sample.newId}
    ensures Chain(next) && next.states[0] == run.states[0] && Last(next) == app.Snapshot()
    ensures next.ops == run.ops + [Op(request, sample.now, sample.newId)]
    ensures next.answers == run.answers + [answer] && Sends(reply, answer)
  {
    ghost var op := Op(request, sample.now, sample.newId);
    ChainInv(run, |run.ops|);
    ExtendChain(run, op);
    StepMints(app.Snapshot(), op);
    next := Extend(run, op);
    answer := Step(app.Snapshot(), op).answer;
    reply := Dispatch(app, request, sample.now, sample.newId);
  }

  /** The steps and responses of the lines `done` so far; `lost` if the last response was not written. */
  ghost predicate Handled(done: seq<Line>, samples: seq<Sample>, ops: seq<Op>, answers: seq<Answer>,
                          written: seq<Envelope<Reply>>, lost: bool)
  {
    && Calls(done) == |answers| && Calls(done) <= |samples| && ops == OpsOf(done, samples)
    && |Respond(done, answers)| == |written| + (if lost then 1 else 0)
    && SendsAll(written, Respond(done, answers)[..|written|])
  }

  /** The steps once `line` was handled, as call number `k` if it is one. */
  function Stepping(line: Line, ops: seq<Op>, samples: seq<Sample>, k: nat): seq<Op>
    requires line.Call? ==> k < |samples|
  {
    if line.Call? then ops + [Op(line.request, samples[k].now, samples[k].newId)] else ops
  }

  lemma HandledNext(done: seq<Line>, line: Line, samples: seq<Sample>, ops: seq<Op>, answers: seq<Answer>,
                    written: seq<Envelope<Reply>>, answer: Answer, response: seq<Envelope<Reply>>, lost: bool)
    requires Handled(done, samples, ops, answers, written, false)
    requires line.Call? ==> Calls(done) < |samples|
    requires SendsAll(response, ResponseTo(line, answer)) && (lost ==> response != [])
    ensures Handled(done + [line], samples, Stepping(line, ops, samples, Calls(done)),
                    Answered(line, answers, answer), if lost then written else written + response, lost)
  {
    assert (done + [line])[..|done|] == done;
    RespondNext(done, answers, line, answer);
    var before := Respond(done, answers);
    var after := Respond(done + [line], Answered(line, answers, answer));
    assert before[..|written|] == before;
    assert after[..|written|] == before;
    assert after[..|written + response|] == after;
  }

  /** The shared state is where `run` ends, and the samples from number `calls` on are still unused. */
  ghost predicate Serving(app: AppState, samples: seq<Sample>, calls: nat, run: Run)
    reads app
  {
    FreshFrom(samples, calls, app.minted) && Chain(run) && Last(run) == app.Snapshot()
  }

  /** What would be sent if the handler of `line` had not taken its task down. */
  function Died(line: Line): Envelope<Reply> {
    Envelope(if line.Call? then line.id else Number(0), CrashedReply)
  }

  /** No response stands for a crash. */
  predicate NoCrash(written: seq<Envelope<Reply>>) {
    forall e :: e in written ==> !(e.Envelope? && e.body.CrashedReply?)
  }

  /** Handle one line up to the point where its response, if any, is written. */
  method HandleLine(app: AppState, line: Line, samples: seq<Sample>, calls: nat, ghost run: Run)
    returns (response: seq<Envelope<Reply>>, ghost next: Run, ghost answer: Answer)
    requires Serving(app, samples, calls, run) && Inv(run.states[0]) && (line.Call? ==> calls < |samples|)
    modifies app
    ensures Serving(app, samples, if line.Call? then calls + 1 else calls, next)
    ensures next.states[0] == run.states[0]
    ensures next.ops == Stepping(line, run.ops, samples, calls)
    ensures next.answers == Answered(line, run.answers, answer)
    ensures SendsAll(response, ResponseTo(line, answer))
    ensures |response| <= 1 && (response == [Died(line)] ==> line.Call? && answer == Crashed)
    ensures NoCrash(response) || response == [Died(line)]
  {
    response, next, answer := [], run, Okay;
    match line {
      case Blank =>
      case Notification(_) =>
      case Oversize =>
        response := [Envelope(Number(0), FailedReply(InvalidParams))];
      case Malformed =>
        response := [ParseError];
      case Call(id, request) =>
        var reply;
        reply, next, answer := Serve(app, request, samples[calls], run);
        response := [Envelope(id, reply)];
    }
  }

  /** The last handler took its task down. */
  predicate EndsCrashed(answers: seq<Answer>) {
    answers != [] && answers[|answers| - 1] == Crashed
  }

  /** A response is lost with the peer or with the task. */
  predicate IsLost(line: Line, peerGone: bool, response: seq<Envelope<Reply>>) {
    response != [] && (peerGone || response == [Died(line)])
  }

  lemma WritesLeft(line: Line, answers: seq<Answer>, answer: Answer, written: seq<Envelope<Reply>>, writes: nat,
                   response: seq<Envelope<Reply>>)
    requires |written| <= writes && |response| <= 1
    requires response == [Died(line)] ==> line.Call? && answer == Crashed
    ensures var lost := IsLost(line, |written| == writes, response);
      && (!lost ==> |written + response| <= writes)
      && (lost ==> |written| == writes || EndsCrashed(Answered(line, answers, answer)))
  {
  }

  /** One turn of the loop: handle `line` and write its response, unless the peer or the task is gone. */
  method Turn(app: AppState, line: Line, samples: seq<Sample>, calls: nat, writes: nat,
              written: seq<Envelope<Reply>>, ghost done: seq<Line>, ghost run: Run)
    returns (written': seq<Envelope<Reply>>, lost: bool, ghost next: Run)
    requires Serving(app, samples, calls, run) && Inv(run.states[0]) && (line.Call? ==> calls < |samples|)
    requires calls == Calls(done) && |written| <= writes
    requires Handled(done, samples, run.ops, run.answers, written, false) && NoCrash(written)
    modifies app
    ensures Serving(app, samples, if line.Call? then calls + 1 else calls, next)
    ensures next.states[0] == run.states[0] && |written'| <= writes
    ensures Handled(done + [line], samples, next.ops, next.answers, written', lost)
    ensures NoCrash(written') && (lost ==> |written'| == writes || EndsCrashed(next.answers))
  {
    ghost var answer;
    var response;
    response, next, answer := HandleLine(app, line, samples, calls, run);
    lost := IsLost(line, |written| == writes, response);
    HandledNext(done, line, samples, run.ops, run.answers, written, answer, response, lost);
    WritesLeft(line, run.answers, answer, written, writes, response);
    written' := if lost then written else written + response;
  }

  /** The connection loop on a given input. `writes` responses can be written before the peer is gone.
      The loop ends at the end of the input, at a failed write, or when a handler panics; in the last two
      cases the response to the last line handled is lost. */
  method HandleConnection(app: AppState, lines: seq<Line>, samples: seq<Sample>, writes: nat)
    returns (written: seq<Envelope<Reply>>, handled: nat, lost: bool, ghost run: Run)
    requires app.Valid() && Calls(lines) <= |samples| && FreshFrom(samples, 0, app.minted)
    modifies app
    ensures app.Valid()
    ensures Chain(run) && Last(run) == app.Snapshot() && run.states[0] == old(app.Snapshot())
    ensures handled <= |lines| && Handled(lines[..handled], samples, run.ops, run.answers, written, lost)
    ensures |written| <= writes && (!lost ==> handled == |lines|)
    ensures NoCrash(written) && (lost ==> |written| == writes || EndsCrashed(run.answers))
  {
    written, handled, lost := [], 0, false;
    var calls := 0;
    run := Run([app.Snapshot()], [], []);
    while handled < |lines| && !lost
      invariant Serving(app, samples, calls, run) && run.states[0] == old(app.Snapshot())
      invariant |written| <= writes && handled <= |lines| && calls == Calls(lines[..handled])
      invariant Handled(lines[..handled], samples, run.ops, run.answers, written, lost)
      invariant NoCrash(written) && (lost ==> |written| == writes || EndsCrashed(run.answers))
      decreases |lines| - handled
    {
      LinesTaken(lines, handled);
      CallsNext(lines, handled);
      written, lost, run := Turn(app, lines[handled], samples, calls, writes, written, lines[..handled], run);
      calls := if lines[handled].Call? then calls + 1 else calls;
      handled := handled + 1;
    }
    ChainInv(run, |run.ops|);
  }

  lemma CallsNext(lines: seq<Line>, n: nat)
    requires n < |lines|
    ensures lines[..n + 1] == lines[..n] + [lines[n]]
    ensures Calls(lines[..n + 1]) == Calls(lines[..n]) + (if lines[n].Call? then 1 else 0)
  {
    assert lines[..n + 1][..n] == lines[..n];
  }

  /** A prefix of the input has no more calls than the input. */
  lemma {:induction false} LinesTaken(lines: seq<Line>, n: nat)
    requires n <= |lines|
    ensures Calls(lines[..n]) <= Calls(lines)
    ensures n < |lines| && lines[n].Call? ==> Calls(lines[..n]) < Calls(lines)
  {
    if n == |lines| {
      assert lines[..n] == lines;
    } else {
      var init := lines[..|lines| - 1];
      LinesTaken(init, n);
      assert init[..n] == lines[..n];
    }
  }
}
