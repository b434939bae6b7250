/** The client handle, and a client on a connection of the concurrent daemon. Every request carries id 1, a
    request whose line is too long is answered under id 0, and no response id is checked; responses still pair
    with requests because calls do not overlap. */
module Clients {
  import opened Protocol
  import opened Steps
  import opened Listener
  import opened Concurrency

  /** A handle has its stream, has taken it for a call, or has lost it for good. */
  datatype Use = Free | InCall | Broken

  /** Requests written, responses taken, what the calls that took them returned, and response lines that sat
      in a discarded buffer. */
  datatype Handle = Handle(use: Use, sent: seq<Request>, received: seq<Envelope<Answer>>, results: seq<Result>,
                           dropped: seq<Envelope<Answer>>)

  datatype Result = Success(answer: Answer) | DaemonError | Unavailable | WriteFailed | Closed

  function Begin(s: Handle, request: Request): Handle {
    s.(use := InCall, sent := s.sent + [request])
  }

  /** A fresh buffered reader took the lines of `chunk`, returned the first and was discarded. */
  function Finish(s: Handle, chunk: seq<Envelope<Answer>>): Handle
    requires |chunk| > 0
  {
    s.(use := Free, received := s.received + [chunk[0]], results := s.results + [ResultOf(chunk[0])],
       dropped := s.dropped + chunk[1..])
  }

  function Break(s: Handle): Handle {
    s.(use := Broken)
  }

  function ResultOf(line: Envelope<Answer>): Result {
    if line.ParseError? || line.body.Failed? then DaemonError else Success(line.body)
  }

  class Client {
    /** The stream, unless a call took it and did not put it back. */
    var stream: Option<nat>
    ghost var use: Use
    ghost var sent: seq<Request>
    ghost var received: seq<Envelope<Answer>>
    ghost var results: seq<Result>
    ghost var dropped: seq<Envelope<Answer>>

    ghost function Snapshot(): Handle
      reads this
    {
      Handle(use, sent, received, results, dropped)
    }

    ghost predicate Valid()
      reads this
    {
      (stream.Some? <==> use.Free?) && (stream.None? <==> use.Broken?)
    }

    constructor (socket: nat)
      ensures Valid() && Snapshot() == Handle(Free, [], [], [], [])
    {
      stream := Some(socket);
      use, sent, received, results, dropped := Free, [], [], [], [];
    }

    /** One round trip. The environment decides whether the write succeeds and which lines have arrived when
        the reader fills its buffer; no line means the daemon closed the connection. */
    method Call(request: Request, writeOk: bool, chunk: seq<Envelope<Answer>>) returns (result: Result)
      requires Valid()
      modifies this
      ensures Valid()
      ensures old(stream).None? ==> result == Unavailable && Snapshot() == old(Snapshot())
      ensures old(stream).Some? && (!writeOk || chunk == []) ==>
        result == (if writeOk then Closed else WriteFailed) && Snapshot() == Break(Begin(old(Snapshot()), request))
      ensures old(stream).Some? && writeOk && chunk != [] ==>
        && (result == DaemonError <==> chunk[0].ParseError? || chunk[0].body.Failed?)
        && (result != DaemonError ==> result == Success(chunk[0].body)) && stream == old(stream)
        && Snapshot() == Finish(Begin(old(Snapshot()), request), chunk)
    {
      if stream.None? {
        return Unavailable;
      }
      var taken := stream.value;
      stream := None;
      sent := sent + [request];
      use := Broken;
      if !writeOk {
        return WriteFailed;
      }
      if |chunk| == 0 {
        return Closed;
      }
      var line := chunk[0];
      received, results, dropped := received + [line], results + [ResultOf(line)], dropped + chunk[1..];
      stream, use := Some(taken), Free;
      if line.ParseError? || line.body.Failed? {
        return DaemonError;
      }
      result := Success(line.body);
    }
  }

  // ----- a client on connection `c` -----

  datatype World = World(sys: System, client: Handle)

  datatype Happening =
    | Daemon(event: Event)
    | Begins(request: Request)
    | Finishes(lines: nat)
    | Breaks

  /** The response lines that were written to the connection and not yet taken by the client. */
  function Incoming(w: World, c: ConnId): seq<Envelope<Answer>>
    requires c in w.sys.conns && |w.client.received| + |w.client.dropped| <= |w.sys.conns[c].written|
  {
    w.sys.conns[c].written[|w.client.received| + |w.client.dropped|..]
  }

  /** How the daemon reads the line of a request: as a call with id 1, unless the line is too long, or cut
      short by a client that broke off while writing it. */
  predicate Framed(line: Line, request: Request, cut: bool) {
    line == Call(Number(1), request) || line == Oversize || (cut && line == Malformed)
  }

  /** Only the last line of a broken handle can be cut short. */
  predicate MayBeCut(client: Handle, n: nat) {
    client.use.Broken? && n == |client.sent| - 1
  }

  /** The daemon reads on `c` only what the client wrote, in order; the client takes at least one line and at
      most those that have arrived. */
  ghost predicate May(w: World, c: ConnId, h: Happening) {
    match h
    case Daemon(e) =>
      Guard(w.sys, e) && Honest(w.sys, e)
      && (e.Arrive? && e.c == c ==>
            var n := |w.sys.conns[c].consumed|; n < |w.client.sent| && Framed(e.line, w.client.sent[n], MayBeCut(w.client, n)))
    case Begins(_) => w.client.use.Free?
    case Finishes(lines) =>
      w.client.use.InCall? && c in w.sys.conns
      && 0 < lines <= |w.sys.conns[c].written| - |w.client.received| - |w.client.dropped|
    case Breaks => w.client.use.InCall?
  }

  ghost function Then(w: World, c: ConnId, h: Happening): World
    requires May(w, c, h)
  {
    match h
    case Daemon(e) => w.(sys := Next(w.sys, e))
    case Begins(request) => w.(client := Begin(w.client, request))
    case Finishes(lines) => w.(client := Finish(w.client, Incoming(w, c)[..lines]))
    case Breaks => w.(client := Break(w.client))
  }

  /** The lines read are those of the first requests. */
  ghost predicate AllFramed(lines: seq<Line>, sent: seq<Request>, cut: bool) {
    |lines| <= |sent| && forall i :: 0 <= i < |lines| ==> Framed(lines[i], sent[i], cut && i == |sent| - 1)
  }

  ghost predicate InStep(w: World, c: ConnId) {
    && w.client.dropped == []
    && |w.client.results| == |w.client.received|
    && (forall i :: 0 <= i < |w.client.received| ==> w.client.results[i] == ResultOf(w.client.received[i]))
    && |w.client.sent| == |w.client.received| + (if w.client.use.Free? then 0 else 1)
    && (c !in w.sys.conns ==> w.client.received == [])
    && (c in w.sys.conns ==>
          var conn := w.sys.conns[c];
          && AllFramed(conn.consumed, w.client.sent, w.client.use.Broken?)
          && w.client.received <= conn.written)
  }

  ghost predicate WorldInv(w: World, c: ConnId) {
    SysInv(w.sys) && InStep(w, c)
  }

  /** What the client is sent for its `i`-th request: the answer of the step that ran it, or, if its line was
      too long or cut short, an error that no step gave. */
  predicate Pairs(lines: seq<Line>, sent: seq<Request>, ops: seq<Op>, answers: seq<Answer>, i: nat,
                  response: Envelope<Answer>)
    requires i < |lines| <= |sent|
  {
    if lines[i].Oversize? then response == Envelope(Number(0), Failed(InvalidParams))
    else if lines[i].Malformed? then response == ParseError
    else
      var j := Calls(lines[..i]);
      j < |ops| == |answers| && ops[j].request == sent[i] && response == Envelope(Number(1), answers[j])
  }

  ghost predicate Paired(lines: seq<Line>, sent: seq<Request>, ops: seq<Op>, answers: seq<Answer>,
                         written: seq<Envelope<Answer>>)
  {
    && |written| <= |lines| <= |sent| && |ops| == |answers|
    && forall i :: 0 <= i < |written| ==> Pairs(lines, sent, ops, answers, i, written[i])
  }

  lemma {:induction false} RequestInPlace(lines: seq<Line>, i: nat)
    requires i < |lines| && lines[i].Call?
    ensures Calls(lines[..i]) < Calls(lines) && Requests(lines)[Calls(lines[..i])] == lines[i].request
  {
    var init := lines[..|lines| - 1];
    if i < |init| {
      RequestInPlace(init, i);
      assert init[..i] == lines[..i];
    }
  }

  /** Every line of a client gets a response, so the `i`-th response is for the `i`-th line. */
  lemma {:induction false} EveryLineAnswered(lines: seq<Line>, n: nat)
    requires n <= |lines| && forall i :: 0 <= i < n ==> lines[i].Call? || lines[i].Oversize? || lines[i].Malformed?
    ensures Place(lines, n) == n
  {
    if n > 0 {
      EveryLineAnswered(lines, n - 1);
    }
  }

  lemma ServesPairs(lines: seq<Line>, sent: seq<Request>, ops: seq<Op>, answers: seq<Answer>,
                    written: seq<Envelope<Answer>>, cut: bool)
    requires AllFramed(lines, sent, cut) && Serves(lines, ops, answers, written)
    ensures Paired(lines, sent, ops, answers, written) && |written| == |lines|
  {
    ResponseCount(lines, answers);
    EveryLineAnswered(lines, |lines|);
    assert |RequestsOf(ops)| == |ops|;
    forall i | 0 <= i < |written|
      ensures Pairs(lines, sent, ops, answers, i, written[i])
    {
      assert Framed(lines[i], sent[i], cut && i == |sent| - 1);
      ResponseInPlace(lines, answers, i);
      EveryLineAnswered(lines, i);
      if lines[i].Call? {
        RequestInPlace(lines, i);
        assert RequestsOf(ops)[Calls(lines[..i])] == sent[i];
      }
    }
  }

  /** What was paired stays paired when one more line is read or one response is not written yet. */
  lemma PairedPrefix(lines: seq<Line>, n: nat, sent: seq<Request>, ops: seq<Op>, answers: seq<Answer>,
                     all: seq<Envelope<Answer>>, written: seq<Envelope<Answer>>)
    requires n <= |lines| <= |sent| && Paired(lines[..n], sent, ops, answers, all) && written <= all
    ensures Paired(lines, sent, ops, answers, written)
  {
    forall i | 0 <= i < |written|
      ensures Pairs(lines, sent, ops, answers, i, written[i])
    {
      assert Pairs(lines[..n], sent, ops, answers, i, all[i]);
      assert lines[..n][..i] == lines[..i];
    }
  }

  /** A connection that reads the lines of a client. */
  lemma WrittenIsPaired(conn: Conn, ops: seq<Op>, answers: seq<Answer>, sent: seq<Request>, cut: bool)
    requires Speaks(conn, ops, answers) && AllFramed(conn.consumed, sent, cut)
    ensures Paired(conn.consumed, sent, ops, answers, conn.written)
  {
    var lines, n := conn.consumed, |conn.consumed|;
    match conn.phase
    case Reading => ServesPairs(lines, sent, ops, answers, conn.written, cut);
    case Replying(envelope, _) =>
      ServesPairs(lines, sent, ops, answers, conn.written + [envelope], cut);
      assert lines[..n] == lines;
      PairedPrefix(lines, n, sent, ops, answers, conn.written + [envelope], conn.written);
    case _ =>
      ServesPairs(lines[..n - 1], sent, ops, answers, conn.written, cut);
      PairedPrefix(lines, n - 1, sent, ops, answers, conn.written, conn.written);
  }

  /** At most one response line is ever on its way, so the buffer that a call discards is empty. */
  lemma OneLineInFlight(w: World, c: ConnId)
    requires WorldInv(w, c) && c in w.sys.conns
    ensures var conn := w.sys.conns[c]; var sys := w.sys;
      && |w.client.received| <= |conn.written| <= |w.client.sent| <= |w.client.received| + 1
      && Paired(conn.consumed, w.client.sent, Of(sys.entries, sys.run.ops, c), Of(sys.entries, sys.run.answers, c),
                conn.written)
  {
    assert ConnSpeaks(w.sys, c);
    WrittenIsPaired(w.sys.conns[c], Of(w.sys.entries, w.sys.run.ops, c), Of(w.sys.entries, w.sys.run.answers, c),
                    w.client.sent, w.client.use.Broken?);
  }

  lemma BeginInStep(w: World, c: ConnId, request: Request)
    requires InStep(w, c) && w.client.use.Free?
    ensures InStep(w.(client := Begin(w.client, request)), c)
  {
  }

  lemma FinishInStep(w: World, c: ConnId, lines: nat)
    requires WorldInv(w, c) && May(w, c, Finishes(lines))
    ensures InStep(Then(w, c, Finishes(lines)), c)
  {
    OneLineInFlight(w, c);
    OneLineTaken(w, c, lines);
  }

  lemma OneLineTaken(w: World, c: ConnId, lines: nat)
    requires InStep(w, c) && w.client.use.InCall? && c in w.sys.conns && lines > 0
    requires |w.client.received| + lines <= |w.sys.conns[c].written| <= |w.client.received| + 1
    ensures InStep(w.(client := Finish(w.client, Incoming(w, c)[..lines])), c)
  {
    assert Incoming(w, c)[..lines] == [w.sys.conns[c].written[|w.client.received|]];
  }

  lemma DaemonStepInStep(w: World, c: ConnId, e: Event)
    requires InStep(w, c) && May(w, c, Daemon(e))
    ensures InStep(Then(w, c, Daemon(e)), c)
  {
  }

  lemma ThenKeepsInv(w: World, c: ConnId, h: Happening)
    requires WorldInv(w, c) && May(w, c, h)
    ensures WorldInv(Then(w, c, h), c)
  {
    match h
    case Daemon(e) =>
      NextKeepsInv(w.sys, e);
      DaemonStepInStep(w, c, e);
    case Begins(request) => BeginInStep(w, c, request);
    case Finishes(lines) => FinishInStep(w, c, lines);
    case Breaks =>
  }

  // ----- histories -----

  datatype History = History(worlds: seq<World>, happenings: seq<Happening>)

  ghost predicate Occurs(x: History, c: ConnId, i: nat)
    requires |x.worlds| == |x.happenings| + 1
  {
    i < |x.happenings| ==> May(x.worlds[i], c, x.happenings[i]) && x.worlds[i + 1] == Then(x.worlds[i], c, x.happenings[i])
  }

  /** A daemon that starts, and a client that will be its connection `c`, among any others. */
  ghost predicate IsHistory(x: History, c: ConnId) {
    && |x.worlds| == |x.happenings| + 1
    && (exists clock :: x.worlds[0] == World(Boot(clock), Handle(Free, [], [], [], [])))
    && forall i: nat :: Occurs(x, c, i)
  }

  lemma {:induction false} HistoryInv(x: History, c: ConnId, n: nat)
    requires IsHistory(x, c) && n <= |x.happenings|
    ensures WorldInv(x.worlds[n], c)
  {
    if n > 0 {
      HistoryInv(x, c, n - 1);
      assert Occurs(x, c, n - 1);
      ThenKeepsInv(x.worlds[n - 1], c, x.happenings[n - 1]);
    }
  }

  /** Pairing: however its calls interleave with other connections, the `i`-th response line the client takes is
      the response to the `i`-th line it sent. Unless that line was too long, it carries the answer of the
      step of its own connection that ran that very request, each call having its own step in order; if it was,
      it is an error under id 0; what answers a line cut short is never taken. No response line is ever lost in a discarded buffer. */
  lemma ResponsesPair(x: History, c: ConnId, n: nat, i: nat) returns (k: nat)
    requires IsHistory(x, c) && n <= |x.happenings| && i < |x.worlds[n].client.received|
    ensures var w := x.worlds[n]; var run := w.sys.run;
      && w.client.dropped == [] && c in w.sys.conns && |w.sys.entries| == |run.ops| == |run.answers|
      && i < |w.sys.conns[c].consumed| <= |w.client.sent| && !w.sys.conns[c].consumed[i].Malformed?
      && Pairs(w.sys.conns[c].consumed, w.client.sent, Of(w.sys.entries, run.ops, c), Of(w.sys.entries, run.answers, c),
               i, w.client.received[i])
    ensures var w := x.worlds[n]; var run := w.sys.run;
      if w.sys.conns[c].consumed[i].Oversize? then w.client.received[i] == Envelope(Number(0), Failed(InvalidParams))
      else
        && k < |w.sys.entries| && w.sys.entries[k].conn == c
        && run.ops[k].request == w.client.sent[i] && w.client.received[i] == Envelope(Number(1), run.answers[k])
  {
    HistoryInv(x, c, n);
    var w := x.worlds[n];
    OneLineInFlight(w, c);
    var lines := w.sys.conns[c].consumed;
    assert w.client.received[i] == w.sys.conns[c].written[i];
    assert Framed(lines[i], w.client.sent[i], w.client.use.Broken? && i == |w.client.sent| - 1);
    if lines[i].Oversize? {
      k := 0;
    } else {
      k := OfAt(w.sys.entries, w.sys.run.ops, w.sys.run.answers, c, Calls(lines[..i]));
    }
  }

  /** What the caller gets: the `i`-th call that returns succeeds with exactly what the step that ran its
      request answered, unless that was a failure; a failure, or a line that was too long, is an error. */
  lemma CallReturns(x: History, c: ConnId, n: nat, i: nat) returns (k: nat)
    requires IsHistory(x, c) && n <= |x.happenings| && i < |x.worlds[n].client.results|
    ensures var w := x.worlds[n];
      c in w.sys.conns && i < |w.sys.conns[c].consumed| && i < |w.client.sent|
    ensures x.worlds[n].sys.conns[c].consumed[i].Oversize? ==> x.worlds[n].client.results[i] == DaemonError
    ensures var w := x.worlds[n]; var run := w.sys.run; var result := w.client.results[i];
      !w.sys.conns[c].consumed[i].Oversize? ==>
        && k < |run.ops| == |run.answers| == |w.sys.entries| && w.sys.entries[k].conn == c
        && run.ops[k].request == w.client.sent[i]
        && (forall a :: result == Success(a) <==> run.answers[k] == a && !a.Failed?)
        && (result == DaemonError <==> run.answers[k].Failed?)
  {
    HistoryInv(x, c, n);
    k := ResponsesPair(x, c, n, i);
  }

  /** So the id of a response differs from that of its request exactly for lines that were too long. */
  lemma ResponseIdIff(x: History, c: ConnId, n: nat, i: nat)
    requires IsHistory(x, c) && n <= |x.happenings| && i < |x.worlds[n].client.received|
    ensures c in x.worlds[n].sys.conns && i < |x.worlds[n].sys.conns[c].consumed| && x.worlds[n].client.received[i].Envelope?
    ensures x.worlds[n].client.received[i].id == Number(1) <==> !x.worlds[n].sys.conns[c].consumed[i].Oversize?
  {
    var k := ResponsesPair(x, c, n, i);
  }
}
