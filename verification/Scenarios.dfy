/** Building concrete behaviours, to show what can happen. */
module Scenarios {
  import opened Protocol
  import opened Steps
  import opened Runs
  import opened Listener
  import opened Concurrency

  /** The end of a behaviour. */
  function End(b: Behaviour): System
    requires |b.systems| > 0
  {
    b.systems[|b.systems| - 1]
  }

  function Extended(b: Behaviour, next: System, e: Event): (t: Behaviour)
    ensures |t.systems| > 0 && End(t) == next
  {
    Behaviour(b.systems + [next], b.events + [e])
  }

  lemma ExtendBehaviour(b: Behaviour, e: Event)
    requires IsBehaviour(b)
    requires Guard(End(b), e) && Honest(End(b), e)
    ensures IsBehaviour(Extended(b, Next(End(b), e), e))
  {
    var t := Extended(b, Next(End(b), e), e);
    assert t.systems[0] == b.systems[0];
    forall i: nat
      ensures Happens(t, i)
    {
      assert Happens(b, i);
    }
  }

  /** Behaviour `t` continues behaviour `b`. */
  predicate Continues(t: Behaviour, b: Behaviour) {
    b.systems <= t.systems && b.events <= t.events
  }

  /** Extend a behaviour by an event that is not a lock section. */
  lemma Then(b: Behaviour, e: Event) returns (t: Behaviour)
    requires IsBehaviour(b) && Guard(End(b), e) && !e.Apply?
    ensures IsBehaviour(t) && End(t) == Next(End(b), e)
    ensures t == Extended(b, End(t), e)
  {
    ExtendBehaviour(b, e);
    t := Extended(b, Next(End(b), e), e);
  }

  /** Extend a behaviour by a lock section. */
  lemma ThenApply(b: Behaviour, c: ConnId, newId: Id) returns (t: Behaviour, e: Event)
    requires IsBehaviour(b) && |End(b).run.states| > 0
    requires c in End(b).conns && End(b).conns[c].open && ReadyToLock(End(b).conns[c].phase)
    requires newId !in Last(End(b).run).minted
    ensures e == Apply(c, newId, Step(Last(End(b).run), OpOf(End(b), c, newId)))
    ensures IsBehaviour(t) && Guard(End(b), e) && End(t) == Next(End(b), e) && t == Extended(b, End(t), e)
    ensures |End(t).run.states| > 0 && Last(End(t).run) == e.out.state
  {
    e := Apply(c, newId, Step(Last(End(b).run), OpOf(End(b), c, newId)));
    ExtendBehaviour(b, e);
    t := Extended(b, Next(End(b), e), e);
  }

  /** Connection `c` reads a line with `request`, up to where it is ready for the lock. */
  lemma ThenEnter(b: Behaviour, c: ConnId, request: Request) returns (t: Behaviour)
    requires IsBehaviour(b) && |End(b).run.states| > 0
    requires c in End(b).conns && End(b).conns[c].open && End(b).conns[c].phase.Reading?
    requires !Panics(request, End(b).clock)
    ensures IsBehaviour(t) && Continues(t, b) && End(t).run == End(b).run && End(t).clock == End(b).clock
    ensures End(t).entries == End(b).entries && End(t).answeredAt == End(b).answeredAt
    ensures End(t).conns.Keys == End(b).conns.Keys && End(t).accepting == End(b).accepting
    ensures forall d :: d in End(b).conns && d != c ==> End(t).conns[d] == End(b).conns[d]
    ensures End(t).conns[c].open && ReadyToLock(End(t).conns[c].phase) && End(t).conns[c].phase.request == request
    ensures End(t).conns[c].phase.Clocked? ==> End(t).conns[c].phase.now == End(b).clock
  {
    t := Then(b, Arrive(c, Call(Number(1), request)));
    if SamplesFirst(request) {
      t := Then(t, ReadClock(c));
    }
  }

  /** Connection `c` serves `request` to the end, without any other event in between. */
  lemma ThenServe(b: Behaviour, c: ConnId, request: Request, newId: Id) returns (t: Behaviour)
    requires IsBehaviour(b) && |End(b).run.states| > 0
    requires c in End(b).conns && End(b).conns[c].open && End(b).conns[c].phase.Reading?
    requires !Panics(request, End(b).clock) && newId !in Last(End(b).run).minted
    ensures IsBehaviour(t) && Continues(t, b) && End(t).run == Extend(End(b).run, Op(request, End(b).clock, newId))
    ensures End(t).clock == End(b).clock && End(t).accepting == End(b).accepting
    ensures |End(t).entries| == |End(b).entries| + 1 && End(t).conns.Keys == End(b).conns.Keys
    ensures forall d :: d in End(b).conns && d != c ==> End(t).conns[d] == End(b).conns[d]
    ensures End(t).conns[c].open && End(t).conns[c].phase.Reading?
  {
    t := ThenEnter(b, c, request);
    var e;
    t, e := ThenApply(t, c, newId);
    t := Then(t, Event.Write(c));
  }

  /** A behaviour after which connection 0 is reading again and session `id` is registered, at clock 0. */
  lemma Registered0(id: Id) returns (b: Behaviour)
    ensures IsBehaviour(b) && End(b).clock == 0 && End(b).accepting
    ensures End(b).conns.Keys == {0} && End(b).conns[0].open && End(b).conns[0].phase.Reading?
    ensures |End(b).run.states| == 2 && |End(b).entries| == 1
    ensures Last(End(b).run).minted == {id} && Last(End(b).run).sessions.Keys == {id} && 8 !in Last(End(b).run).byPid
    ensures Last(End(b).run).inbox == map[] && Last(End(b).run).reservations == map[]
  {
    b := Behaviour([Boot(0)], []);
    assert b.systems[0] == Boot(0);
    b := Then(b, Accept(0));
    FirstRegistration(Op(Register(Some(7), Forge, "/", []), 0, id));
    b := ThenServe(b, 0, Register(Some(7), Forge, "/", []), id);
  }

  lemma FirstRegistration(op: Op)
    requires op.request.Register? && op.request.pid.Some?
    ensures var out := Step(Initial(), op); var t := out.state;
      && t.minted == {op.newId} && t.sessions.Keys == {op.newId} && t.byPid.Keys == {op.request.pid.value % 0x1_0000_0000}
      && t.inbox == map[] && t.reservations == map[]
  {
  }
}
