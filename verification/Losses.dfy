/** Which messages reach somebody: a message is marked read by the step that returns it, but a response may be
    lost with its connection. */
module Losses {
  import opened Protocol
  import opened Steps
  import opened Mailboxes
  import opened Invariants
  import opened Runs
  import opened Deliveries
  import opened Concurrency
  import opened Interleavings
  import opened Scenarios

  ghost predicate Carries(answer: Answer, id: Id) {
    || (answer.OneMessage? && answer.message.messageId == id)
    || (answer.Messages? && exists x :: 0 <= x < |answer.messages| && answer.messages[x].messageId == id)
  }

  /** There is a message at position `p` of mailbox `k` before step `n`. */
  ghost predicate Present(run: Run, n: nat, k: Id, p: nat)
    requires Shaped(run) && n <= |run.ops|
  {
    p < |Mailbox(run.states[n], k)|
  }

  ghost function At(run: Run, n: nat, k: Id, p: nat): InboxMessage
    requires Shaped(run) && n <= |run.ops| && Present(run, n, k, p)
  {
    Mailbox(run.states[n], k)[p]
  }

  /** Step `m` marks the message at position `p` of mailbox `k`. */
  ghost predicate Marks(run: Run, m: nat, k: Id, p: nat)
    requires Shaped(run) && m < |run.ops|
  {
    && Present(run, m, k, p) && !At(run, m, k, p).read
    && Present(run, m + 1, k, p) && At(run, m + 1, k, p).read
  }

  /** A request for the message at position `p` of mailbox `k` whether or not it is read: by its identifier, or
      by a plain list of the mailbox whose limit reaches it. */
  predicate AsksFor(request: Request, k: Id, p: nat, id: Id) {
    || request == InboxRead(Some(id))
    || (request.InboxList? && request.sessionId == Some(k) && !request.unreadOnly
        && (LimitOf(request.limit) == 0 || p < LimitOf(request.limit)))
  }

  // ----- one step -----

  lemma {:induction false} AllMatchPlain(messages: seq<InboxMessage>)
    ensures Matching(messages, false) == |messages|
  {
    if messages != [] {
      AllMatchPlain(messages[..|messages| - 1]);
    }
  }

  lemma IdsHold(messages: seq<InboxMessage>, id: Id)
    ensures id in IdsOf(messages) <==> exists x :: 0 <= x < |messages| && messages[x].messageId == id
  {
    if x :| 0 <= x < |messages| && messages[x].messageId == id {
      assert IdsOf(messages)[x] == id;
    }
  }

  /** A scan returns the message at `p` exactly when it takes that position. */
  lemma ScanCarriesIff(box: seq<InboxMessage>, unreadOnly: bool, limit: U64, p: nat)
    requires DistinctIds(box) && p < |box|
    ensures var d := Deliver(box, unreadOnly, Budget(limit, |box|));
      && (Carries(Messages(d.delivered), box[p].messageId) <==>
            !(unreadOnly && box[p].read) && (limit == 0 || Matching(box[..p], unreadOnly) < limit))
      && (!box[p].read && d.mailbox[p].read ==> Carries(Messages(d.delivered), box[p].messageId))
      && (!unreadOnly ==> (Carries(Messages(d.delivered), box[p].messageId) <==> limit == 0 || p < limit))
  {
    var budget := Budget(limit, |box|);
    var d := Deliver(box, unreadOnly, budget);
    IdsHold(d.delivered, box[p].messageId);
    IdsPickTaken(box, unreadOnly, budget, p);
    DeliverNextMarks(box, unreadOnly, budget, p);
    TakenIffAmongFirst(box, unreadOnly, limit, p);
    AllMatchPlain(box[..p]);
  }

  /** A message is at one place. */
  lemma OnePlace(run: Run, n: nat, k: Id, p: nat, l: Id, q: nat)
    requires IsRun(run) && n <= |run.ops| && Present(run, n, k, p) && Present(run, n, l, q)
    requires At(run, n, k, p).messageId == At(run, n, l, q).messageId
    ensures k == l && p == q
  {
    RunInv(run, n);
    var id := At(run, n, k, p).messageId;
    assert HeldAt(run.states[n].inbox, k, p, id) && HeldAt(run.states[n].inbox, l, q, id);
  }

  /** Only lists and reads return messages. */
  lemma CarriersAsk(s: State, op: Op, id: Id)
    requires Carries(Step(s, op).answer, id)
    ensures op.request.InboxRead? || op.request.InboxList?
  {
  }

  lemma ReadOneAnswers(s: State, op: Op, id: Id)
    requires op.request.InboxRead? && Carries(Step(s, op).answer, id)
    ensures op.request == InboxRead(Some(id))
  {
  }

  /** A message that a step returns was in some mailbox before, and is read there afterwards. */
  lemma CarriedFrom(run: Run, n: nat, id: Id) returns (k: Id, p: nat)
    requires IsRun(run) && n < |run.ops| && Carries(run.answers[n], id)
    ensures Present(run, n, k, p) && Present(run, n + 1, k, p)
    ensures At(run, n, k, p).messageId == At(run, n + 1, k, p).messageId == id && At(run, n + 1, k, p).read
    ensures ListsOf(run, n, k) || run.ops[n].request == InboxRead(Some(id))
  {
    assert Stepped(run, n);
    CarriersAsk(run.states[n], run.ops[n], id);
    if run.ops[n].request.InboxList? {
      var x: nat :| x < |run.answers[n].messages| && run.answers[n].messages[x].messageId == id;
      k, p := DeliveredAt(run, n, x);
    } else {
      k, p := ReadFrom(run, n, id);
    }
  }

  lemma ReadFrom(run: Run, n: nat, id: Id) returns (k: Id, p: nat)
    requires IsRun(run) && n < |run.ops| && run.ops[n].request.InboxRead? && Carries(run.answers[n], id)
    ensures run.ops[n].request == InboxRead(Some(id))
    ensures Present(run, n, k, p) && Present(run, n + 1, k, p)
    ensures At(run, n, k, p).messageId == At(run, n + 1, k, p).messageId == id && At(run, n + 1, k, p).read
  {
    assert Stepped(run, n);
    var s := run.states[n];
    RunInv(run, n);
    ReadOneAnswers(s, run.ops[n], id);
    InboxReadIsExact(s, run.ops[n], id);
    k, p :| HeldAt(s.inbox, k, p, id);
  }

  /** What a list of a mailbox, or a read, returns of a message that is there. */
  lemma ListCarriesIff(run: Run, n: nat, k: Id, p: nat)
    requires IsRun(run) && n < |run.ops| && ListsOf(run, n, k) && Present(run, n, k, p)
    ensures Present(run, n + 1, k, p)
    ensures var request := run.ops[n].request; var carries := Carries(run.answers[n], At(run, n, k, p).messageId);
      && (!At(run, n, k, p).read && At(run, n + 1, k, p).read ==> carries)
      && (request.unreadOnly && At(run, n, k, p).read ==> !carries)
      && (!request.unreadOnly ==> (carries <==> LimitOf(request.limit) == 0 || p < LimitOf(request.limit)))
  {
    MailboxStep(run, n, k);
    RunInv(run, n);
    MailboxDistinct(run.states[n], k);
    ScanCarriesIff(Mailbox(run.states[n], k), run.ops[n].request.unreadOnly, LimitOf(run.ops[n].request.limit), p);
  }

  lemma ReadCarries(run: Run, n: nat, k: Id, p: nat)
    requires IsRun(run) && n < |run.ops| && Present(run, n, k, p)
    requires run.ops[n].request == InboxRead(Some(At(run, n, k, p).messageId))
    ensures Carries(run.answers[n], At(run, n, k, p).messageId)
  {
    var id := At(run, n, k, p).messageId;
    RunInv(run, n);
    assert Stepped(run, n);
    InboxReadIsExact(run.states[n], run.ops[n], id);
    assert HeldAt(run.states[n].inbox, k, p, id);
  }

  /** Of a message that is read already, a step returns it exactly when it asks for it read or not. */
  lemma ReadMessageCarriesIff(run: Run, n: nat, k: Id, p: nat)
    requires IsRun(run) && n < |run.ops| && Present(run, n, k, p) && At(run, n, k, p).read
    ensures Carries(run.answers[n], At(run, n, k, p).messageId)
      <==> AsksFor(run.ops[n].request, k, p, At(run, n, k, p).messageId)
  {
    var id := At(run, n, k, p).messageId;
    if ListsOf(run, n, k) {
      ListCarriesIff(run, n, k, p);
    } else if run.ops[n].request == InboxRead(Some(id)) {
      ReadCarries(run, n, k, p);
    } else if Carries(run.answers[n], id) {
      var l, q := CarriedFrom(run, n, id);
      OnePlace(run, n, k, p, l, q);
    }
  }

  /** The step that marks a message returns it. */
  lemma MarkerCarries(run: Run, m: nat, k: Id, p: nat)
    requires IsRun(run) && m < |run.ops| && Marks(run, m, k, p)
    ensures Carries(run.answers[m], At(run, m, k, p).messageId)
  {
    MailboxStep(run, m, k);
    if ListsOf(run, m, k) {
      ListCarriesIff(run, m, k, p);
    } else if run.ops[m].request.InboxRead? {
      MarkedByRead(run, m, k, p);
      ReadCarries(run, m, k, p);
    }
  }

  lemma MarkedByRead(run: Run, m: nat, k: Id, p: nat)
    requires IsRun(run) && m < |run.ops| && Marks(run, m, k, p) && run.ops[m].request.InboxRead?
    ensures run.ops[m].request == InboxRead(Some(At(run, m, k, p).messageId))
  {
    RunInv(run, m);
    assert Stepped(run, m);
    var s, id := run.states[m], run.ops[m].request.messageId;
    if id.Some? {
      InboxReadIsExact(s, run.ops[m], id.value);
      if l, q :| HeldAt(s.inbox, l, q, id.value) {
        assert run.states[m + 1].inbox == s.inbox[l := s.inbox[l][q := Marked(s.inbox[l][q])]];
      }
    }
  }

  // ----- whole runs -----

  /** While a message is unread no step has returned it. */
  lemma UnreadNeverCarried(run: Run, n: nat, m: nat, k: Id, p: nat)
    requires IsRun(run) && n < m <= |run.ops| && Present(run, m, k, p) && !At(run, m, k, p).read
    ensures !Carries(run.answers[n], At(run, m, k, p).messageId)
  {
    var id := At(run, m, k, p).messageId;
    if Carries(run.answers[n], id) {
      var l, q := CarriedFrom(run, n, id);
      ReadFlagsStick(run, l, n + 1, m);
      OnePlace(run, m, k, p, l, q);
    }
  }

  lemma StaysRead(run: Run, m: nat, n: nat, k: Id, p: nat)
    requires IsRun(run) && m < n <= |run.ops| && Marks(run, m, k, p)
    ensures Present(run, n, k, p) && At(run, n, k, p).read && At(run, n, k, p).messageId == At(run, m, k, p).messageId
  {
    ReadFlagsStick(run, k, m, m + 1);
    ReadFlagsStick(run, k, m + 1, n);
  }

  /** Every message that is read was marked by one step. */
  lemma {:induction false} ReadWasMarked(run: Run, n: nat, k: Id, p: nat) returns (m: nat)
    requires IsRun(run) && n <= |run.ops| && Present(run, n, k, p) && At(run, n, k, p).read
    ensures m < n && Marks(run, m, k, p)
  {
    MailboxStep(run, n - 1, k);
    if Present(run, n - 1, k, p) && At(run, n - 1, k, p).read {
      m := ReadWasMarked(run, n - 1, k, p);
    } else {
      m := n - 1;
    }
  }

  /** Which steps of a run return a message that step `m` marks: not an earlier one, step `m` itself, and
      exactly those later ones that ask for it read or not. */
  lemma CarriesIff(run: Run, m: nat, n: nat, k: Id, p: nat)
    requires IsRun(run) && m < |run.ops| && n < |run.ops| && Marks(run, m, k, p)
    ensures Carries(run.answers[n], At(run, m, k, p).messageId)
      <==> n == m || (m < n && AsksFor(run.ops[n].request, k, p, At(run, m, k, p).messageId))
  {
    if n < m {
      UnreadNeverCarried(run, n, m, k, p);
    } else if n == m {
      MarkerCarries(run, m, k, p);
    } else {
      StaysRead(run, m, n, k, p);
      ReadMessageCarriesIff(run, n, k, p);
    }
  }

  // ----- interleavings -----

  ghost function Carrying(id: Id): (p: Answer -> bool)
    ensures forall answer :: p(answer) <==> Carries(answer, id)
  {
    answer => Carries(answer, id)
  }

  /** A response with the message was written to some connection. */
  ghost predicate Received(sys: System, id: Id) {
    Written(sys, Carrying(id))
  }

  /** A message was received exactly if a step that returned it was answered. */
  lemma ReceivedIff(sys: System, id: Id)
    requires Reachable(sys)
    ensures Received(sys, id) <==>
      exists n: nat :: n < |sys.run.answers| && n in sys.answeredAt && Carries(sys.run.answers[n], id)
  {
    WrittenIff(sys, Carrying(id));
  }

  /** A marked message was received exactly if the step that marked it was answered, or a later one that asked
      for it read or not was. */
  lemma MarkedReceivedIff(sys: System, m: nat, k: Id, p: nat)
    requires Reachable(sys) && m < |sys.run.ops| && Marks(sys.run, m, k, p)
    ensures var id := At(sys.run, m, k, p).messageId;
      Received(sys, id) <==>
        || m in sys.answeredAt
        || exists n: nat :: m < n < |sys.run.ops| && n in sys.answeredAt && AsksFor(sys.run.ops[n].request, k, p, id)
  {
    ReachableInv(sys);
    var id := At(sys.run, m, k, p).messageId;
    ReceivedIff(sys, id);
    forall n: nat | n < |sys.run.ops|
      ensures Carries(sys.run.answers[n], id) <==> n == m || (m < n && AsksFor(sys.run.ops[n].request, k, p, id))
    {
      CarriesIff(sys.run, m, n, k, p);
    }
  }

  /** A message that is still unread was not received. */
  lemma UnreadNotReceived(sys: System, k: Id, p: nat)
    requires Reachable(sys) && Present(sys.run, |sys.run.ops|, k, p) && !At(sys.run, |sys.run.ops|, k, p).read
    ensures !Received(sys, At(sys.run, |sys.run.ops|, k, p).messageId)
  {
    ReachableInv(sys);
    var id := At(sys.run, |sys.run.ops|, k, p).messageId;
    ReceivedIff(sys, id);
    forall n: nat | n < |sys.run.ops|
      ensures !Carries(sys.run.answers[n], id)
    {
      UnreadNeverCarried(sys.run, n, |sys.run.ops|, k, p);
    }
  }

  /** Agents that only list unread messages and never read by identifier miss a marked message exactly if the
      list that marked it went unanswered. */
  lemma OnlyUnreadListsLose(sys: System, m: nat, k: Id, p: nat)
    requires Reachable(sys) && m < |sys.run.ops| && Marks(sys.run, m, k, p)
    requires forall op :: op in sys.run.ops ==> !op.request.InboxRead? && (op.request.InboxList? ==> op.request.unreadOnly)
    ensures Received(sys, At(sys.run, m, k, p).messageId) <==> m in sys.answeredAt
  {
    MarkedReceivedIff(sys, m, k, p);
    forall n: nat | m < n < |sys.run.ops|
      ensures !AsksFor(sys.run.ops[n].request, k, p, At(sys.run, m, k, p).messageId)
    {
      assert sys.run.ops[n] in sys.run.ops;
    }
  }

  // ----- a lost response -----

  lemma PostToNobodyYet(s: State, op: Op, id: Id, k: Id)
    requires op.request == Post(Some(id), Some(k), "", "", Absent) && id in s.sessions && s.inbox == map[]
    ensures var out := Step(s, op); var m := InboxMessage(op.newId, id, k, "", "", Normal, op.now, false);
      && out.answer == Posted(op.newId) && out.state.inbox == map[k := [m]] && out.state.minted == s.minted + {op.newId}
  {
    var m := InboxMessage(op.newId, id, k, "", "", Normal, op.now, false);
    assert Mailbox(s, k) + [m] == [m];
    assert s.inbox[k := [m]] == map[k := [m]];
  }

  lemma ListOne(s: State, op: Op, k: Id, m: InboxMessage)
    requires op.request == InboxList(Some(k), true, None) && s.inbox == map[k := [m]] && !m.read
    ensures Step(s, op).state.inbox == map[k := [Marked(m)]] && Step(s, op).answer == Messages([Marked(m)])
  {
    var box := [m];
    assert box[..|box| - 1] == [];
    assert Deliver(box, true, 50) == Delivery([Marked(m)], [Marked(m)]);
  }

  /** Connection 0 posted a message to `k` as session `id`. */
  lemma Posted0(id: Id, k: Id, messageId: Id) returns (b: Behaviour, m: InboxMessage)
    requires id != messageId
    ensures IsBehaviour(b) && |End(b).run.states| == 3
    ensures End(b).conns.Keys == {0} && End(b).conns[0].open && End(b).conns[0].phase.Reading?
    ensures Last(End(b).run).minted == {id, messageId} && Last(End(b).run).inbox == map[k := [m]] && !m.read
  {
    b := Registered0(id);
    var request := Post(Some(id), Some(k), "", "", Absent);
    PostToNobodyYet(Last(End(b).run), Op(request, End(b).clock, messageId), id, k);
    m := InboxMessage(messageId, id, k, "", "", Normal, End(b).clock, false);
    b := ThenServe(b, 0, request, messageId);
  }

  /** It happens: a connection that is dropped after its unread list was applied leaves a message marked that
      nobody received. */
  lemma ListCanBeLost() returns (sys: System, m: nat, k: Id, p: nat)
    ensures Reachable(sys) && Lost(sys, m) && m < |sys.run.ops|
    ensures sys.run.ops[m].request == InboxList(Some(k), true, None) && Marks(sys.run, m, k, p)
    ensures !Received(sys, At(sys.run, m, k, p).messageId)
  {
    k, m, p := "sess_b", 2, 0;
    var b := ListThenDrop("sess_a", k, "msg_a", "x");
    sys := End(b);
    assert Visits(b, |b.events|, sys);
    MarkedReceivedIff(sys, m, k, p);
  }

  /** After a step was applied for a connection that is then dropped. */
  lemma DropAfterApply(sys: System, e: Event)
    requires |sys.entries| == |sys.run.ops| && |sys.run.answers| == |sys.run.ops| && |sys.run.ops| !in sys.answeredAt
    requires Guard(sys, e) && e.Apply?
    ensures var t := Next(Next(sys, e), Drop(e.c)); var n := |sys.run.ops|;
      && Lost(t, n) && |t.entries| == n + 1 && t.answeredAt == sys.answeredAt
      && t.run == Run(sys.run.states + [e.out.state], sys.run.ops + [OpOf(sys, e.c, e.newId)], sys.run.answers + [e.out.answer])
  {
  }

  lemma NotYetAnswered(b: Behaviour)
    requires IsBehaviour(b)
    ensures var sys := End(b);
      Shaped(sys.run) && |sys.entries| == |sys.run.ops| && |sys.run.ops| !in sys.answeredAt
  {
    BehaviourInv(b, |b.events|);
  }

  lemma ListMarks(run: Run, op: Op, k: Id, m: InboxMessage)
    requires Shaped(run) && |run.ops| == 2 && Last(run).inbox == map[k := [m]] && !m.read
    requires op.request == InboxList(Some(k), true, None)
    ensures Shaped(Extend(run, op)) && Marks(Extend(run, op), 2, k, 0)
  {
    ListOne(Last(run), op, k, m);
    assert At(Extend(run, op), 2, k, 0) == m && At(Extend(run, op), 3, k, 0) == Marked(m);
  }

  lemma ListThenDrop(id: Id, k: Id, messageId: Id, other: Id) returns (b: Behaviour)
    requires id != messageId && other != id && other != messageId
    ensures IsBehaviour(b) && Lost(End(b), 2) && Shaped(End(b).run) && |End(b).run.ops| == 3
    ensures End(b).run.ops[2].request == InboxList(Some(k), true, None) && Marks(End(b).run, 2, k, 0)
  {
    var posted, e;
    b, posted := Posted0(id, k, messageId);
    b := ThenEnter(b, 0, InboxList(Some(k), true, None));
    var sys := End(b);
    NotYetAnswered(b);
    b, e := ThenApply(b, 0, other);
    DropAfterApply(sys, e);
    b := Then(b, Drop(0));
    ListMarks(sys.run, OpOf(sys, 0, other), k, posted);
    assert End(b).run == Extend(sys.run, OpOf(sys, 0, other));
  }
}
