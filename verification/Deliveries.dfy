/** Mailboxes over whole runs: conservation, order, and delivery at most or exactly once. */
module Deliveries {
  import opened Protocol
  import opened Steps
  import opened Mailboxes
  import opened Invariants
  import opened Runs

  /** Step `n` posted a message to mailbox `k`. */
  ghost predicate PostsTo(run: Run, n: nat, k: Id)
    requires Shaped(run) && n < |run.ops|
  {
    run.answers[n].Posted? && WellFormedPost(run.ops[n].request) && run.ops[n].request.toSession.value == k
  }

  /** Step `n` lists mailbox `k`. */
  ghost predicate ListsOf(run: Run, n: nat, k: Id)
    requires Shaped(run) && n < |run.ops|
  {
    run.ops[n].request.InboxList? && run.ops[n].request.sessionId == Some(k)
  }

  /** The messages posted to `k` by the first `n` steps, in order, as they were posted. */
  ghost function PostedTo(run: Run, k: Id, n: nat): seq<InboxMessage>
    requires Shaped(run) && n <= |run.ops|
  {
    if n == 0 then []
    else if PostsTo(run, n - 1, k) then
      PostedTo(run, k, n - 1) + [NewMessage(run.ops[n - 1].request, run.ops[n - 1].now, run.ops[n - 1].newId)]
    else PostedTo(run, k, n - 1)
  }

  /** The results of the lists of `k` among the first `n` steps, one after the other. */
  ghost function Delivered(run: Run, k: Id, n: nat): seq<InboxMessage>
    requires Shaped(run) && n <= |run.ops|
  {
    if n == 0 then []
    else if ListsOf(run, n - 1, k) && run.answers[n - 1].Messages? then
      Delivered(run, k, n - 1) + run.answers[n - 1].messages
    else Delivered(run, k, n - 1)
  }

  // ----- one step -----

  lemma InboxFrame(s: State, op: Op)
    requires !op.request.Post? && !op.request.InboxList? && !op.request.InboxRead?
    ensures Step(s, op).state.inbox == s.inbox
    ensures !Step(s, op).answer.Posted? && !Step(s, op).answer.Messages?
  {
  }

  ghost predicate Lists(run: Run, n: nat, k: Id)
    requires Shaped(run) && n < |run.ops| && ListsOf(run, n, k)
  {
    var box := Mailbox(run.states[n], k);
    var request := run.ops[n].request;
    var d := Deliver(box, request.unreadOnly, Budget(LimitOf(request.limit), |box|));
    run.answers[n] == Messages(d.delivered) && Mailbox(run.states[n + 1], k) == d.mailbox
  }

  /** All a step can do to a mailbox: append the message it posts, scan it, or mark one message. */
  lemma MailboxStep(run: Run, n: nat, k: Id)
    requires IsRun(run) && n < |run.ops|
    ensures PostsTo(run, n, k) ==>
      Mailbox(run.states[n + 1], k)
        == Mailbox(run.states[n], k) + [NewMessage(run.ops[n].request, run.ops[n].now, run.ops[n].newId)]
    ensures ListsOf(run, n, k) ==> Lists(run, n, k)
    ensures !PostsTo(run, n, k) && !ListsOf(run, n, k) && !run.ops[n].request.InboxRead? ==>
      Mailbox(run.states[n + 1], k) == Mailbox(run.states[n], k)
    ensures !PostsTo(run, n, k) ==> |Mailbox(run.states[n + 1], k)| == |Mailbox(run.states[n], k)|
    ensures Grows(Mailbox(run.states[n], k), Mailbox(run.states[n + 1], k))
  {
    RunInv(run, n);
    assert Stepped(run, n);
    var s, op := run.states[n], run.ops[n];
    match op.request
    case Post(_, _, _, _, _) =>
    case InboxList(id, unreadOnly, limit) =>
      if id.Some? {
        var box := Mailbox(s, id.value);
        DeliverMarksOnly(box, unreadOnly, Budget(LimitOf(limit), |box|));
      }
    case InboxRead(id) =>
      if id.Some? {
        InboxReadIsExact(s, op, id.value);
        assert forall k, i :: HeldAt(s.inbox, k, i, id.value) ==>
          run.states[n + 1].inbox == s.inbox[k := s.inbox[k][i := Marked(s.inbox[k][i])]];
      }
    case _ => InboxFrame(s, op);
  }

  lemma MailboxGrows(run: Run, n: nat, k: Id)
    requires IsRun(run) && n < |run.ops|
    ensures Grows(Mailbox(run.states[n], k), Mailbox(run.states[n + 1], k))
  {
    MailboxStep(run, n, k);
  }

  /** Apart from read flags, a step appends to a mailbox what it posts to it. */
  lemma MailboxPosts(run: Run, n: nat, k: Id)
    requires IsRun(run) && n < |run.ops|
    ensures UnmarkAll(Mailbox(run.states[n + 1], k)) == UnmarkAll(Mailbox(run.states[n], k))
      + (if PostsTo(run, n, k) then [NewMessage(run.ops[n].request, run.ops[n].now, run.ops[n].newId)] else [])
  {
    MailboxStep(run, n, k);
  }

  // ----- whole runs -----

  /** Conservation: apart from its read flags a mailbox is exactly the messages posted to it, in order. */
  lemma {:induction false} MessagesConserved(run: Run, k: Id, n: nat)
    requires IsRun(run) && n <= |run.ops|
    ensures UnmarkAll(Mailbox(run.states[n], k)) == PostedTo(run, k, n)
  {
    if n > 0 {
      MessagesConserved(run, k, n - 1);
      MailboxPosts(run, n - 1, k);
    }
  }

  /** Messages keep their position and are never unread again. */
  lemma {:induction false} ReadFlagsStick(run: Run, k: Id, i: nat, n: nat)
    requires IsRun(run) && i <= n <= |run.ops|
    ensures Grows(Mailbox(run.states[i], k), Mailbox(run.states[n], k))
  {
    if i < n {
      ReadFlagsStick(run, k, i, n - 1);
      MailboxGrows(run, n - 1, k);
    }
  }

  /** Without `inbox.read`, the messages read in a mailbox are always the oldest ones. */
  lemma {:induction false} ReadInPostingOrder(run: Run, k: Id, n: nat)
    requires IsRun(run) && n <= |run.ops|
    requires forall i :: 0 <= i < n ==> !run.ops[i].request.InboxRead?
    ensures ReadPrefix(Mailbox(run.states[n], k))
  {
    if n > 0 {
      ReadInPostingOrder(run, k, n - 1);
      MailboxStep(run, n - 1, k);
      if ListsOf(run, n - 1, k) {
        var box := Mailbox(run.states[n - 1], k);
        var request := run.ops[n - 1].request;
        DeliverKeepsReadPrefix(box, request.unreadOnly, Budget(LimitOf(request.limit), |box|));
      }
    }
  }

  /** Exactly once, in order: without `inbox.read`, if every list of a mailbox is an unread one, the
      results put together are exactly its read messages, which are its oldest. */
  lemma {:induction false} DeliveredExactlyOnce(run: Run, k: Id, n: nat)
    requires IsRun(run) && n <= |run.ops|
    requires forall i :: 0 <= i < n ==> !run.ops[i].request.InboxRead?
    requires forall i :: 0 <= i < n && ListsOf(run, i, k) ==> run.ops[i].request.unreadOnly
    ensures ReadPartIs(Mailbox(run.states[n], k), Delivered(run, k, n))
  {
    if n > 0 {
      DeliveredExactlyOnce(run, k, n - 1);
      var done := Delivered(run, k, n - 1);
      if ListsOf(run, n - 1, k) {
        ListedExtendsRead(run, n - 1, k, done);
      } else {
        UnlistedKeepsRead(run, n - 1, k, done);
      }
    }
  }

  /** An unread list moves what it returns to the end of the read part of its mailbox. */
  lemma ListedExtendsRead(run: Run, n: nat, k: Id, done: seq<InboxMessage>)
    requires IsRun(run) && n < |run.ops| && ListsOf(run, n, k) && run.ops[n].request.unreadOnly
    requires ReadPartIs(Mailbox(run.states[n], k), done)
    ensures run.answers[n].Messages? && ReadPartIs(Mailbox(run.states[n + 1], k), done + run.answers[n].messages)
  {
    MailboxStep(run, n, k);
    var box := Mailbox(run.states[n], k);
    UnreadScanExtendsRead(box, done, Budget(LimitOf(run.ops[n].request.limit), |box|));
  }

  lemma UnlistedKeepsRead(run: Run, n: nat, k: Id, done: seq<InboxMessage>)
    requires IsRun(run) && n < |run.ops| && !ListsOf(run, n, k) && !run.ops[n].request.InboxRead?
    requires ReadPartIs(Mailbox(run.states[n], k), done)
    ensures ReadPartIs(Mailbox(run.states[n + 1], k), done)
  {
    MailboxStep(run, n, k);
    if PostsTo(run, n, k) {
      UnreadAppended(Mailbox(run.states[n], k), done, NewMessage(run.ops[n].request, run.ops[n].now, run.ops[n].newId));
    }
  }

  lemma UnreadAppended(box: seq<InboxMessage>, done: seq<InboxMessage>, m: InboxMessage)
    requires ReadPartIs(box, done) && !m.read
    ensures ReadPartIs(box + [m], done)
  {
  }

  /** With `inbox.read` and lists of any kind in between, no message is returned by two unread lists. */
  lemma NeverDeliveredTwice(run: Run, i: nat, j: nat, x: nat, y: nat)
    requires IsRun(run) && i < j < |run.ops|
    requires run.ops[i].request.InboxList? && run.ops[j].request.InboxList? && run.ops[j].request.unreadOnly
    requires run.answers[i].Messages? && run.answers[j].Messages?
    requires x < |run.answers[i].messages| && y < |run.answers[j].messages|
    ensures run.answers[i].messages[x].messageId != run.answers[j].messages[y].messageId
  {
    var k, p := DeliveredAt(run, i, x);
    var l, q := DeliveredAt(run, j, y);
    ReadFlagsStick(run, k, i + 1, j);
    RunInv(run, j);
    if run.answers[i].messages[x].messageId == run.answers[j].messages[y].messageId {
      var id := run.answers[i].messages[x].messageId;
      assert HeldAt(run.states[j].inbox, k, p, id) && HeldAt(run.states[j].inbox, l, q, id);
    }
  }

  /** Where a delivered message was, and that it is read there afterwards. */
  lemma DeliveredAt(run: Run, n: nat, x: nat) returns (k: Id, p: nat)
    requires IsRun(run) && n < |run.ops| && run.ops[n].request.InboxList?
    requires run.answers[n].Messages? && x < |run.answers[n].messages|
    ensures ListsOf(run, n, k)
    ensures p < |Mailbox(run.states[n], k)| == |Mailbox(run.states[n + 1], k)|
    ensures run.answers[n].messages[x] == Marked(Mailbox(run.states[n], k)[p]) == Mailbox(run.states[n + 1], k)[p]
    ensures run.ops[n].request.unreadOnly ==> !Mailbox(run.states[n], k)[p].read
  {
    assert Stepped(run, n);
    var request := run.ops[n].request;
    k := request.sessionId.value;
    MailboxStep(run, n, k);
    var box := Mailbox(run.states[n], k);
    p := DeliveredFrom(box, request.unreadOnly, Budget(LimitOf(request.limit), |box|), x);
  }

  /** Nor does one list return a message twice. */
  lemma DistinctInOneList(run: Run, n: nat)
    requires IsRun(run) && n < |run.ops| && run.ops[n].request.InboxList? && run.answers[n].Messages?
    ensures DistinctIds(run.answers[n].messages)
  {
    RunInv(run, n);
    assert Stepped(run, n);
    var request := run.ops[n].request;
    var k := request.sessionId.value;
    var box := Mailbox(run.states[n], k);
    MailboxDistinct(run.states[n], k);
    DeliverDistinct(box, request.unreadOnly, Budget(LimitOf(request.limit), |box|));
  }

  // ----- draining -----

  /** Between steps `i` and `n` mailbox `k` is only listed, unread messages only, with limit `limit`. */
  ghost predicate OnlyDrains(run: Run, k: Id, limit: U64, i: nat, n: nat)
    requires Shaped(run) && i <= n <= |run.ops|
  {
    forall j | i <= j < n ::
      && !PostsTo(run, j, k) && !run.ops[j].request.InboxRead?
      && (ListsOf(run, j, k) ==> run.ops[j].request.unreadOnly && LimitOf(run.ops[j].request.limit) == limit)
  }

  /** How many of the steps from `i` to `n` list mailbox `k`. */
  ghost function ListCount(run: Run, k: Id, i: nat, n: nat): nat
    requires Shaped(run) && i <= n <= |run.ops|
  {
    if i == n then 0 else ListCount(run, k, i, n - 1) + (if ListsOf(run, n - 1, k) then 1 else 0)
  }

  lemma DrainStep(run: Run, k: Id, limit: U64, n: nat)
    requires IsRun(run) && n < |run.ops| && limit > 0 && OnlyDrains(run, k, limit, n, n + 1)
    ensures var box := Mailbox(run.states[n], k); var d := Deliver(box, true, limit);
      if ListsOf(run, n, k) then run.answers[n] == Messages(d.delivered) && Mailbox(run.states[n + 1], k) == d.mailbox
      else Mailbox(run.states[n + 1], k) == box
  {
    MailboxStep(run, n, k);
  }

  lemma DrainsNext(run: Run, k: Id, limit: U64, n: nat, box: seq<InboxMessage>, r: nat)
    requires IsRun(run) && n < |run.ops| && limit > 0 && OnlyDrains(run, k, limit, n, n + 1)
    requires Mailbox(run.states[n], k) == Drained(box, limit, r)
    ensures Mailbox(run.states[n + 1], k) == Drained(box, limit, if ListsOf(run, n, k) then r + 1 else r)
  {
    DrainStep(run, k, limit, n);
  }

  lemma OnlyDrainsParts(run: Run, k: Id, limit: U64, i: nat, n: nat)
    requires Shaped(run) && i < n <= |run.ops| && OnlyDrains(run, k, limit, i, n)
    ensures OnlyDrains(run, k, limit, i, n - 1) && OnlyDrains(run, k, limit, n - 1, n)
  {
  }

  lemma {:induction false} RunDrains(run: Run, k: Id, limit: U64, i: nat, n: nat)
    requires IsRun(run) && i <= n <= |run.ops| && limit > 0 && OnlyDrains(run, k, limit, i, n)
    ensures Mailbox(run.states[n], k) == Drained(Mailbox(run.states[i], k), limit, ListCount(run, k, i, n))
  {
    if i < n {
      OnlyDrainsParts(run, k, limit, i, n);
      RunDrains(run, k, limit, i, n - 1);
      DrainsNext(run, k, limit, n - 1, Mailbox(run.states[i], k), ListCount(run, k, i, n - 1));
    }
  }

  /** With no post to a mailbox and no `inbox.read` in between, whatever else happens, unread lists with limit
      `limit` of a mailbox with `u` unread messages return `limit` messages each while that many are left,
      then the rest: exactly `ceil(u / limit)` of them are not empty. */
  lemma DrainingTerminatesInRun(run: Run, k: Id, limit: U64, i: nat, n: nat)
    requires IsRun(run) && i <= n < |run.ops| && limit > 0 && OnlyDrains(run, k, limit, i, n + 1) && ListsOf(run, n, k)
    ensures var u := Matching(Mailbox(run.states[i], k), true); var r := ListCount(run, k, i, n);
      && run.answers[n].Messages?
      && |run.answers[n].messages| == (if r * limit < u then Min(limit, u - r * limit) else 0)
      && (run.answers[n].messages != [] <==> r < (u + limit - 1) / limit)
  {
    RunDrains(run, k, limit, i, n);
    DrainStep(run, k, limit, n);
    var box, r := Mailbox(run.states[i], k), ListCount(run, k, i, n);
    DrainingRound(box, limit, r);
    DrainingTerminates(box, limit, r);
  }
}
