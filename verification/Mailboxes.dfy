/** What one scan of a mailbox does, and what repeated scans add up to. */
module Mailboxes {
  import opened Protocol
  import opened Steps

  function Marked(m: InboxMessage): InboxMessage {
    m.(read := true)
  }

  /** The message as it was posted. */
  function Unmarked(m: InboxMessage): InboxMessage {
    m.(read := false)
  }

  function UnmarkAll(messages: seq<InboxMessage>): (r: seq<InboxMessage>)
    ensures |r| == |messages|
  {
    seq(|messages|, i requires 0 <= i < |messages| => Unmarked(messages[i]))
  }

  /** `after` is `before`, possibly with more messages at the end and more of them read. */
  ghost predicate Grows(before: seq<InboxMessage>, after: seq<InboxMessage>) {
    && |before| <= |after|
    && (forall i :: 0 <= i < |before| ==> after[i] == before[i] || after[i] == Marked(before[i]))
  }

  ghost predicate DistinctIds(messages: seq<InboxMessage>) {
    forall i, j :: 0 <= i < j < |messages| ==> messages[i].messageId != messages[j].messageId
  }

  /** The read messages are the oldest ones. */
  ghost predicate ReadPrefix(messages: seq<InboxMessage>) {
    forall i, j :: 0 <= i < j < |messages| && messages[j].read ==> messages[i].read
  }

  function Matching(messages: seq<InboxMessage>, unreadOnly: bool): nat {
    if messages == [] then 0
    else
      Matching(messages[..|messages| - 1], unreadOnly)
      + (if unreadOnly && messages[|messages| - 1].read then 0 else 1)
  }

  function Min(a: nat, b: nat): nat {
    if a < b then a else b
  }

  /** A scan only marks messages, and what it delivers is read. */
  lemma {:induction false} DeliverMarksOnly(messages: seq<InboxMessage>, unreadOnly: bool, budget: nat)
    ensures Grows(messages, Deliver(messages, unreadOnly, budget).mailbox)
    ensures forall m :: m in Deliver(messages, unreadOnly, budget).delivered ==> m.read
  {
    if messages != [] {
      DeliverMarksOnly(messages[..|messages| - 1], unreadOnly, budget);
    }
  }

  /** A scan delivers as many matching messages as the budget allows, and none of them
      matches an unread scan any more. */
  lemma {:induction false} DeliverCounts(messages: seq<InboxMessage>, unreadOnly: bool, budget: nat)
    ensures |Deliver(messages, unreadOnly, budget).delivered| == Min(budget, Matching(messages, unreadOnly))
    ensures unreadOnly ==>
      Matching(Deliver(messages, true, budget).mailbox, true)
        == Matching(messages, true) - |Deliver(messages, true, budget).delivered|
  {
    if messages != [] {
      var init := messages[..|messages| - 1];
      DeliverCounts(init, unreadOnly, budget);
      var box := Deliver(messages, unreadOnly, budget).mailbox;
      assert box[..|box| - 1] == Deliver(init, unreadOnly, budget).mailbox;
    }
  }

  /** While the budget is not used up, everything scanned so far is read. */
  lemma {:induction false} BelowBudgetAllRead(messages: seq<InboxMessage>, unreadOnly: bool, budget: nat)
    requires |Deliver(messages, unreadOnly, budget).delivered| < budget
    ensures forall i :: 0 <= i < |messages| ==> Deliver(messages, unreadOnly, budget).mailbox[i].read
  {
    if messages != [] {
      BelowBudgetAllRead(messages[..|messages| - 1], unreadOnly, budget);
    }
  }

  lemma {:induction false} DeliverKeepsReadPrefix(messages: seq<InboxMessage>, unreadOnly: bool, budget: nat)
    requires ReadPrefix(messages)
    ensures ReadPrefix(Deliver(messages, unreadOnly, budget).mailbox)
  {
    if messages != [] {
      var init := messages[..|messages| - 1];
      var d := Deliver(init, unreadOnly, budget);
      DeliverKeepsReadPrefix(init, unreadOnly, budget);
      DeliverMarksOnly(init, unreadOnly, budget);
      if |d.delivered| < budget {
        BelowBudgetAllRead(init, unreadOnly, budget);
      }
    }
  }

  /** On a mailbox whose first `done` messages are read and the others not, an unread scan
      delivers exactly the next ones, in posting order. */
  lemma {:induction false} UnreadScanContinues(messages: seq<InboxMessage>, done: nat, budget: nat)
    requires done <= |messages|
    requires forall i :: 0 <= i < |messages| ==> (messages[i].read <==> i < done)
    ensures var n := Min(budget, |messages| - done); var d := Deliver(messages, true, budget);
      && |d.delivered| == n
      && (forall i :: 0 <= i < n ==> d.delivered[i] == Marked(messages[done + i]))
      && (forall i :: 0 <= i < |messages| ==>
            d.mailbox[i] == if i < done + n then Marked(messages[i]) else messages[i])
  {
    if messages != [] {
      var init := messages[..|messages| - 1];
      if |messages| == done {
        AllReadScan(messages, budget);
      } else {
        UnreadScanContinues(init, done, budget);
      }
    }
  }

  /** `done` is the read part of the mailbox, and its oldest part. */
  ghost predicate ReadPartIs(messages: seq<InboxMessage>, done: seq<InboxMessage>) {
    && done <= messages
    && forall i :: 0 <= i < |messages| ==> (messages[i].read <==> i < |done|)
  }

  /** An unread scan moves what it delivers from the unread part to the end of the read part. */
  lemma UnreadScanExtendsRead(messages: seq<InboxMessage>, done: seq<InboxMessage>, budget: nat)
    requires ReadPartIs(messages, done)
    ensures var d := Deliver(messages, true, budget); ReadPartIs(d.mailbox, done + d.delivered)
  {
    UnreadScanContinues(messages, |done|, budget);
    var d := Deliver(messages, true, budget);
    forall i | 0 <= i < |done + d.delivered|
      ensures (done + d.delivered)[i] == d.mailbox[i]
    {
      assert i < |done| ==> messages[i] == done[i];
    }
  }

  lemma {:induction false} AllReadScan(messages: seq<InboxMessage>, budget: nat)
    requires forall i :: 0 <= i < |messages| ==> messages[i].read
    ensures Deliver(messages, true, budget) == Delivery([], messages)
  {
    if messages != [] {
      AllReadScan(messages[..|messages| - 1], budget);
    }
  }

  /** Every delivered message comes from a position of the mailbox that matched, which is marked. */
  lemma {:induction false} DeliveredFrom(messages: seq<InboxMessage>, unreadOnly: bool, budget: nat, x: nat)
    returns (p: nat)
    requires x < |Deliver(messages, unreadOnly, budget).delivered|
    ensures var d := Deliver(messages, unreadOnly, budget);
      && p < |messages|
      && d.delivered[x] == d.mailbox[p] == Marked(messages[p])
      && (unreadOnly ==> !messages[p].read)
  {
    var init := messages[..|messages| - 1];
    if x < |Deliver(init, unreadOnly, budget).delivered| {
      p := DeliveredFrom(init, unreadOnly, budget, x);
    } else {
      p := |messages| - 1;
    }
  }

  lemma {:induction false} DeliverDistinct(messages: seq<InboxMessage>, unreadOnly: bool, budget: nat)
    requires DistinctIds(messages)
    ensures DistinctIds(Deliver(messages, unreadOnly, budget).delivered)
  {
    if messages != [] {
      var init := messages[..|messages| - 1];
      DeliverDistinct(init, unreadOnly, budget);
      var d := Deliver(init, unreadOnly, budget).delivered;
      forall x | 0 <= x < |d|
        ensures d[x].messageId != messages[|messages| - 1].messageId
      {
        var p := DeliveredFrom(init, unreadOnly, budget, x);
      }
    }
  }

  /** The messages a list asks for, oldest first. */
  function Wanted(messages: seq<InboxMessage>, unreadOnly: bool): seq<InboxMessage> {
    if messages == [] then []
    else
      var m := messages[|messages| - 1];
      Wanted(messages[..|messages| - 1], unreadOnly) + (if unreadOnly && m.read then [] else [m])
  }

  /** The first `n` of a sequence, or all of it if it is shorter. */
  function First(messages: seq<InboxMessage>, n: nat): seq<InboxMessage> {
    if |messages| <= n then messages else messages[..n]
  }

  function MarkAll(messages: seq<InboxMessage>): (r: seq<InboxMessage>)
    ensures |r| == |messages|
  {
    seq(|messages|, i requires 0 <= i < |messages| => Marked(messages[i]))
  }

  /** A scan delivers the first messages asked for, in mailbox order, marked. */
  lemma {:induction false} DeliverIsFilterAndTake(messages: seq<InboxMessage>, unreadOnly: bool, budget: nat)
    ensures Deliver(messages, unreadOnly, budget).delivered == MarkAll(First(Wanted(messages, unreadOnly), budget))
  {
    if messages != [] {
      var m := messages[|messages| - 1];
      var wanted := Wanted(messages[..|messages| - 1], unreadOnly);
      DeliverIsFilterAndTake(messages[..|messages| - 1], unreadOnly, budget);
      assert |wanted| < budget ==> MarkAll(First(wanted + [m], budget)) == MarkAll(First(wanted, budget)) + [Marked(m)];
      assert |wanted| >= budget ==> First(wanted + [m], budget) == First(wanted, budget);
    }
  }

  lemma {:induction false} WantedFits(messages: seq<InboxMessage>, unreadOnly: bool)
    ensures |Wanted(messages, unreadOnly)| <= |messages|
  {
    if messages != [] {
      WantedFits(messages[..|messages| - 1], unreadOnly);
    }
  }

  // ----- the scan by identifiers -----

  function IdsOf(messages: seq<InboxMessage>): (r: seq<Id>)
    ensures |r| == |messages|
  {
    seq(|messages|, i requires 0 <= i < |messages| => messages[i].messageId)
  }

  /** The scan takes the message at position `j`. */
  predicate Taken(messages: seq<InboxMessage>, unreadOnly: bool, budget: nat, j: nat)
    requires j < |messages|
  {
    |Deliver(messages[..j], unreadOnly, budget).delivered| < budget && !(unreadOnly && messages[j].read)
  }

  /** The scan of a longer prefix adds the next message exactly when it is taken. */
  lemma DeliverNext(messages: seq<InboxMessage>, unreadOnly: bool, budget: nat, j: nat)
    requires j < |messages|
    ensures var d := Deliver(messages[..j], unreadOnly, budget);
      Deliver(messages[..j + 1], unreadOnly, budget)
        == if Taken(messages, unreadOnly, budget, j)
           then Delivery(d.delivered + [Marked(messages[j])], d.mailbox + [Marked(messages[j])])
           else Delivery(d.delivered, d.mailbox + [messages[j]])
  {
    assert messages[..j + 1][..j] == messages[..j];
  }

  /** When identifiers are distinct, the identifiers delivered pick out exactly the positions taken:
      the second and third pass over a mailbox touch what the first one chose. */
  lemma {:induction false} IdsPickTaken(messages: seq<InboxMessage>, unreadOnly: bool, budget: nat, j: nat)
    requires DistinctIds(messages) && j < |messages|
    ensures messages[j].messageId in IdsOf(Deliver(messages, unreadOnly, budget).delivered)
      <==> Taken(messages, unreadOnly, budget, j)
  {
    var last := |messages| - 1;
    var init := messages[..last];
    var d := Deliver(init, unreadOnly, budget).delivered;
    var all := Deliver(messages, unreadOnly, budget).delivered;
    assert all == if Taken(messages, unreadOnly, budget, last) then d + [Marked(messages[last])] else d;
    assert IdsOf(all) == if Taken(messages, unreadOnly, budget, last) then IdsOf(d) + [messages[last].messageId] else IdsOf(d);
    if j < last {
      IdsPickTaken(init, unreadOnly, budget, j);
      assert init[..j] == messages[..j];
    } else if messages[last].messageId in IdsOf(d) {
      var x: nat :| x < |d| && d[x].messageId == messages[last].messageId;
      var p := DeliveredFrom(init, unreadOnly, budget, x);
      assert false;
    }
  }

  lemma {:induction false} MatchingAtMost(messages: seq<InboxMessage>, unreadOnly: bool)
    ensures Matching(messages, unreadOnly) <= |messages|
  {
    if messages != [] {
      MatchingAtMost(messages[..|messages| - 1], unreadOnly);
    }
  }

  /** A list takes a position exactly when its message matches and fewer than `limit` matching messages
      come before it; with limit zero, whenever it matches. */
  lemma TakenIffAmongFirst(messages: seq<InboxMessage>, unreadOnly: bool, limit: U64, j: nat)
    requires j < |messages|
    ensures Taken(messages, unreadOnly, Budget(limit, |messages|), j) <==>
      && !(unreadOnly && messages[j].read)
      && (limit == 0 || Matching(messages[..j], unreadOnly) < limit)
  {
    DeliverCounts(messages[..j], unreadOnly, Budget(limit, |messages|));
    MatchingAtMost(messages[..j], unreadOnly);
  }

  /** What the whole scan leaves at a position is what the scan of the prefix left there. */
  lemma {:induction false} DeliverNextMarks(messages: seq<InboxMessage>, unreadOnly: bool, budget: nat, j: nat)
    requires j < |messages|
    ensures Deliver(messages, unreadOnly, budget).mailbox[j]
      == if Taken(messages, unreadOnly, budget, j) then Marked(messages[j]) else messages[j]
  {
    var init := messages[..|messages| - 1];
    if j < |init| {
      DeliverNextMarks(init, unreadOnly, budget, j);
      assert init[..j] == messages[..j];
    }
  }

  /** Once the budget is spent, scanning on delivers nothing more. */
  lemma {:induction false} BudgetSpent(messages: seq<InboxMessage>, unreadOnly: bool, budget: nat, i: nat)
    requires i <= |messages| && |Deliver(messages[..i], unreadOnly, budget).delivered| >= budget
    ensures Deliver(messages, unreadOnly, budget).delivered == Deliver(messages[..i], unreadOnly, budget).delivered
  {
    if i == |messages| {
      assert messages[..i] == messages;
    } else {
      var init := messages[..|messages| - 1];
      assert init[..i] == messages[..i];
      BudgetSpent(init, unreadOnly, budget, i);
    }
  }

  // ----- draining -----

  /** The mailbox after `rounds` unread lists with the same budget and no post in between. */
  function Drained(messages: seq<InboxMessage>, budget: nat, rounds: nat): seq<InboxMessage> {
    if rounds == 0 then messages
    else Deliver(Drained(messages, budget, rounds - 1), true, budget).mailbox
  }

  /** Round `r` of draining `n` unread messages with limit `k > 0` returns `min(k, n - r * k)` of
      them while that is positive and nothing afterwards. */
  lemma {:induction false} DrainingRound(messages: seq<InboxMessage>, budget: nat, r: nat)
    requires budget > 0
    ensures var n := Matching(messages, true);
      && Matching(Drained(messages, budget, r), true) == (if r * budget < n then n - r * budget else 0)
      && |Deliver(Drained(messages, budget, r), true, budget).delivered|
           == (if r * budget < n then Min(budget, n - r * budget) else 0)
  {
    if r > 0 {
      DrainingRound(messages, budget, r - 1);
      DeliverCounts(Drained(messages, budget, r - 1), true, budget);
      assert r * budget == (r - 1) * budget + budget;
    }
    DeliverCounts(Drained(messages, budget, r), true, budget);
  }

  /** Draining gives exactly `ceil(n / k)` nonempty results, and then empty ones. */
  lemma DrainingTerminates(messages: seq<InboxMessage>, budget: nat, r: nat)
    requires budget > 0
    ensures Deliver(Drained(messages, budget, r), true, budget).delivered != []
      <==> r < (Matching(messages, true) + budget - 1) / budget
  {
    DrainingRound(messages, budget, r);
    CeilingAbove(r, Matching(messages, true), budget);
  }

  lemma CeilingAbove(r: nat, n: nat, k: nat)
    requires k > 0
    ensures r * k < n <==> r < (n + k - 1) / k
  {
    var q := (n + k - 1) / k;
    assert n + k - 1 == q * k + (n + k - 1) % k;
    if r < q {
      assert r * k <= (q - 1) * k;
    } else {
      assert r * k >= q * k;
    }
  }
}
