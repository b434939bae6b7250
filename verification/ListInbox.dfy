/** The store's inbox query orders rows by the text of their timestamps. When that is posting order. */
module ListInbox {
  import opened Protocol
  import opened Steps
  import opened Invariants
  import opened Runs
  import opened Concurrency
  import opened Interleavings
  import opened Rfc3339
  import opened Db
  import opened Mirror

  ghost predicate AllInEra(messages: seq<InboxMessage>) {
    forall i :: 0 <= i < |messages| ==> InEra(messages[i].ts)
  }

  ghost predicate StoredFor(t: Tables, k: Id, m: InboxMessage) {
    exists id :: id in t.inbox && t.inbox[id].message == m && m.toSession == k
  }

  ghost predicate Distinct(rows: seq<InboxMessage>) {
    forall i, j :: 0 <= i < j < |rows| ==> rows[i] != rows[j]
  }

  /** A result the query may give: each row for `k` once, in an order that the text of `ts` allows.
      Rows with equal text may come in any order. */
  ghost predicate IsListing(t: Tables, k: Id, rows: seq<InboxMessage>) {
    && (forall m :: m in rows <==> StoredFor(t, k, m)) && Distinct(rows) && AllInEra(rows)
    && (forall i, j :: 0 <= i < j < |rows| ==> !Before(TimeText(rows[j].ts), TimeText(rows[i].ts)))
  }

  ghost predicate TimeSorted(messages: seq<InboxMessage>) {
    forall i, j :: 0 <= i < j < |messages| ==> messages[i].ts <= messages[j].ts
  }

  ghost predicate NoTies(messages: seq<InboxMessage>) {
    forall i, j :: 0 <= i < j < |messages| ==> messages[i].ts < messages[j].ts
  }

  /** Text order allows exactly the orders that time allows. */
  lemma SortedByTextIff(rows: seq<InboxMessage>)
    requires AllInEra(rows)
    ensures (forall i, j :: 0 <= i < j < |rows| ==> !Before(TimeText(rows[j].ts), TimeText(rows[i].ts)))
      <==> TimeSorted(rows)
  {
    forall i, j | 0 <= i < j < |rows|
      ensures Before(TimeText(rows[j].ts), TimeText(rows[i].ts)) <==> rows[j].ts < rows[i].ts
    {
      TimeTextOrder(rows[j].ts, rows[i].ts);
    }
  }

  /** The rows stored for a mailbox are its messages. */
  lemma StoredIffPosted(s: State, t: Tables, k: Id, m: InboxMessage)
    requires Inv(s) && Mirrors(s, t)
    ensures StoredFor(t, k, m) <==> m in Mailbox(s, k)
  {
    if StoredFor(t, k, m) {
      var id :| id in t.inbox && t.inbox[id].message == m && m.toSession == k;
      var l, i :| HeldAt(s.inbox, l, i, id);
      assert s.inbox[l][i].toSession == l;
    }
    if m in Mailbox(s, k) {
      var i :| 0 <= i < |Mailbox(s, k)| && Mailbox(s, k)[i] == m;
      assert s.inbox[k][i] == m && m.messageId in t.inbox;
    }
  }

  lemma MailboxIsListing(s: State, t: Tables, k: Id)
    requires Inv(s) && Mirrors(s, t) && AllInEra(Mailbox(s, k)) && TimeSorted(Mailbox(s, k))
    ensures IsListing(t, k, Mailbox(s, k))
  {
    forall m
      ensures m in Mailbox(s, k) <==> StoredFor(t, k, m)
    {
      StoredIffPosted(s, t, k, m);
    }
    MailboxDistinct(s, k);
    SortedByTextIff(Mailbox(s, k));
  }

  /** A strictly sorted sequence is the only sorted arrangement of its elements. */
  lemma {:induction false} SortedOnce(rows: seq<InboxMessage>, box: seq<InboxMessage>)
    requires Distinct(rows) && TimeSorted(rows) && NoTies(box)
    requires forall m :: m in rows <==> m in box
    ensures rows == box
    decreases |rows|
  {
    assert (|box| > 0 ==> box[0] in rows) && (|rows| > 0 ==> rows[0] in box);
    if rows != [] {
      var x, y := rows[|rows| - 1], box[|box| - 1];
      assert x in box && y in rows;
      var i :| 0 <= i < |box| && box[i] == x;
      var j :| 0 <= j < |rows| && rows[j] == y;
      assert x == y;
      var rows', box' := rows[..|rows| - 1], box[..|box| - 1];
      forall m
        ensures m in rows' <==> m in box'
      {
        assert m in rows <==> m in rows' || m == x;
        assert m in box <==> m in box' || m == x;
        assert x !in rows' && x !in box';
      }
      SortedOnce(rows', box');
    }
  }

  function Swap(box: seq<InboxMessage>, i: nat): (rows: seq<InboxMessage>)
    requires i + 1 < |box|
    ensures |rows| == |box| && rows[i] == box[i + 1] && rows[i + 1] == box[i]
    ensures forall j :: 0 <= j < |box| && j != i && j != i + 1 ==> rows[j] == box[j]
  {
    box[i := box[i + 1]][i + 1 := box[i]]
  }

  lemma SwapKeepsMembers(box: seq<InboxMessage>, i: nat, m: InboxMessage)
    requires i + 1 < |box|
    ensures m in Swap(box, i) <==> m in box
  {
    var rows := Swap(box, i);
    if m in box {
      var j :| 0 <= j < |box| && box[j] == m;
      assert m == rows[if j == i then i + 1 else if j == i + 1 then i else j];
    }
  }

  lemma SwapKeepsDistinct(box: seq<InboxMessage>, i: nat)
    requires i + 1 < |box| && Distinct(box)
    ensures Distinct(Swap(box, i)) && Swap(box, i) != box
  {
    assert Swap(box, i)[i] != box[i];
  }

  /** With a tie there is another listing. */
  lemma TieSwaps(t: Tables, k: Id, box: seq<InboxMessage>, i: nat)
    requires IsListing(t, k, box) && i + 1 < |box| && box[i].ts == box[i + 1].ts
    ensures IsListing(t, k, Swap(box, i)) && Swap(box, i) != box
  {
    var rows := Swap(box, i);
    SwapKeepsDistinct(box, i);
    forall m
      ensures m in rows <==> StoredFor(t, k, m)
    {
      SwapKeepsMembers(box, i, m);
    }
    SortedByTextIff(box);
    assert AllInEra(rows) && TimeSorted(rows);
    SortedByTextIff(rows);
  }

  lemma TieIsAdjacent(box: seq<InboxMessage>) returns (i: nat)
    requires TimeSorted(box) && !NoTies(box)
    ensures i + 1 < |box| && box[i].ts == box[i + 1].ts
  {
    var x, j :| 0 <= x < j < |box| && box[x].ts >= box[j].ts;
    i := x;
    assert box[i].ts <= box[i + 1].ts;
    assert i + 1 < j ==> box[i + 1].ts <= box[j].ts;
  }

  lemma OnlyListingIff(t: Tables, k: Id, box: seq<InboxMessage>)
    requires IsListing(t, k, box)
    ensures forall rows | IsListing(t, k, rows) :: TimeSorted(rows)
    ensures (forall rows | IsListing(t, k, rows) :: rows == box) <==> NoTies(box)
  {
    forall rows | IsListing(t, k, rows)
      ensures TimeSorted(rows)
      ensures NoTies(box) ==> rows == box
    {
      ListingIsSorted(t, k, rows);
      if NoTies(box) {
        SortedOnce(rows, box);
      }
    }
    if !NoTies(box) {
      ListingIsSorted(t, k, box);
      var i := TieIsAdjacent(box);
      TieSwaps(t, k, box, i);
    }
  }

  lemma ListingIsSorted(t: Tables, k: Id, rows: seq<InboxMessage>)
    requires IsListing(t, k, rows)
    ensures TimeSorted(rows)
  {
    SortedByTextIff(rows);
  }

  /** The query returns a mailbox in posting order, whatever it does with ties, exactly when no two messages
      of the mailbox carry the same timestamp. It always returns it in time order. */
  lemma QueryIsPostingOrderIff(s: State, t: Tables, k: Id)
    requires Inv(s) && Mirrors(s, t) && AllInEra(Mailbox(s, k)) && TimeSorted(Mailbox(s, k))
    ensures forall rows | IsListing(t, k, rows) :: TimeSorted(rows)
    ensures (forall rows | IsListing(t, k, rows) :: rows == Mailbox(s, k)) <==> NoTies(Mailbox(s, k))
  {
    MailboxIsListing(s, t, k);
    OnlyListingIff(t, k, Mailbox(s, k));
  }

  /** In every interleaving: the tables written through answer the inbox query in posting order unless two
      messages of the mailbox were stamped at the same instant. */
  lemma StoreListsPostingOrder(sys: System, k: Id)
    requires Reachable(sys) && AllInEra(Mailbox(Last(sys.run), k))
    ensures TablesAfter(sys.run, |sys.run.ops|).Some?
    ensures var t := TablesAfter(sys.run, |sys.run.ops|).value; var box := Mailbox(Last(sys.run), k);
      && (forall rows | IsListing(t, k, rows) :: TimeSorted(rows))
      && ((forall rows | IsListing(t, k, rows) :: rows == box) <==> NoTies(box))
  {
    ReachableInv(sys);
    RunMirrored(sys.run, |sys.run.ops|);
    RunInv(sys.run, |sys.run.ops|);
    var box := Mailbox(Last(sys.run), k);
    forall i, j | 0 <= i < j < |box|
      ensures box[i].ts <= box[j].ts
    {
      MailboxInTimeOrder(sys, k, i, j);
    }
    QueryIsPostingOrderIff(Last(sys.run), TablesAfter(sys.run, |sys.run.ops|).value, k);
  }
}
