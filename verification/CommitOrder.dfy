/**
 * server_seq is drawn when a row is written, but the row becomes visible when its transaction
 * commits. With several transactions open at once the two orders can differ. This module makes the
 * difference explicit and says exactly what the pull cursor needs of it.
 */
module CommitOrder {
  import opened Prelude
  import opened Expenses
  import opened PullPages
  import opened Replica

  type Txn = nat

  /** A row an open transaction has written. Its lock keeps every other transaction off the row. */
  datatype Image = Image(txn: Txn, row: Row)

  /** The committed rows, the sequence, the uncommitted images, and the clients pulling. */
  datatype Server = Server(rows: Rows, seqValue: nat, pending: map<ExpenseId, Image>, clients: map<ClientId, Client>)

  datatype Event =
    | Write(txn: Txn, id: ExpenseId, row: Row)
    | Burn
    | CommitTxn(txn: Txn)
    | RollBack(txn: Txn)
    | Join(client: ClientId, user: UserId)
    | Poll(client: ClientId, limit: nat)

  /** The rows a transaction has written and not yet committed. */
  function WrittenBy(s: Server, txn: Txn): Rows {
    map id | id in s.pending && s.pending[id].txn == txn :: s.pending[id].row
  }

  /** The row is not locked by another transaction, and keeps its owner. */
  predicate CanWrite(s: Server, txn: Txn, id: ExpenseId, row: Row) {
    && (id in s.rows ==> row.user == s.rows[id].user)
    && (id in s.pending ==> s.pending[id].txn == txn)
  }

  /**
   * Burn is a value drawn for a row that is then not written. Total like the machine's steps: a
   * poll needs distinct stamps, which every history has.
   */
  ghost function Happens(s: Server, e: Event): Server {
    match e
    case Write(txn, id, row) =>
      if !CanWrite(s, txn, id, row) then s
      else s.(seqValue := s.seqValue + 1,
              pending := s.pending[id := Image(txn, row.(serverSeq := s.seqValue + 1))])
    case Burn => s.(seqValue := s.seqValue + 1)
    case CommitTxn(txn) => s.(rows := s.rows + WrittenBy(s, txn), pending := s.pending - WrittenBy(s, txn).Keys)
    case RollBack(txn) => s.(pending := s.pending - WrittenBy(s, txn).Keys)
    case Join(client, user) => s.(clients := s.clients[client := Client(user, map[], 0)])
    case Poll(client, limit) =>
      if client in s.clients && limit >= 1 && DistinctStamps(s.rows)
      then s.(clients := s.clients[client := Refresh(s.clients[client], s.rows, limit)])
      else s
  }

  ghost predicate VisibleStamps(s: Server) {
    DistinctStamps(s.rows) && forall id | id in s.rows :: 0 < s.rows[id].serverSeq <= s.seqValue
  }

  ghost predicate PendingStamps(s: Server) {
    && (forall id | id in s.pending :: 0 < s.pending[id].row.serverSeq <= s.seqValue)
    && (forall a, b | a in s.pending && b in s.pending && a != b ::
          s.pending[a].row.serverSeq != s.pending[b].row.serverSeq)
  }

  ghost predicate PendingApart(s: Server) {
    && (forall id | id in s.pending && id in s.rows :: s.pending[id].row.user == s.rows[id].user)
    && (forall a, b | a in s.pending && b in s.rows :: s.pending[a].row.serverSeq != s.rows[b].serverSeq)
  }

  /** Stamps are drawn once, and an uncommitted image keeps its row's owner. */
  ghost predicate Consistent(s: Server) { VisibleStamps(s) && PendingStamps(s) && PendingApart(s) }

  lemma WriteConsistent(s: Server, txn: Txn, id: ExpenseId, row: Row)
    requires Consistent(s) && CanWrite(s, txn, id, row)
    ensures Consistent(Happens(s, Write(txn, id, row)))
  {
  }

  lemma CommitVisible(s: Server, txn: Txn)
    requires Consistent(s)
    ensures VisibleStamps(Happens(s, CommitTxn(txn)))
  {
  }

  lemma CommitPending(s: Server, txn: Txn)
    requires PendingStamps(s)
    ensures PendingStamps(Happens(s, CommitTxn(txn)))
  {
  }

  lemma CommitApart(s: Server, txn: Txn)
    requires Consistent(s)
    ensures PendingApart(Happens(s, CommitTxn(txn)))
  {
  }

  lemma CommitConsistent(s: Server, txn: Txn)
    requires Consistent(s)
    ensures Consistent(Happens(s, CommitTxn(txn)))
  {
    CommitVisible(s, txn);
    CommitPending(s, txn);
    CommitApart(s, txn);
  }

  lemma HappensConsistent(s: Server, e: Event)
    requires Consistent(s)
    ensures Consistent(Happens(s, e))
  {
    match e
    case Write(txn, id, row) => if CanWrite(s, txn, id, row) { WriteConsistent(s, txn, id, row); }
    case Burn =>
    case CommitTxn(txn) => CommitConsistent(s, txn);
    case RollBack(_) =>
    case Join(_, _) =>
    case Poll(_, _) =>
  }

  /** A rollback withdraws all the transaction wrote and nothing else; the values it drew stay drawn. */
  lemma RolledBackIsGone(s: Server, txn: Txn, other: Txn)
    requires other != txn
    ensures var s' := Happens(s, RollBack(txn));
            && s' == s.(pending := s'.pending)
            && WrittenBy(s', txn) == map[] && WrittenBy(s', other) == WrittenBy(s, other)
  {
  }

  function Empty(): Server { Server(map[], 0, map[], map[]) }

  ghost function HistoryFrom(s: Server, events: seq<Event>): Server {
    if events == [] then s else Happens(HistoryFrom(s, events[..|events| - 1]), events[|events| - 1])
  }

  ghost function History(events: seq<Event>): Server { HistoryFrom(Empty(), events) }

  lemma {:induction false} HistoryConsistent(events: seq<Event>)
    ensures Consistent(History(events))
  {
    if events != [] {
      HistoryConsistent(events[..|events| - 1]);
      HappensConsistent(History(events[..|events| - 1]), events[|events| - 1]);
    }
  }

  // ----- commits in the order of their stamps -------------------------------------------------------------

  /** The rows a commit makes visible are stamped after everything already visible. */
  ghost predicate InOrder(s: Server, e: Event) {
    e.CommitTxn? ==>
      forall id, v | id in WrittenBy(s, e.txn) && v in s.rows :: s.rows[v].serverSeq < WrittenBy(s, e.txn)[id].serverSeq
  }

  /** No cursor is beyond what is visible. */
  ghost predicate Reached(rows: Rows, cursor: nat) {
    cursor == 0 || exists v :: v in rows && cursor <= rows[v].serverSeq
  }

  ghost predicate AllSynced(s: Server) {
    forall k | k in s.clients :: Synced(s.rows, s.clients[k]) && Reached(s.rows, s.clients[k].cursor)
  }

  lemma CommitKeepsRows(s: Server, txn: Txn)
    requires Consistent(s)
    ensures KeepsRows(s.rows, Happens(s, CommitTxn(txn)).rows)
  {
  }

  lemma InOrderCommitSyncs(s: Server, txn: Txn, c: Client)
    requires Consistent(s) && InOrder(s, CommitTxn(txn)) && Synced(s.rows, c) && Reached(s.rows, c.cursor)
    ensures var rows' := Happens(s, CommitTxn(txn)).rows;
            Synced(rows', c) && Reached(rows', c.cursor)
  {
    var rows' := Happens(s, CommitTxn(txn)).rows;
    CommitKeepsRows(s, txn);
    if c.cursor != 0 {
      var v :| v in s.rows && c.cursor <= s.rows[v].serverSeq;
      assert v in rows' && c.cursor <= rows'[v].serverSeq;
    }
    forall id | ChangedRow(s.rows, rows', id) && rows'[id].user == c.user
      ensures c.cursor < rows'[id].serverSeq
    {
      assert id in WrittenBy(s, txn);
    }
    AdvanceSyncs(s.rows, rows', c);
  }

  lemma PollSyncs(s: Server, c: Client, limit: nat)
    requires Consistent(s) && Synced(s.rows, c) && Reached(s.rows, c.cursor)
    ensures var c' := Refresh(c, s.rows, limit);
            Synced(s.rows, c') && Reached(s.rows, c'.cursor)
  {
    var records := Selected(s.rows, c.user, c.cursor, limit);
    PageSyncs(s.rows, c, limit);
    if records != [] {
      SelectedMember(s.rows, c.user, c.cursor, limit, |records| - 1);
      assert records[|records| - 1].id in s.rows;
    }
  }

  lemma CommitEventSyncs(s: Server, txn: Txn)
    requires Consistent(s) && AllSynced(s) && InOrder(s, CommitTxn(txn))
    ensures AllSynced(Happens(s, CommitTxn(txn)))
  {
    forall k | k in s.clients
      ensures Synced(Happens(s, CommitTxn(txn)).rows, s.clients[k])
      ensures Reached(Happens(s, CommitTxn(txn)).rows, s.clients[k].cursor)
    {
      InOrderCommitSyncs(s, txn, s.clients[k]);
    }
  }

  lemma PollEventSyncs(s: Server, client: ClientId, limit: nat)
    requires Consistent(s) && AllSynced(s)
    ensures AllSynced(Happens(s, Poll(client, limit)))
  {
    if client in s.clients && limit >= 1 { PollSyncs(s, s.clients[client], limit); }
  }

  lemma EventSyncs(s: Server, e: Event)
    requires Consistent(s) && AllSynced(s) && InOrder(s, e)
    ensures AllSynced(Happens(s, e))
  {
    match e
    case Write(_, _, _) =>
    case Burn =>
    case RollBack(_) =>
    case CommitTxn(txn) => CommitEventSyncs(s, txn);
    case Join(_, _) =>
    case Poll(client, limit) => PollEventSyncs(s, client, limit);
  }

  ghost predicate Ordered(events: seq<Event>) {
    forall i | 0 <= i < |events| :: InOrder(History(events[..i]), events[i])
  }

  lemma OrderedPrefix(events: seq<Event>, n: nat)
    requires Ordered(events) && n <= |events|
    ensures Ordered(events[..n])
  {
    forall i | 0 <= i < n
      ensures InOrder(History(events[..n][..i]), events[..n][i])
    {
      assert events[..n][..i] == events[..i];
    }
  }

  /** When commits become visible in server_seq order, every client of every history is in sync up to its cursor. */
  lemma {:induction false} OrderedHistorySyncs(events: seq<Event>)
    requires Ordered(events)
    ensures AllSynced(History(events))
  {
    if events != [] {
      var n := |events| - 1;
      OrderedPrefix(events, n);
      OrderedHistorySyncs(events[..n]);
      HistoryConsistent(events[..n]);
      EventSyncs(History(events[..n]), events[n]);
    }
  }

  /** And a page that answers has_more = false completes such a client's mirror. */
  lemma OrderedClientsConverge(events: seq<Event>, client: ClientId, limit: nat)
    requires Ordered(events) && client in History(events).clients && limit >= 1
    ensures var s := History(events);
            var c := s.clients[client];
            && Consistent(s)
            && (!Pulled(s.rows, c.user, c.cursor, limit).hasMore ==>
                  Happens(s, Poll(client, limit)).clients[client].mirror == Slice(s.rows, c.user))
  {
    OrderedHistorySyncs(events);
    HistoryConsistent(events);
    PullSyncs(History(events).rows, History(events).clients[client], limit);
  }

  // ----- commits out of order ---------------------------------------------------------------------------------

  /** Every image the commit publishes for the client's user is stamped past its cursor. */
  ghost predicate PublishesPast(s: Server, txn: Txn, c: Client) {
    forall id | id in WrittenBy(s, txn) && WrittenBy(s, txn)[id].user == c.user ::
      c.cursor < WrittenBy(s, txn)[id].serverSeq
  }

  /** What a client holds was committed once, so no uncommitted image can carry the same stamp. */
  ghost predicate HoldsCommitted(s: Server, c: Client) {
    && (forall id | id in c.mirror :: c.mirror[id].serverSeq <= s.seqValue)
    && (forall id, a | id in c.mirror && a in s.pending :: c.mirror[id].serverSeq != s.pending[a].row.serverSeq)
  }

  /** The client holds under this id either what it held before or what is committed. */
  lemma PolledRow(rows: Rows, c: Client, limit: nat, id: ExpenseId)
    requires DistinctStamps(rows) && id in Refresh(c, rows, limit).mirror
    ensures var row := Refresh(c, rows, limit).mirror[id];
            (id in rows && row == rows[id]) || (id in c.mirror && row == c.mirror[id])
  {
    SelectedLists(rows, c.user, c.cursor, limit);
    StoreAllAt(c.mirror, Selected(rows, c.user, c.cursor, limit), rows, id);
  }

  lemma PollHoldsCommitted(s: Server, c: Client, limit: nat)
    requires Consistent(s) && HoldsCommitted(s, c)
    ensures HoldsCommitted(s, Refresh(c, s.rows, limit))
  {
    var mirror := Refresh(c, s.rows, limit).mirror;
    forall id | id in mirror
      ensures (id in s.rows && mirror[id] == s.rows[id]) || (id in c.mirror && mirror[id] == c.mirror[id])
    {
      PolledRow(s.rows, c, limit, id);
    }
  }

  lemma EventHoldsCommitted(s: Server, e: Event, client: ClientId)
    requires Consistent(s) && client in Happens(s, e).clients
    requires client in s.clients ==> HoldsCommitted(s, s.clients[client])
    ensures HoldsCommitted(Happens(s, e), Happens(s, e).clients[client])
  {
    if e.Poll? && e.client == client && e.limit >= 1 { PollHoldsCommitted(s, s.clients[client], e.limit); }
  }

  lemma {:induction false} HistoryHoldsCommitted(events: seq<Event>, client: ClientId)
    requires client in History(events).clients
    ensures HoldsCommitted(History(events), History(events).clients[client])
  {
    if events != [] {
      var n := |events| - 1;
      var before := History(events[..n]);
      HistoryConsistent(events[..n]);
      if client in before.clients { HistoryHoldsCommitted(events[..n], client); }
      EventHoldsCommitted(before, events[n], client);
    }
  }

  lemma CommitChanges(s: Server, txn: Txn, id: ExpenseId)
    requires Consistent(s)
    ensures var written, rows' := WrittenBy(s, txn), Happens(s, CommitTxn(txn)).rows;
            && (ChangedRow(s.rows, rows', id) <==> id in written)
            && (id in written ==> rows'[id] == s.pending[id].row)
  {
    if id in WrittenBy(s, txn) && id in s.rows { assert s.pending[id].row.serverSeq != s.rows[id].serverSeq; }
  }

  /**
   * In any history, whatever the order of its commits, the next commit keeps a client in sync if
   * and only if every row it publishes for that client is stamped past the client's cursor.
   */
  lemma CommitSyncsIff(events: seq<Event>, client: ClientId, txn: Txn)
    requires client in History(events).clients
    requires Synced(History(events).rows, History(events).clients[client])
    ensures var s := History(events);
            var s' := History(events + [CommitTxn(txn)]);
            client in s'.clients
            && (Synced(s'.rows, s'.clients[client]) <==> PublishesPast(s, txn, s.clients[client]))
  {
    var s := History(events);
    var c, rows' := s.clients[client], Happens(s, CommitTxn(txn)).rows;
    assert (events + [CommitTxn(txn)])[..|events|] == events;
    HistoryConsistent(events);
    HistoryHoldsCommitted(events, client);
    CommitKeepsRows(s, txn);
    forall id
      ensures ChangedRow(s.rows, rows', id) <==> id in WrittenBy(s, txn)
      ensures id in WrittenBy(s, txn) ==> rows'[id] == s.pending[id].row
    {
      CommitChanges(s, txn, id);
    }
    ChangeSyncedIff(s.rows, rows', c);
  }

  /** Every client is in sync. */
  ghost predicate InSync(s: Server) { forall k | k in s.clients :: Synced(s.rows, s.clients[k]) }

  /** If the event is a commit, all it publishes is stamped past the cursors of the clients it is for. */
  ghost predicate PassesCursors(s: Server, e: Event) {
    e.CommitTxn? ==> forall k | k in s.clients :: PublishesPast(s, e.txn, s.clients[k])
  }

  lemma HistoryNext(events: seq<Event>, e: Event)
    ensures History(events + [e]) == Happens(History(events), e)
  {
    assert (events + [e])[..|events|] == events;
  }

  lemma PollInSync(s: Server, client: ClientId, limit: nat)
    requires Consistent(s) && InSync(s)
    ensures InSync(Happens(s, Poll(client, limit)))
  {
    if client in s.clients && limit >= 1 { PageSyncs(s.rows, s.clients[client], limit); }
  }

  lemma EventInSyncIff(events: seq<Event>, e: Event)
    requires InSync(History(events))
    ensures InSync(Happens(History(events), e)) <==> PassesCursors(History(events), e)
  {
    var s := History(events);
    HistoryConsistent(events);
    HistoryNext(events, e);
    match e
    case CommitTxn(txn) =>
      forall k | k in s.clients
        ensures Synced(Happens(s, e).rows, s.clients[k]) <==> PublishesPast(s, txn, s.clients[k])
      {
        CommitSyncsIff(events, k, txn);
      }
    case Poll(client, limit) => PollInSync(s, client, limit);
    case _ =>
  }

  ghost predicate AlwaysInSync(events: seq<Event>) { forall n | 0 <= n <= |events| :: InSync(History(events[..n])) }

  ghost predicate AlwaysPassesCursors(events: seq<Event>) {
    forall i | 0 <= i < |events| :: PassesCursors(History(events[..i]), events[i])
  }

  /**
   * Every client is in sync throughout a history if and only if each of its commits publishes past
   * the cursors of its time.
   */
  lemma {:induction false} AlwaysInSyncIff(events: seq<Event>)
    ensures AlwaysInSync(events) <==> AlwaysPassesCursors(events)
  {
    if events == [] {
      assert InSync(History(events[..0]));
    } else {
      var n := |events| - 1;
      AlwaysInSyncIff(events[..n]);
      assert events[..n] + [events[n]] == events[..n + 1] == events;
      HistoryNext(events[..n], events[n]);
      forall k | 0 <= k <= n
        ensures events[..n][..k] == events[..k]
      {
      }
      InSyncSplits(events, n);
      PassesSplits(events, n);
      if AlwaysInSync(events[..n]) {
        assert events[..n][..n] == events[..n];
        EventInSyncIff(events[..n], events[n]);
      }
    }
  }

  lemma InSyncSplits(events: seq<Event>, n: nat)
    requires |events| == n + 1
    ensures AlwaysInSync(events) <==> AlwaysInSync(events[..n]) && InSync(History(events))
  {
    assert events[..n + 1] == events;
    forall k | 0 <= k <= n
      ensures History(events[..n][..k]) == History(events[..k])
    {
      assert events[..n][..k] == events[..k];
    }
    if AlwaysInSync(events[..n]) && InSync(History(events)) {
      forall k | 0 <= k <= |events|
        ensures InSync(History(events[..k]))
      {
        if k <= n { assert InSync(History(events[..n][..k])); }
      }
    }
  }

  lemma PassesSplits(events: seq<Event>, n: nat)
    requires |events| == n + 1
    ensures AlwaysPassesCursors(events)
            <==> AlwaysPassesCursors(events[..n]) && PassesCursors(History(events[..n]), events[n])
  {
    forall k | 0 <= k < n
      ensures PassesCursors(History(events[..n][..k]), events[..n][k])
              <==> PassesCursors(History(events[..k]), events[k])
    {
      assert events[..n][..k] == events[..k];
    }
    if AlwaysPassesCursors(events[..n]) && PassesCursors(History(events[..n]), events[n]) {
      forall k | 0 <= k < |events|
        ensures PassesCursors(History(events[..k]), events[k])
      {
        if k < n { assert PassesCursors(History(events[..n][..k]), events[..n][k]); }
      }
    }
  }

  /** The client is past a visible row of its own user and does not hold it, or holds another version of it. */
  ghost predicate Missed(s: Server, client: ClientId, id: ExpenseId) {
    && client in s.clients && id in s.rows && s.rows[id].user == s.clients[client].user
    && s.rows[id].serverSeq <= s.clients[client].cursor
    && (id in s.clients[client].mirror ==> s.clients[client].mirror[id] != s.rows[id])
  }

  /** The event neither publishes the row anew nor starts the client over. */
  ghost predicate Spares(s: Server, e: Event, client: ClientId, id: ExpenseId) {
    && (e.CommitTxn? ==> id !in WrittenBy(s, e.txn))
    && (e.Join? ==> e.client != client)
  }

  /** A page lists nothing stamped up to the cursor it starts from. */
  lemma RefreshPassesBy(rows: Rows, c: Client, limit: nat, id: ExpenseId)
    requires DistinctStamps(rows) && id in rows && rows[id].serverSeq <= c.cursor
    ensures var c' := Refresh(c, rows, limit);
            && c'.user == c.user && c.cursor <= c'.cursor
            && (id in c'.mirror <==> id in c.mirror) && (id in c.mirror ==> c'.mirror[id] == c.mirror[id])
  {
    var records := Selected(rows, c.user, c.cursor, limit);
    SelectedLists(rows, c.user, c.cursor, limit);
    StoreAllAt(c.mirror, records, rows, id);
    assert !HasRecord(records, id);
  }

  lemma PollMisses(s: Server, client: ClientId, limit: nat, id: ExpenseId)
    requires Consistent(s) && Missed(s, client, id) && limit >= 1
    ensures Missed(Happens(s, Poll(client, limit)), client, id)
  {
    RefreshPassesBy(s.rows, s.clients[client], limit, id);
  }

  lemma EventMisses(s: Server, e: Event, client: ClientId, id: ExpenseId)
    requires Consistent(s) && Missed(s, client, id) && Spares(s, e, client, id)
    ensures Missed(Happens(s, e), client, id)
  {
    if e.Poll? && e.client == client && e.limit >= 1 { PollMisses(s, client, e.limit, id); }
  }

  /**
   * A missed row stays missed through every later event, pages among them, until it is published
   * again or the client starts over.
   */
  lemma {:induction false} MissedForever(s: Server, events: seq<Event>, client: ClientId, id: ExpenseId)
    requires Consistent(s) && Missed(s, client, id)
    requires forall i | 0 <= i < |events| :: Spares(HistoryFrom(s, events[..i]), events[i], client, id)
    ensures Missed(HistoryFrom(s, events), client, id) && Consistent(HistoryFrom(s, events))
  {
    if events != [] {
      var n := |events| - 1;
      forall i | 0 <= i < n
        ensures Spares(HistoryFrom(s, events[..n][..i]), events[..n][i], client, id)
      {
        assert events[..n][..i] == events[..i];
      }
      MissedForever(s, events[..n], client, id);
      EventMisses(HistoryFrom(s, events[..n]), events[n], client, id);
      HappensConsistent(HistoryFrom(s, events[..n]), events[n]);
    }
  }

  lemma HistoryStep(events: seq<Event>, n: nat, s: Server)
    requires n < |events| && History(events[..n]) == s
    ensures History(events[..n + 1]) == Happens(s, events[n])
  {
    assert events[..n + 1][..n] == events[..n];
  }

  /**
   * Two transactions write one row each for the same user; the later writer commits first, and a
   * client polls in between.
   */
  function Overtaking(first: Row, second: Row): seq<Event> {
    [Join(0, first.user), Write(1, 1, first), Write(2, 2, second), CommitTxn(2), Poll(0, 1), CommitTxn(1)]
  }

  /** Both rows written, neither committed. */
  function BothOpen(first: Row, second: Row): Server {
    Server(map[], 2, map[1 := Image(1, first.(serverSeq := 1)), 2 := Image(2, second.(serverSeq := 2))],
           map[0 := Client(first.user, map[], 0)])
  }

  /** The second committed. */
  function SecondVisible(first: Row, second: Row): Server {
    Server(map[2 := second.(serverSeq := 2)], 2, map[1 := Image(1, first.(serverSeq := 1))],
           map[0 := Client(first.user, map[], 0)])
  }

  lemma WritesOpen(events: seq<Event>, first: Row, second: Row)
    requires |events| > 3 && events[0] == Join(0, first.user) && events[1] == Write(1, 1, first)
             && events[2] == Write(2, 2, second)
    ensures History(events[..3]) == BothOpen(first, second)
  {
    var joined := Server(map[], 0, map[], map[0 := Client(first.user, map[], 0)]);
    HistoryStep(events, 0, Empty());
    assert History(events[..1]) == joined;
    HistoryStep(events, 1, joined);
    var one := joined.(seqValue := 1, pending := map[1 := Image(1, first.(serverSeq := 1))]);
    assert History(events[..2]) == one;
    HistoryStep(events, 2, one);
  }

  lemma SecondCommits(first: Row, second: Row)
    ensures Happens(BothOpen(first, second), CommitTxn(2)) == SecondVisible(first, second)
  {
    assert WrittenBy(BothOpen(first, second), 2) == map[2 := second.(serverSeq := 2)];
  }

  lemma FirstCommits(s: Server, first: Row)
    requires s.pending == map[1 := Image(1, first.(serverSeq := 1))]
    ensures Happens(s, CommitTxn(1)).rows == s.rows[1 := first.(serverSeq := 1)]
  {
    assert WrittenBy(s, 1) == map[1 := first.(serverSeq := 1)];
  }

  lemma OnlyRowPolled(rows: Rows, c: Client)
    requires rows.Keys == {2} && rows[2].user == c.user && rows[2].serverSeq > 0
    requires c.mirror == map[] && c.cursor == 0
    ensures var c' := Refresh(c, rows, 1);
            c'.cursor == rows[2].serverSeq && 1 !in c'.mirror && c'.user == c.user
  {
    assert 2 in After(rows, c.user, 0);
    var records := Selected(rows, c.user, 0, 1);
    assert NextAfter(rows, c.user, 0) == 2;
    assert Selected(rows, c.user, rows[2].serverSeq, 0) == [];
    assert records == [Out(2, rows[2])];
    assert StoreAll(map[], records[..0]) == map[];
  }

  /** The second row is visible and polled, the first still open. */
  ghost predicate SecondSeen(s: Server, first: Row, second: Row) {
    && s.rows == map[2 := second.(serverSeq := 2)] && s.pending == map[1 := Image(1, first.(serverSeq := 1))]
    && 0 in s.clients && s.clients[0].user == first.user && s.clients[0].cursor == 2 && 1 !in s.clients[0].mirror
  }

  lemma SecondPolled(s: Server, first: Row, second: Row)
    requires s == SecondVisible(first, second) && first.user == second.user
    ensures SecondSeen(Happens(s, Poll(0, 1)), first, second)
  {
    OnlyRowPolled(s.rows, s.clients[0]);
  }

  lemma SecondIsSeen(events: seq<Event>, first: Row, second: Row)
    requires |events| >= 5 && events[3] == CommitTxn(2) && events[4] == Poll(0, 1)
    requires History(events[..3]) == BothOpen(first, second) && first.user == second.user
    ensures SecondSeen(History(events[..5]), first, second)
  {
    HistoryStep(events, 3, BothOpen(first, second));
    SecondCommits(first, second);
    HistoryStep(events, 4, SecondVisible(first, second));
    SecondPolled(SecondVisible(first, second), first, second);
  }

  lemma FirstIsMissed(events: seq<Event>, first: Row, second: Row)
    requires |events| == 6 && events[5] == CommitTxn(1) && SecondSeen(History(events[..5]), first, second)
    ensures Missed(History(events), 0, 1)
  {
    var s := History(events[..5]);
    HistoryStep(events, 5, s);
    FirstCommits(s, first);
    assert events[..6] == events;
  }

  /** The ordering hypothesis is needed: this client is past a row of its user that it does not hold, and stays so. */
  lemma OvertakenCommitIsMissed(first: Row, second: Row, later: seq<Event>)
    requires first.user == second.user
    requires forall i | 0 <= i < |later| ::
             Spares(HistoryFrom(History(Overtaking(first, second)), later[..i]), later[i], 0, 1)
    ensures Missed(History(Overtaking(first, second)), 0, 1)
    ensures Missed(HistoryFrom(History(Overtaking(first, second)), later), 0, 1)
  {
    var events := Overtaking(first, second);
    HistoryConsistent(events);
    WritesOpen(events, first, second);
    SecondIsSeen(events, first, second);
    FirstIsMissed(events, first, second);
    MissedForever(History(events), later, 0, 1);
  }
}
