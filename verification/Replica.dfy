/**
 * A client that stores pulled rows by id and follows next_cursor, against the state machine: it
 * holds the server's rows up to its cursor, and all of them after a page with has_more = false.
 */
module Replica {
  import opened Prelude
  import opened Converter
  import opened Expenses
  import opened PushValidation
  import opened PullPages
  import opened Machine

  datatype Client = Client(user: UserId, mirror: Rows, cursor: nat)

  /** Stores a page's records by id. */
  function StoreAll(mirror: Rows, records: seq<Out>): Rows {
    if records == [] then mirror
    else
      var n := |records| - 1;
      StoreAll(mirror, records[..n])[records[n].id := records[n].row]
  }

  function Refresh(c: Client, rows: Rows, limit: nat): Client
    requires DistinctStamps(rows)
  {
    var page := Pulled(rows, c.user, c.cursor, limit);
    Client(c.user, StoreAll(c.mirror, page.records), page.nextCursor)
  }

  function Slice(rows: Rows, user: UserId): Rows {
    map id | id in rows && rows[id].user == user :: rows[id]
  }

  /**
   * Up to its cursor the client holds exactly the server's current rows, and it holds no row that
   * is not the user's.
   */
  ghost predicate Synced(rows: Rows, c: Client) {
    && (forall id | id in rows && rows[id].user == c.user && rows[id].serverSeq <= c.cursor ::
          id in c.mirror && c.mirror[id] == rows[id])
    && (forall id | id in c.mirror :: id in rows && rows[id].user == c.user)
  }

  ghost predicate HasRecord(records: seq<Out>, id: ExpenseId) { exists k :: 0 <= k < |records| && records[k].id == id }

  lemma {:induction false} StoreAllAt(mirror: Rows, records: seq<Out>, rows: Rows, id: ExpenseId)
    requires forall k | 0 <= k < |records| :: records[k].id in rows && records[k].row == rows[records[k].id]
    ensures var stored := StoreAll(mirror, records);
            if HasRecord(records, id) then id in stored && id in rows && stored[id] == rows[id]
            else (id in stored <==> id in mirror) && (id in mirror ==> stored[id] == mirror[id])
  {
    if records != [] {
      var n := |records| - 1;
      StoreAllAt(mirror, records[..n], rows, id);
      if HasRecord(records[..n], id) {
        var k :| 0 <= k < n && records[..n][k].id == id;
        assert records[k].id == id;
      }
      if HasRecord(records, id) && records[n].id != id {
        var k :| 0 <= k < n && records[k].id == id;
        assert records[..n][k].id == id;
      }
    }
  }

  /** What the client holds for an id after storing a page that lists the user's rows stamped in (since, until]. */
  lemma StoredPage(rows: Rows, c: Client, records: seq<Out>, until: nat, id: ExpenseId)
    requires Listing(rows, c.user, c.cursor, until, records) && Synced(rows, c)
    ensures var mirror := StoreAll(c.mirror, records);
            && (id in mirror ==> id in rows && rows[id].user == c.user)
            && (id in rows && rows[id].user == c.user && rows[id].serverSeq <= until
                ==> id in mirror && mirror[id] == rows[id])
  {
    StoreAllAt(c.mirror, records, rows, id);
    if id in After(rows, c.user, c.cursor) && rows[id].serverSeq <= until {
      var k :| 0 <= k < |records| && records[k] == Out(id, rows[id]);
      assert records[k].id == id;
    }
  }

  lemma PageSyncs(rows: Rows, c: Client, limit: nat)
    requires DistinctStamps(rows) && Synced(rows, c)
    ensures var c' := Refresh(c, rows, limit);
            Synced(rows, c') && c.cursor <= c'.cursor
  {
    var records := Selected(rows, c.user, c.cursor, limit);
    var until := LastSeq(records, c.cursor);
    SelectedLists(rows, c.user, c.cursor, limit);
    forall id
      ensures var mirror := StoreAll(c.mirror, records);
              && (id in mirror ==> id in rows && rows[id].user == c.user)
              && (id in rows && rows[id].user == c.user && rows[id].serverSeq <= until
                  ==> id in mirror && mirror[id] == rows[id])
    {
      StoredPage(rows, c, records, until, id);
    }
  }

  /** Nothing past its cursor is left for the client, so what it holds is everything. */
  lemma SyncedToTheEnd(rows: Rows, c: Client)
    requires Synced(rows, c) && After(rows, c.user, c.cursor) == {}
    ensures c.mirror == Slice(rows, c.user)
  {
    forall id | id in rows && rows[id].user == c.user
      ensures id in c.mirror && c.mirror[id] == rows[id]
    {
      assert id !in After(rows, c.user, c.cursor);
    }
  }

  /** Pulling a page keeps the client in sync, and a page with has_more = false makes it the user's whole slice. */
  lemma PullSyncs(rows: Rows, c: Client, limit: nat)
    requires DistinctStamps(rows) && Synced(rows, c)
    ensures var c' := Refresh(c, rows, limit);
            && Synced(rows, c') && c.cursor <= c'.cursor
            && (!Pulled(rows, c.user, c.cursor, limit).hasMore ==> c'.mirror == Slice(rows, c.user))
  {
    PageSyncs(rows, c, limit);
    SelectedLists(rows, c.user, c.cursor, limit);
    SelectedSize(rows, c.user, c.cursor, limit);
    if !Pulled(rows, c.user, c.cursor, limit).hasMore {
      SyncedToTheEnd(rows, Refresh(c, rows, limit));
    }
  }

  /** Rows of the user that a change of the table adds or replaces. */
  ghost predicate ChangedRow(rows: Rows, rows': Rows, id: ExpenseId) {
    id in rows' && (id in rows ==> rows[id] != rows'[id])
  }

  ghost predicate PastCursor(rows: Rows, rows': Rows, c: Client) {
    forall id | ChangedRow(rows, rows', id) && rows'[id].user == c.user :: c.cursor < rows'[id].serverSeq
  }

  /** A changed row's stamp was never handed out before, so the client cannot hold it already. */
  ghost predicate NewStamps(rows: Rows, rows': Rows, c: Client) {
    forall id | ChangedRow(rows, rows', id) && id in c.mirror :: c.mirror[id].serverSeq != rows'[id].serverSeq
  }

  /**
   * A change of the table keeps a client in sync exactly when every changed row of its user is
   * stamped past its cursor.
   */
  lemma ChangeSyncedIff(rows: Rows, rows': Rows, c: Client)
    requires Synced(rows, c) && KeepsRows(rows, rows') && NewStamps(rows, rows', c)
    ensures Synced(rows', c) <==> PastCursor(rows, rows', c)
  {
    if Synced(rows', c) {
      forall id | ChangedRow(rows, rows', id) && rows'[id].user == c.user
        ensures c.cursor < rows'[id].serverSeq
      {
        assert id in c.mirror ==> c.mirror[id].serverSeq != rows'[id].serverSeq;
      }
    }
    if PastCursor(rows, rows', c) { AdvanceSyncs(rows, rows', c); }
  }

  lemma AdvanceSyncs(rows: Rows, rows': Rows, c: Client)
    requires Synced(rows, c) && KeepsRows(rows, rows') && PastCursor(rows, rows', c)
    ensures Synced(rows', c)
  {
    forall id | id in rows' && rows'[id].user == c.user && rows'[id].serverSeq <= c.cursor
      ensures id in c.mirror && c.mirror[id] == rows'[id]
    {
      assert !ChangedRow(rows, rows', id);
    }
  }

  // ----- the state machine with its clients -------------------------------------------------------------

  type ClientId = nat

  datatype World = World(m: System, clients: map<ClientId, Client>)

  datatype WorldStep =
    | Backend(step: Step)
    | Install(client: ClientId, user: UserId)
    | Pull(client: ClientId, limit: nat)

  ghost function WorldStepOf(w: World, devices: Devices, step: WorldStep): World
    requires Inv(w.m)
  {
    match step
    case Backend(s) => w.(m := StepOf(w.m, devices, s))
    case Install(client, user) => w.(clients := w.clients[client := Client(user, map[], 0)])
    case Pull(client, limit) =>
      if client in w.clients && limit >= 1
      then w.(clients := w.clients[client := Refresh(w.clients[client], w.m.db.rows, limit)])
      else w
  }

  ghost predicate WorldInv(w: World) {
    Inv(w.m) && forall k | k in w.clients :: Synced(w.m.db.rows, w.clients[k]) && w.clients[k].cursor <= w.m.db.seqValue
  }

  lemma CursorIsAStamp(db: Tables, c: Client, limit: nat)
    requires Stamped(db) && c.cursor <= db.seqValue
    ensures Refresh(c, db.rows, limit).cursor <= db.seqValue
  {
    var records := Selected(db.rows, c.user, c.cursor, limit);
    if records != [] { SelectedMember(db.rows, c.user, c.cursor, limit, |records| - 1); }
  }

  lemma PullStepSynced(w: World, devices: Devices, client: ClientId, limit: nat)
    requires WorldInv(w)
    ensures WorldInv(WorldStepOf(w, devices, Pull(client, limit)))
  {
    if client in w.clients && limit >= 1 {
      PullSyncs(w.m.db.rows, w.clients[client], limit);
      CursorIsAStamp(w.m.db, w.clients[client], limit);
    }
  }

  lemma WorldStepSynced(w: World, devices: Devices, step: WorldStep)
    requires WorldInv(w)
    ensures WorldInv(WorldStepOf(w, devices, step))
  {
    match step
    case Backend(s) =>
      StepAdvances(w.m, devices, s);
      var db, db' := w.m.db, StepOf(w.m, devices, s).db;
      forall k | k in w.clients
        ensures Synced(db'.rows, w.clients[k])
      {
        AdvanceSyncs(db.rows, db'.rows, w.clients[k]);
      }
    case Install(_, _) =>
    case Pull(client, limit) => PullStepSynced(w, devices, client, limit);
  }

  ghost function WorldRun(w: World, devices: Devices, steps: seq<WorldStep>): (w': World)
    requires WorldInv(w)
    ensures WorldInv(w')
  {
    if steps == [] then w
    else
      var before := WorldRun(w, devices, steps[..|steps| - 1]);
      WorldStepSynced(before, devices, steps[|steps| - 1]);
      WorldStepOf(before, devices, steps[|steps| - 1])
  }

  /**
   * Over every interleaving of pushes, sweeps, null sweeps, base changes and pulls of any number of
   * clients, each client is in sync up to its cursor; and a pull that answers has_more = false
   * leaves it with the user's whole slice, tombstones included.
   */
  lemma ReplicasConverge(base: map<UserId, Currency>, devices: Devices, steps: seq<WorldStep>, client: ClientId,
                         limit: nat)
    requires client in WorldRun(World(Initial(base), map[]), devices, steps).clients && limit >= 1
    ensures var w := WorldRun(World(Initial(base), map[]), devices, steps);
            var c := w.clients[client];
            && Synced(w.m.db.rows, c)
            && (!Pulled(w.m.db.rows, c.user, c.cursor, limit).hasMore ==>
                  WorldStepOf(w, devices, Pull(client, limit)).clients[client].mirror == Slice(w.m.db.rows, c.user))
  {
    var w := WorldRun(World(Initial(base), map[]), devices, steps);
    PullSyncs(w.m.db.rows, w.clients[client], limit);
  }
}
