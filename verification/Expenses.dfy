/**
 * The tables the sync protocol writes, and the SQL statements that write them as functions on
 * their contents: the guarded upsert of app/api/v1/sync.py, the usage counter of
 * app/services/metering/usage.py, and the trigger that stamps every row write.
 */
module Expenses {
  import opened Prelude
  import opened Converter

  type ExpenseId = nat
  type Period = string
  type Timestamp = int

  /** The columns a client may set on an upsert. */
  datatype Columns = Columns(
    amountOriginal: real,
    currencyOriginal: Currency,
    category: Option<string>,
    paymentMethod: Option<string>,
    merchant: Option<string>,
    note: Option<string>,
    spentAt: Timestamp,
    clientRev: nat,
    rawTranscript: Option<string>,
    deletedAt: Option<Timestamp>)

  /** A well-formed pushed record. */
  datatype Record = Record(id: ExpenseId, device: DeviceId, cols: Columns)

  datatype Row = Row(
    user: UserId,
    device: DeviceId,
    cols: Columns,
    amountBase: Option<real>,
    currencyBase: Option<Currency>,
    createdAt: Timestamp,
    serverSeq: nat)

  type Rows = map<ExpenseId, Row>
  type Usage = map<(UserId, Period), nat>

  /** expenses, the last value drawn from expenses_sync_seq, usage_counters, users.base_currency. */
  datatype Tables = Tables(rows: Rows, seqValue: nat, usage: Usage, base: map<UserId, Currency>)

  /** The server's clocks at a write: the metering period and the database's now(). */
  datatype Clock = Clock(period: Period, now: Timestamp)

  /**
   * The trigger: a row reaches the table stamped with the newest value of the sequence. A write
   * that drew more than one value stores the last.
   */
  function StampedWrite(db: Tables, id: ExpenseId, row: Row, draws: nat): Tables {
    var stamp := db.seqValue + draws;
    db.(rows := db.rows[id := row.(serverSeq := stamp)], seqValue := stamp)
  }

  // ----- the upsert statement -----------------------------------------------------------------

  /** The row is absent, or its stored revision is lower: the only records the statement applies. */
  predicate Applies(rows: Rows, rec: Record) {
    rec.id in rows ==> rows[rec.id].cols.clientRev < rec.cols.clientRev
  }

  /** The edit changes one of the three columns amount_base is computed from. */
  predicate AmountBaseIsStale(old_: Columns, new_: Columns) {
    || old_.amountOriginal != new_.amountOriginal
    || old_.currencyOriginal != new_.currencyOriginal
    || old_.spentAt != new_.spentAt
  }

  /**
   * One row of INSERT ... ON CONFLICT (id) DO UPDATE ... WHERE stored rev < pushed rev. The
   * insert trigger draws a sequence value before the conflict is seen, so a row that is already
   * there costs that value, and a second one if the update goes ahead.
   */
  function UpsertOne(db: Tables, user: UserId, rec: Record, now: Timestamp): Tables {
    if rec.id !in db.rows then
      StampedWrite(db, rec.id, Row(user, rec.device, rec.cols, None, None, now, 0), 1)
    else if Applies(db.rows, rec) then
      StampedWrite(db, rec.id, Edited(db.rows[rec.id], rec.cols), 2)
    else
      db.(seqValue := db.seqValue + 1)
  }

  /** The SET clause: the client's columns, and the derived ones nulled when they no longer follow. */
  function Edited(row: Row, cols: Columns): Row {
    var stale := AmountBaseIsStale(row.cols, cols);
    row.(cols := cols,
         amountBase := if stale then None else row.amountBase,
         currencyBase := if stale then None else row.currencyBase)
  }

  function UpsertAll(db: Tables, user: UserId, recs: seq<Record>, now: Timestamp): Tables
    decreases |recs|
  {
    if recs == [] then db else UpsertAll(UpsertOne(db, user, recs[0], now), user, recs[1..], now)
  }

  /** A row of RETURNING id, server_seq, (xmax = 0). */
  datatype Returned = Returned(id: ExpenseId, serverSeq: nat, wasInserted: bool)

  function Returning(db: Tables, user: UserId, recs: seq<Record>, now: Timestamp): seq<Returned>
    decreases |recs|
  {
    if recs == [] then []
    else
      var rec := recs[0];
      var db' := UpsertOne(db, user, rec, now);
      var rest := Returning(db', user, recs[1..], now);
      if Applies(db.rows, rec) then [Returned(rec.id, db'.rows[rec.id].serverSeq, rec.id !in db.rows)] + rest else rest
  }

  function CountInserted(returned: seq<Returned>): nat {
    if returned == [] then 0 else (if returned[0].wasInserted then 1 else 0) + CountInserted(returned[1..])
  }

  /** INSERT ... ON CONFLICT (user_id, period) DO UPDATE SET log_count = log_count + n, for n > 0. */
  function IncrementUsage(usage: Usage, user: UserId, period: Period, n: nat): Usage {
    if n == 0 then usage else usage[(user, period) := UsageCount(usage, user, period) + n]
  }

  function UsageCount(usage: Usage, user: UserId, period: Period): nat {
    if (user, period) in usage then usage[(user, period)] else 0
  }

  /** The write half of a push: upsert, count the inserted rows, commit. */
  function CommitUpsert(db: Tables, user: UserId, recs: seq<Record>, clock: Clock): Tables {
    var upserted := UpsertAll(db, user, recs, clock.now);
    var inserted := CountInserted(Returning(db, user, recs, clock.now));
    upserted.(usage := IncrementUsage(db.usage, user, clock.period, inserted))
  }

  /** Distinct ids, without which ON CONFLICT would be asked to touch one row twice. */
  ghost predicate DistinctIds(recs: seq<Record>) {
    forall i, j | 0 <= i < j < |recs| :: recs[i].id != recs[j].id
  }

  // ----- the writes that enrich rows -----------------------------------------------------------

  /** UPDATE of one row's derived columns; the trigger stamps it. */
  function WriteAmountBase(db: Tables, id: ExpenseId, amount: Option<real>, currency: Option<Currency>): Tables
    requires id in db.rows
  {
    StampedWrite(db, id, db.rows[id].(amountBase := amount, currencyBase := currency), 1)
  }

  /** Rows an UPDATE over a set of ids touches get distinct stamps in some order. */
  ghost predicate StampsOf(ids: set<ExpenseId>, from: nat, stamps: map<ExpenseId, nat>) {
    && stamps.Keys == ids
    && (forall id | id in ids :: from < stamps[id] <= from + |ids|)
    && (forall a, b | a in ids && b in ids && a != b :: stamps[a] != stamps[b])
  }

  function Enriched(rows: Rows, user: UserId): set<ExpenseId> {
    set id | id in rows && rows[id].user == user && rows[id].amountBase.Some?
  }

  /** UPDATE expenses SET amount_base = NULL, currency_base = NULL for one user's enriched rows. */
  function NullAmountBase(db: Tables, user: UserId, stamps: map<ExpenseId, nat>): Tables
    requires Enriched(db.rows, user) <= stamps.Keys
  {
    var ids := Enriched(db.rows, user);
    var rows := map id | id in db.rows ::
      if id in ids then db.rows[id].(amountBase := None, currencyBase := None, serverSeq := stamps[id])
      else db.rows[id];
    db.(rows := rows, seqValue := db.seqValue + |ids|)
  }

  // ----- what every write keeps -----------------------------------------------------------------

  /** Stamps are unique and none exceeds the last value drawn. */
  ghost predicate Stamped(db: Tables) {
    && (forall id | id in db.rows :: 0 < db.rows[id].serverSeq <= db.seqValue)
    && (forall a, b | a in db.rows && b in db.rows && a != b :: db.rows[a].serverSeq != db.rows[b].serverSeq)
  }

  /**
   * A write's effect as readers see it: no row is lost, every row succeeds itself, and a row that
   * changed at all carries a stamp newer than everything stamped before.
   */
  ghost predicate Advances(db: Tables, db': Tables) {
    && db.seqValue <= db'.seqValue
    && (forall id | id in db.rows :: id in db'.rows && Succeeds(db.rows[id], db'.rows[id]))
    && (forall id | id in db'.rows ::
          (id in db.rows && db'.rows[id] == db.rows[id]) || db.seqValue < db'.rows[id].serverSeq)
  }

  /** A later state of the same row: owner, creating device and creation time stay, the revision never falls. */
  ghost predicate Succeeds(row: Row, row': Row) {
    && row'.user == row.user && row'.device == row.device && row'.createdAt == row.createdAt
    && row.cols.clientRev <= row'.cols.clientRev
  }

  /** No row is lost or changes owner. */
  ghost predicate KeepsRows(rows: Rows, rows': Rows) {
    forall id | id in rows :: id in rows' && rows'[id].user == rows[id].user
  }

  lemma AdvancesTransitive(a: Tables, b: Tables, c: Tables)
    requires Advances(a, b) && Advances(b, c)
    ensures Advances(a, c)
  {
    forall id | id in a.rows
      ensures id in c.rows && Succeeds(a.rows[id], c.rows[id])
    {
      assert id in b.rows && Succeeds(a.rows[id], b.rows[id]);
    }
  }

  lemma StampedWriteAdvances(db: Tables, id: ExpenseId, row: Row, draws: nat)
    requires Stamped(db) && draws > 0
    requires id in db.rows ==> Succeeds(db.rows[id], row)
    ensures var db' := StampedWrite(db, id, row, draws); Stamped(db') && Advances(db, db')
  {
  }

  lemma UpsertOneAdvances(db: Tables, user: UserId, rec: Record, now: Timestamp)
    requires Stamped(db)
    ensures var db' := UpsertOne(db, user, rec, now);
            && Stamped(db') && Advances(db, db')
            && db'.usage == db.usage && db'.base == db.base
  {
    if rec.id !in db.rows {
      StampedWriteAdvances(db, rec.id, Row(user, rec.device, rec.cols, None, None, now, 0), 1);
    } else if Applies(db.rows, rec) {
      StampedWriteAdvances(db, rec.id, Edited(db.rows[rec.id], rec.cols), 2);
    }
  }

  lemma {:induction false} UpsertAdvances(db: Tables, user: UserId, recs: seq<Record>, now: Timestamp)
    requires Stamped(db)
    ensures var db' := UpsertAll(db, user, recs, now);
            && Stamped(db') && Advances(db, db')
            && db'.usage == db.usage && db'.base == db.base
    decreases |recs|
  {
    if recs != [] {
      var next := UpsertOne(db, user, recs[0], now);
      UpsertOneAdvances(db, user, recs[0], now);
      UpsertAdvances(next, user, recs[1..], now);
      AdvancesTransitive(db, next, UpsertAll(next, user, recs[1..], now));
    }
  }

  lemma WriteAmountBaseAdvances(db: Tables, id: ExpenseId, amount: Option<real>, currency: Option<Currency>)
    requires Stamped(db) && id in db.rows
    ensures var db' := WriteAmountBase(db, id, amount, currency); Stamped(db') && Advances(db, db')
  {
    StampedWriteAdvances(db, id, db.rows[id].(amountBase := amount, currencyBase := currency), 1);
  }

  /** The user's rows that hold an amount lose both derived columns and get new stamps; no other row changes. */
  ghost predicate NullOutcome(row: Row, row': Row, user: UserId, before: nat, after: nat) {
    if row.user == user && row.amountBase.Some? then
      && row' == row.(amountBase := None, currencyBase := None, serverSeq := row'.serverSeq)
      && before < row'.serverSeq <= after
    else row' == row
  }

  /** The statement for every row, and one sequence value drawn for each row it touches. */
  lemma NullAmountBaseExact(db: Tables, user: UserId, stamps: map<ExpenseId, nat>)
    requires StampsOf(Enriched(db.rows, user), db.seqValue, stamps)
    ensures var db' := NullAmountBase(db, user, stamps);
            && db'.rows.Keys == db.rows.Keys && db'.usage == db.usage && db'.base == db.base
            && (forall id | id in db.rows :: NullOutcome(db.rows[id], db'.rows[id], user, db.seqValue, db'.seqValue))
            && db'.seqValue - db.seqValue
               == |set id | id in db.rows && db.rows[id].user == user && db.rows[id].amountBase.Some?|
  {
    assert Enriched(db.rows, user)
           == set id | id in db.rows && db.rows[id].user == user && db.rows[id].amountBase.Some?;
  }

  lemma NullAmountBaseAdvances(db: Tables, user: UserId, stamps: map<ExpenseId, nat>)
    requires Stamped(db) && StampsOf(Enriched(db.rows, user), db.seqValue, stamps)
    ensures var db' := NullAmountBase(db, user, stamps); Stamped(db') && Advances(db, db')
  {
    var db' := NullAmountBase(db, user, stamps);
    var ids := Enriched(db.rows, user);
    assert |ids| >= 0;
  }

  // ----- what the upsert does to one row ---------------------------------------------------------

  /** The statement leaves the rows of other ids alone. */
  lemma {:induction false} UpsertTouchesOnlyItsIds(db: Tables, user: UserId, recs: seq<Record>, now: Timestamp,
                                                   id: ExpenseId)
    requires forall i | 0 <= i < |recs| :: recs[i].id != id
    ensures var db' := UpsertAll(db, user, recs, now);
            (id in db'.rows <==> id in db.rows) && (id in db.rows ==> db'.rows[id] == db.rows[id])
    decreases |recs|
  {
    if recs != [] {
      UpsertTouchesOnlyItsIds(UpsertOne(db, user, recs[0], now), user, recs[1..], now, id);
    }
  }

  /** What a record does to its row, stated on the rows before and after the whole statement. */
  ghost predicate RecordOutcome(db: Tables, db': Tables, user: UserId, rec: Record, now: Timestamp) {
    && rec.id in db'.rows
    && if !Applies(db.rows, rec) then db'.rows[rec.id] == db.rows[rec.id]
       else
         && db.seqValue < db'.rows[rec.id].serverSeq <= db'.seqValue
         && if rec.id in db.rows then EditOutcome(db.rows[rec.id], db'.rows[rec.id], rec)
            else InsertOutcome(db'.rows[rec.id], user, rec, now)
  }

  /** Created when the statement ran, whatever dates the client's columns hold. */
  ghost predicate InsertOutcome(row: Row, user: UserId, rec: Record, now: Timestamp) {
    && row.user == user && row.device == rec.device && row.cols == rec.cols && row.createdAt == now
    && row.amountBase == None && row.currencyBase == None
  }

  /**
   * The client's columns replaced, owner, creating device and creation time kept; the derived ones
   * kept too when amount, currency and date of the expense are as before, and dropped otherwise.
   */
  ghost predicate EditOutcome(row: Row, row': Row, rec: Record) {
    && row'.cols == rec.cols
    && Succeeds(row, row')
    && if row.cols.amountOriginal == rec.cols.amountOriginal && row.cols.spentAt == rec.cols.spentAt
          && row.cols.currencyOriginal == rec.cols.currencyOriginal
       then row'.amountBase == row.amountBase && row'.currencyBase == row.currencyBase
       else row'.amountBase == None && row'.currencyBase == None
  }

  lemma FirstOutcome(db: Tables, user: UserId, recs: seq<Record>, now: Timestamp)
    requires DistinctIds(recs) && recs != [] && Stamped(db)
    ensures RecordOutcome(db, UpsertAll(db, user, recs, now), user, recs[0], now)
  {
    var next, rest := UpsertOne(db, user, recs[0], now), recs[1..];
    UpsertOneAdvances(db, user, recs[0], now);
    UpsertAdvances(next, user, rest, now);
    UpsertTouchesOnlyItsIds(next, user, rest, now, recs[0].id);
  }

  lemma {:induction false} UpsertOutcome(db: Tables, user: UserId, recs: seq<Record>, now: Timestamp, i: nat)
    requires DistinctIds(recs) && i < |recs| && Stamped(db)
    ensures RecordOutcome(db, UpsertAll(db, user, recs, now), user, recs[i], now)
    decreases |recs|
  {
    if i == 0 {
      FirstOutcome(db, user, recs, now);
    } else {
      var next, rest := UpsertOne(db, user, recs[0], now), recs[1..];
      assert rest[i - 1] == recs[i];
      UpsertOneAdvances(db, user, recs[0], now);
      OtherRowsAgree(db, user, recs[0], now, recs[i].id);
      UpsertOutcome(next, user, rest, now, i - 1);
    }
  }

  lemma OtherRowsAgree(db: Tables, user: UserId, rec: Record, now: Timestamp, id: ExpenseId)
    requires rec.id != id
    ensures var db' := UpsertOne(db, user, rec, now);
            && (id in db'.rows <==> id in db.rows)
            && (id in db.rows ==> db'.rows[id] == db.rows[id])
            && db.seqValue < db'.seqValue
  {
  }

  lemma {:induction false} ReturnedIds(db: Tables, user: UserId, recs: seq<Record>, now: Timestamp, r: Returned)
    requires r in Returning(db, user, recs, now)
    ensures exists i :: 0 <= i < |recs| && recs[i].id == r.id
    decreases |recs|
  {
    var next, rest := UpsertOne(db, user, recs[0], now),
        Returning(UpsertOne(db, user, recs[0], now), user, recs[1..], now);
    if r in rest {
      ReturnedIds(next, user, recs[1..], now, r);
      var k :| 0 <= k < |recs[1..]| && recs[1..][k].id == r.id;
      assert recs[k + 1].id == r.id;
    } else {
      assert recs[0].id == r.id;
    }
  }

  /** Whether RETURNING has a row for this id, and with which stamp and insert flag. */
  ghost predicate ReturnedAs(returned: seq<Returned>, id: ExpenseId, applied: bool, stamp: nat, inserted: bool) {
    && (applied ==> Returned(id, stamp, inserted) in returned)
    && (forall r | r in returned && r.id == id :: applied && r == Returned(id, stamp, inserted))
  }

  /** RETURNING lists exactly the applied records, with the stamps they are stored under. */
  lemma {:induction false} ReturningExact(db: Tables, user: UserId, recs: seq<Record>, now: Timestamp, i: nat)
    requires DistinctIds(recs) && i < |recs| && Stamped(db)
    ensures recs[i].id in UpsertAll(db, user, recs, now).rows
    ensures ReturnedAs(Returning(db, user, recs, now), recs[i].id, Applies(db.rows, recs[i]),
                       UpsertAll(db, user, recs, now).rows[recs[i].id].serverSeq, recs[i].id !in db.rows)
    decreases |recs|
  {
    var next, rest := UpsertOne(db, user, recs[0], now), recs[1..];
    UpsertOneAdvances(db, user, recs[0], now);
    UpsertOutcome(db, user, recs, now, i);
    if i == 0 {
      UpsertTouchesOnlyItsIds(next, user, rest, now, recs[0].id);
      forall r | r in Returning(next, user, rest, now)
        ensures r.id != recs[0].id
      {
        ReturnedIds(next, user, rest, now, r);
        var k :| 0 <= k < |rest| && rest[k].id == r.id;
        assert recs[k + 1].id == r.id;
      }
    } else {
      assert rest[i - 1] == recs[i];
      OtherRowsAgree(db, user, recs[0], now, recs[i].id);
      ReturningExact(next, user, rest, now, i - 1);
    }
  }

  // ----- the sequence ------------------------------------------------------------------------------

  /**
   * Every record of a batch draws a value before its conflict is seen, and every row updated draws
   * another: a stale replay is not free, and stamps have gaps.
   */
  lemma {:induction false} SequenceDraws(db: Tables, user: UserId, recs: seq<Record>, now: Timestamp)
    ensures var returned := Returning(db, user, recs, now);
            UpsertAll(db, user, recs, now).seqValue == db.seqValue + |recs| + |returned| - CountInserted(returned)
    decreases |recs|
  {
    if recs != [] {
      var next := UpsertOne(db, user, recs[0], now);
      var rest := Returning(next, user, recs[1..], now);
      SequenceDraws(next, user, recs[1..], now);
      if Applies(db.rows, recs[0]) {
        var first := Returned(recs[0].id, next.rows[recs[0].id].serverSeq, recs[0].id !in db.rows);
        assert ([first] + rest)[1..] == rest;
      }
    }
  }

  /**
   * An applied record's row keeps the last value the statement has drawn by then: one for each
   * record so far, and one more for each of them that updated a row.
   */
  lemma {:induction false} StampIsLastDrawn(db: Tables, user: UserId, recs: seq<Record>, now: Timestamp, i: nat)
    requires DistinctIds(recs) && i < |recs| && Stamped(db) && Applies(db.rows, recs[i])
    ensures var returned := Returning(db, user, recs[..i + 1], now);
            && recs[i].id in UpsertAll(db, user, recs, now).rows
            && UpsertAll(db, user, recs, now).rows[recs[i].id].serverSeq
               == db.seqValue + (i + 1) + |returned| - CountInserted(returned)
    decreases |recs|
  {
    var next, rest := UpsertOne(db, user, recs[0], now), recs[1..];
    UpsertOneAdvances(db, user, recs[0], now);
    SequenceDraws(db, user, recs[..i + 1], now);
    if i == 0 {
      UpsertTouchesOnlyItsIds(next, user, rest, now, recs[0].id);
      assert recs[..1][1..] == [];
    } else {
      OtherRowsAgree(db, user, recs[0], now, recs[i].id);
      StampIsLastDrawn(next, user, rest, now, i - 1);
      SequenceDraws(next, user, rest[..i], now);
      assert recs[..i + 1][1..] == rest[..i];
    }
  }

  /** The trigger can always stamp a set of rows. */
  lemma {:induction false} StampsExist(ids: set<ExpenseId>, from: nat)
    ensures exists stamps :: StampsOf(ids, from, stamps)
  {
    if ids == {} {
      assert StampsOf({}, from, map[]);
    } else {
      var id := Pick(ids);
      StampsExist(ids - {id}, from);
      var stamps :| StampsOf(ids - {id}, from, stamps);
      assert StampsOf(ids, from, stamps[id := from + |ids|]);
    }
  }
}
