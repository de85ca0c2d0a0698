/**
 * app/services/fx/recompute.py: the bounded sweep that fills expenses.amount_base where it is
 * NULL, and how fast repeated sweeps drain the backlog.
 */
module Sweep {
  import opened Prelude
  import opened Converter
  import opened Expenses

  const MICROSECONDS_PER_DAY := 86400000000
  const FX_RECOMPUTE_BATCH: nat := 500

  /** spent_at.date() of a UTC timestamp in microseconds. */
  function DateOf(t: Timestamp): Date { t / MICROSECONDS_PER_DAY }

  /** `limit or settings.FX_RECOMPUTE_BATCH`: zero counts as absent. */
  function EffectiveLimit(limit: Option<nat>): (n: nat)
    ensures n > 0
    ensures limit.Some? && limit.value > 0 ==> n == limit.value
    ensures limit == None || limit == Some(0) ==> n == 500
  {
    if limit.Some? && limit.value != 0 then limit.value else FX_RECOMPUTE_BATCH
  }

  // ----- the query --------------------------------------------------------------------------------

  /** Live rows without amount_base, joined to their user; optionally one user's only. */
  predicate Waiting(db: Tables, who: Option<UserId>, id: ExpenseId) {
    && id in db.rows
    && db.rows[id].amountBase.None? && db.rows[id].cols.deletedAt.None?
    && db.rows[id].user in db.base
    && (who.Some? ==> db.rows[id].user == who.value)
  }

  function Backlog(db: Tables, who: Option<UserId>): set<ExpenseId> {
    set id | id in db.rows && Waiting(db, who, id)
  }

  ghost predicate NoRepeats(ids: seq<ExpenseId>) {
    forall i, j | 0 <= i < j < |ids| :: ids[i] != ids[j]
  }

  function IdSet(ids: seq<ExpenseId>): set<ExpenseId> { set id | id in ids }

  /** A result of ORDER BY created_at LIMIT limit; rows created together may come in any order. */
  ghost predicate IsBatch(db: Tables, who: Option<UserId>, limit: nat, batch: seq<ExpenseId>) {
    var backlog := Backlog(db, who);
    && NoRepeats(batch)
    && |batch| == Min(limit, |backlog|)
    && (forall i | 0 <= i < |batch| :: batch[i] in backlog)
    && (forall i, j | 0 <= i < j < |batch| :: db.rows[batch[i]].createdAt <= db.rows[batch[j]].createdAt)
    && (forall id, other | id in batch && other in backlog && other !in batch ::
          db.rows[id].createdAt <= db.rows[other].createdAt)
  }

  ghost predicate IsOldest(db: Tables, ids: set<ExpenseId>, id: ExpenseId)
    requires ids <= db.rows.Keys
  {
    id in ids && forall other | other in ids :: db.rows[id].createdAt <= db.rows[other].createdAt
  }

  lemma {:induction false} OldestExists(db: Tables, ids: set<ExpenseId>) returns (oldest: ExpenseId)
    requires ids != {} && ids <= db.rows.Keys
    ensures IsOldest(db, ids, oldest)
  {
    var id := Pick(ids);
    if ids == {id} {
      oldest := id;
    } else {
      var rest := OldestExists(db, ids - {id});
      oldest := if db.rows[id].createdAt <= db.rows[rest].createdAt then id else rest;
      forall other | other in ids
        ensures db.rows[oldest].createdAt <= db.rows[other].createdAt
      {
        assert other == id || other in ids - {id};
      }
    }
  }

  /** The oldest n of a set, oldest first. */
  ghost predicate OldestOf(db: Tables, ids: set<ExpenseId>, n: nat, batch: seq<ExpenseId>)
    requires ids <= db.rows.Keys
  {
    && NoRepeats(batch) && |batch| == n
    && (forall i | 0 <= i < |batch| :: batch[i] in ids)
    && (forall i, j | 0 <= i < j < |batch| :: db.rows[batch[i]].createdAt <= db.rows[batch[j]].createdAt)
    && (forall i, other | 0 <= i < |batch| && other in ids && other !in batch ::
          db.rows[batch[i]].createdAt <= db.rows[other].createdAt)
  }

  lemma {:induction false} OldestFirst(db: Tables, ids: set<ExpenseId>, n: nat) returns (batch: seq<ExpenseId>)
    requires ids <= db.rows.Keys && n <= |ids|
    ensures OldestOf(db, ids, n, batch)
    decreases n
  {
    if n == 0 {
      batch := [];
    } else {
      var oldest := OldestExists(db, ids);
      var rest := OldestFirst(db, ids - {oldest}, n - 1);
      batch := [oldest] + rest;
      forall i | 0 <= i < n - 1
        ensures batch[i + 1] == rest[i] && rest[i] in ids - {oldest}
      {
      }
    }
  }

  /** The query always has a result. */
  lemma BatchExists(db: Tables, who: Option<UserId>, limit: nat)
    ensures exists batch :: IsBatch(db, who, limit, batch)
  {
    var backlog := Backlog(db, who);
    var batch := OldestFirst(db, backlog, Min(limit, |backlog|));
    forall id, other | id in batch && other in backlog && other !in batch
      ensures db.rows[id].createdAt <= db.rows[other].createdAt
    {
      var i :| 0 <= i < |batch| && batch[i] == id;
    }
    assert IsBatch(db, who, limit, batch);
  }

  /** One selected row: what the sweep reads of it. */
  datatype Snapshot = Snapshot(id: ExpenseId, amount: real, currency: Currency, spentAt: Timestamp,
                               baseCurrency: Currency)

  function SnapshotOf(db: Tables, id: ExpenseId): Snapshot
    requires id in db.rows && db.rows[id].user in db.base
  {
    var row := db.rows[id];
    Snapshot(id, row.cols.amountOriginal, row.cols.currencyOriginal, row.cols.spentAt, db.base[row.user])
  }

  /** What a sweep's conversions come to under the rates it finds. */
  type Pricing = Snapshot -> Conversion

  function PricedBy(fx: FxTable): Pricing {
    (s: Snapshot) => Convert(fx, s.amount, s.currency, s.baseCurrency, DateOf(s.spentAt))
  }

  /** Rates may change while a sweep runs: each row is converted by those found for it. */
  function PricedAsFound(fx: ExpenseId -> FxTable): Pricing {
    (s: Snapshot) => PricedBy(fx(s.id))(s)
  }

  // ----- the loop ---------------------------------------------------------------------------------

  /** UPDATE ... WHERE id = :id writes by id only, whatever else the row has become. */
  function UpdateById(db: Tables, s: Snapshot, amount: real): Tables {
    if s.id in db.rows then WriteAmountBase(db, s.id, Some(amount), Some(s.baseCurrency)) else db
  }

  /** The loop's state: the tables, the count, and whether a conversion raised. */
  datatype SweepRun = SweepRun(db: Tables, recomputed: nat, raised: bool)

  function SweepNext(run: SweepRun, price: Pricing, s: Snapshot): SweepRun {
    if run.raised then run
    else match price(s)
      case Missing => run
      case Raises => run.(raised := true)
      case Value(amount) => SweepRun(UpdateById(run.db, s, amount), run.recomputed + 1, false)
  }

  function SweepLoop(db: Tables, price: Pricing, selected: seq<Snapshot>): (run: SweepRun)
    ensures run.recomputed <= |selected|
  {
    if selected == [] then SweepRun(db, 0, false)
    else SweepNext(SweepLoop(db, price, selected[..|selected| - 1]), price, selected[|selected| - 1])
  }

  lemma {:induction false} SweepStaysRaised(db: Tables, price: Pricing, selected: seq<Snapshot>, n: nat)
    requires n <= |selected| && SweepLoop(db, price, selected[..n]).raised
    ensures SweepLoop(db, price, selected) == SweepLoop(db, price, selected[..n])
  {
    if n < |selected| {
      var shorter := selected[..|selected| - 1];
      assert shorter[..n] == selected[..n];
      SweepStaysRaised(db, price, shorter, n);
    } else {
      assert selected[..n] == selected;
    }
  }

  lemma SweepRaisesAt(db: Tables, price: Pricing, selected: seq<Snapshot>, i: nat)
    requires i < |selected| && !SweepLoop(db, price, selected[..i]).raised && price(selected[i]).Raises?
    ensures SweepLoop(db, price, selected) == SweepLoop(db, price, selected[..i]).(raised := true)
  {
    assert selected[..i + 1][..i] == selected[..i];
    SweepStaysRaised(db, price, selected, i + 1);
  }

  function Snapshots(db: Tables, batch: seq<ExpenseId>): seq<Snapshot>
    requires forall id | id in batch :: id in db.rows && db.rows[id].user in db.base
  {
    seq(|batch|, i requires 0 <= i < |batch| => SnapshotOf(db, batch[i]))
  }

  datatype RecomputeResult = RecomputeResult(scanned: nat, recomputed: nat, stillMissing: nat)

  /** The transaction commits, or an exception rolls it back; sequence values stay drawn either way. */
  function Settle(before: Tables, run: SweepRun): Tables {
    if run.raised then before.(seqValue := run.db.seqValue) else run.db
  }

  function Swept(db: Tables, price: Pricing, batch: seq<ExpenseId>): Tables
    requires forall id | id in batch :: id in db.rows && db.rows[id].user in db.base
  {
    Settle(db, SweepLoop(db, price, Snapshots(db, batch)))
  }

  // ----- what one sweep does -------------------------------------------------------------------------

  lemma UpdateByIdAdvances(db: Tables, s: Snapshot, amount: real)
    requires Stamped(db)
    ensures var db' := UpdateById(db, s, amount);
            && Stamped(db') && Advances(db, db')
            && db'.rows.Keys == db.rows.Keys && db'.usage == db.usage && db'.base == db.base
  {
    if s.id in db.rows { WriteAmountBaseAdvances(db, s.id, Some(amount), Some(s.baseCurrency)); }
  }

  lemma UpdateByIdStamped(db: Tables, s: Snapshot, amount: real)
    requires Stamped(db)
    ensures var db' := UpdateById(db, s, amount);
            && Stamped(db') && db.seqValue <= db'.seqValue && db'.usage == db.usage && db'.base == db.base
  {
    UpdateByIdAdvances(db, s, amount);
  }

  /** No row added, lost or re-owned, every change stamped anew, no counter or base currency touched. */
  ghost predicate EnrichedOnly(db: Tables, db': Tables) {
    && Stamped(db') && Advances(db, db')
    && db'.rows.Keys == db.rows.Keys && db'.usage == db.usage && db'.base == db.base
  }

  lemma SweepNextAdvances(db: Tables, run: SweepRun, price: Pricing, s: Snapshot)
    requires EnrichedOnly(db, run.db)
    ensures EnrichedOnly(db, SweepNext(run, price, s).db)
  {
    if !run.raised && price(s).Value? {
      UpdateByIdAdvances(run.db, s, price(s).amount);
      AdvancesTransitive(db, run.db, UpdateById(run.db, s, price(s).amount));
    }
  }

  lemma {:induction false} SweepLoopAdvances(db: Tables, price: Pricing, selected: seq<Snapshot>)
    requires Stamped(db)
    ensures EnrichedOnly(db, SweepLoop(db, price, selected).db)
  {
    if selected != [] {
      var n := |selected| - 1;
      SweepLoopAdvances(db, price, selected[..n]);
      SweepNextAdvances(db, SweepLoop(db, price, selected[..n]), price, selected[n]);
    }
  }

  lemma {:induction false} SweepLoopElsewhere(db: Tables, price: Pricing, selected: seq<Snapshot>, id: ExpenseId)
    requires forall i | 0 <= i < |selected| :: selected[i].id != id
    ensures var rows := SweepLoop(db, price, selected).db.rows;
            (id in rows <==> id in db.rows) && (id in db.rows ==> rows[id] == db.rows[id])
  {
    if selected != [] { SweepLoopElsewhere(db, price, selected[..|selected| - 1], id); }
  }

  ghost predicate DistinctSnapshots(selected: seq<Snapshot>) {
    forall i, j | 0 <= i < j < |selected| :: selected[i].id != selected[j].id
  }

  /** A selected row ends up filled with its own conversion, or, when no rate is known, untouched. */
  ghost predicate FilledOrKept(row: Row, row': Row, price: Pricing, s: Snapshot) {
    match price(s)
    case Value(amount) =>
      row' == row.(amountBase := Some(amount), currencyBase := Some(s.baseCurrency), serverSeq := row'.serverSeq)
    case Missing => row' == row
    case Raises => false
  }

  lemma {:induction false} SweepLoopFills(db: Tables, price: Pricing, selected: seq<Snapshot>, i: nat)
    requires DistinctSnapshots(selected) && i < |selected| && selected[i].id in db.rows
    requires !SweepLoop(db, price, selected).raised
    ensures var rows := SweepLoop(db, price, selected).db.rows;
            selected[i].id in rows && FilledOrKept(db.rows[selected[i].id], rows[selected[i].id], price, selected[i])
  {
    var n := |selected| - 1;
    if i == n {
      SweepLoopElsewhere(db, price, selected[..n], selected[n].id);
    } else {
      SweepLoopFills(db, price, selected[..n], i);
    }
  }

  /** A sweep raises exactly when some selected row's conversion does; then no row changes. */
  lemma {:induction false} SweepRaisesIff(db: Tables, price: Pricing, selected: seq<Snapshot>)
    ensures SweepLoop(db, price, selected).raised <==> exists i :: 0 <= i < |selected| && price(selected[i]).Raises?
  {
    if selected != [] {
      var n := |selected| - 1;
      SweepRaisesIff(db, price, selected[..n]);
      if SweepLoop(db, price, selected[..n]).raised {
        var i :| 0 <= i < n && price(selected[..n][i]).Raises?;
        assert price(selected[i]).Raises?;
      } else if SweepLoop(db, price, selected).raised {
        assert price(selected[n]).Raises?;
      }
      forall i | 0 <= i < |selected| && price(selected[i]).Raises?
        ensures SweepLoop(db, price, selected).raised
      {
        assert i < n ==> selected[..n][i] == selected[i];
      }
    }
  }

  /** The selected rows whose conversion has a value. */
  function Priced(price: Pricing, selected: seq<Snapshot>): set<int> {
    set i | 0 <= i < |selected| && price(selected[i]).Value?
  }

  lemma PricedNext(price: Pricing, selected: seq<Snapshot>)
    requires selected != []
    ensures var n := |selected| - 1;
            |Priced(price, selected)| == |Priced(price, selected[..n])| + if price(selected[n]).Value? then 1 else 0
  {
    var n := |selected| - 1;
    assert Priced(price, selected) == Priced(price, selected[..n]) + if price(selected[n]).Value? then {n} else {};
  }

  /** The loop counts those rows. */
  lemma {:induction false} LoopCounts(db: Tables, price: Pricing, selected: seq<Snapshot>)
    requires !SweepLoop(db, price, selected).raised
    ensures SweepLoop(db, price, selected).recomputed == |Priced(price, selected)|
  {
    if selected != [] {
      LoopCounts(db, price, selected[..|selected| - 1]);
      PricedNext(price, selected);
    }
  }

  lemma UpdateByIdDraws(db: Tables, s: Snapshot, amount: real)
    requires s.id in db.rows
    ensures var db' := UpdateById(db, s, amount);
            db'.rows.Keys == db.rows.Keys && db'.seqValue == db.seqValue + 1
  {
  }

  /** And draws one value of the sequence for each row it counts. */
  lemma {:induction false} LoopDraws(db: Tables, price: Pricing, selected: seq<Snapshot>)
    requires forall i | 0 <= i < |selected| :: selected[i].id in db.rows
    ensures var run := SweepLoop(db, price, selected);
            run.db.rows.Keys == db.rows.Keys && run.db.seqValue == db.seqValue + run.recomputed
  {
    if selected != [] {
      var n := |selected| - 1;
      var before := SweepLoop(db, price, selected[..n]);
      LoopDraws(db, price, selected[..n]);
      if !before.raised && price(selected[n]).Value? {
        UpdateByIdDraws(before.db, selected[n], price(selected[n]).amount);
      }
    }
  }

  /** The first of the selected rows whose conversion raises. */
  ghost predicate RaisesFirst(price: Pricing, selected: seq<Snapshot>, i: nat) {
    && i < |selected| && price(selected[i]).Raises?
    && forall j | 0 <= j < i :: !price(selected[j]).Raises?
  }

  /**
   * A sweep that is rolled back changes no row, but the values it drew for the rows it had updated
   * by then stay drawn.
   */
  lemma RolledBackDraws(db: Tables, price: Pricing, selected: seq<Snapshot>, i: nat)
    requires forall k | 0 <= k < |selected| :: selected[k].id in db.rows
    requires RaisesFirst(price, selected, i)
    ensures Settle(db, SweepLoop(db, price, selected))
            == db.(seqValue := db.seqValue + |Priced(price, selected[..i])|)
  {
    SweepRaisesIff(db, price, selected[..i]);
    SweepRaisesAt(db, price, selected, i);
    LoopCounts(db, price, selected[..i]);
    LoopDraws(db, price, selected[..i]);
  }

  // ----- draining the backlog --------------------------------------------------------------------------

  function ConversionOf(db: Tables, price: Pricing, id: ExpenseId): Conversion
    requires id in db.rows && db.rows[id].user in db.base
  {
    price(SnapshotOf(db, id))
  }

  /** The backlog rows with a known conversion, those still missing a rate, and those whose conversion raises. */
  function Ready(db: Tables, price: Pricing, who: Option<UserId>): set<ExpenseId> {
    set id | id in Backlog(db, who) && ConversionOf(db, price, id).Value?
  }

  function Stuck(db: Tables, price: Pricing, who: Option<UserId>): set<ExpenseId> {
    set id | id in Backlog(db, who) && ConversionOf(db, price, id).Missing?
  }

  function Raising(db: Tables, price: Pricing, who: Option<UserId>): set<ExpenseId> {
    set id | id in Backlog(db, who) && ConversionOf(db, price, id).Raises?
  }

  /** One sweep, over some batch the query may return. */
  ghost predicate SweepStep(db: Tables, db': Tables, price: Pricing, who: Option<UserId>, limit: nat) {
    exists batch :: IsBatch(db, who, limit, batch) && db' == Swept(db, price, batch)
  }

  /** Distinct backlog rows, in whatever order. */
  ghost predicate FromBacklog(db: Tables, who: Option<UserId>, batch: seq<ExpenseId>) {
    NoRepeats(batch) && forall i | 0 <= i < |batch| :: Waiting(db, who, batch[i])
  }

  lemma BatchIsFromBacklog(db: Tables, who: Option<UserId>, limit: nat, batch: seq<ExpenseId>)
    requires IsBatch(db, who, limit, batch)
    ensures FromBacklog(db, who, batch) && IdSet(batch) <= Backlog(db, who)
  {
  }

  lemma BatchRaisesIff(db: Tables, price: Pricing, who: Option<UserId>, batch: seq<ExpenseId>)
    requires FromBacklog(db, who, batch)
    ensures SweepLoop(db, price, Snapshots(db, batch)).raised <==> !(IdSet(batch) !! Raising(db, price, who))
  {
    SweepRaisesIff(db, price, Snapshots(db, batch));
    forall i | 0 <= i < |batch|
      ensures price(Snapshots(db, batch)[i]).Raises? <==> batch[i] in Raising(db, price, who)
    {
      assert batch[i] in Backlog(db, who) && Snapshots(db, batch)[i] == SnapshotOf(db, batch[i]);
    }
    if x :| x in IdSet(batch) && x in Raising(db, price, who) {
      var i :| 0 <= i < |batch| && batch[i] == x;
      assert price(Snapshots(db, batch)[i]).Raises?;
    }
  }

  lemma SweepRow(db: Tables, price: Pricing, who: Option<UserId>, batch: seq<ExpenseId>, id: ExpenseId)
    requires FromBacklog(db, who, batch) && id in db.rows
    requires !SweepLoop(db, price, Snapshots(db, batch)).raised
    ensures var rows := Swept(db, price, batch).rows;
            && id in rows
            && if id in batch then FilledOrKept(db.rows[id], rows[id], price, SnapshotOf(db, id))
               else rows[id] == db.rows[id]
  {
    var selected := Snapshots(db, batch);
    if id in batch {
      var i :| 0 <= i < |batch| && batch[i] == id;
      assert selected[i] == SnapshotOf(db, id);
      SweepLoopFills(db, price, selected, i);
    } else {
      SweepLoopElsewhere(db, price, selected, id);
    }
  }

  /** The rows that had no amount and now have one. */
  function Filled(rows: Rows, rows': Rows): set<ExpenseId> {
    set id | id in rows && id in rows' && rows[id].amountBase.None? && rows'[id].amountBase.Some?
  }

  lemma OneMoreTaken(batch: seq<ExpenseId>, ids: set<ExpenseId>)
    requires batch != [] && NoRepeats(batch)
    ensures var n := |batch| - 1;
            |IdSet(batch) * ids| == |IdSet(batch[..n]) * ids| + if batch[n] in ids then 1 else 0
  {
    var n := |batch| - 1;
    assert IdSet(batch) * ids == IdSet(batch[..n]) * ids + if batch[n] in ids then {batch[n]} else {};
    assert batch[n] !in IdSet(batch[..n]) * ids;
  }

  lemma PricedIsReady(db: Tables, price: Pricing, who: Option<UserId>, batch: seq<ExpenseId>, i: nat)
    requires FromBacklog(db, who, batch) && i < |batch|
    ensures price(Snapshots(db, batch)[i]).Value? <==> batch[i] in Ready(db, price, who)
  {
    assert Waiting(db, who, batch[i]) && Snapshots(db, batch)[i] == SnapshotOf(db, batch[i]);
  }

  lemma {:induction false} CountsReady(db: Tables, price: Pricing, who: Option<UserId>, batch: seq<ExpenseId>)
    requires FromBacklog(db, who, batch)
    ensures |Priced(price, Snapshots(db, batch))| == |IdSet(batch) * Ready(db, price, who)|
  {
    if batch != [] {
      var n := |batch| - 1;
      assert Snapshots(db, batch)[..n] == Snapshots(db, batch[..n]);
      CountsReady(db, price, who, batch[..n]);
      PricedNext(price, Snapshots(db, batch));
      OneMoreTaken(batch, Ready(db, price, who));
      PricedIsReady(db, price, who, batch, n);
    }
  }

  lemma RestOfTaken<T>(taken: set<T>, ready: set<T>, stuck: set<T>, raising: set<T>)
    requires taken <= ready + stuck + raising && taken !! raising && ready !! stuck
    ensures |taken * stuck| == |taken| - |taken * ready|
  {
    assert taken * stuck == taken - taken * ready;
  }

  lemma FilledIsReady(db: Tables, price: Pricing, who: Option<UserId>, batch: seq<ExpenseId>)
    requires FromBacklog(db, who, batch) && !SweepLoop(db, price, Snapshots(db, batch)).raised
    ensures Filled(db.rows, Swept(db, price, batch).rows) == IdSet(batch) * Ready(db, price, who)
  {
    forall id | id in db.rows
      ensures id in Filled(db.rows, Swept(db, price, batch).rows) <==> id in IdSet(batch) * Ready(db, price, who)
    {
      SweepRow(db, price, who, batch, id);
    }
  }

  /**
   * What a sweep that raises nothing reports: recomputed is the number of its rows that had a
   * conversion, which are the rows that got an amount, and the rest were all missing a rate.
   */
  lemma SweepCounts(db: Tables, price: Pricing, who: Option<UserId>, batch: seq<ExpenseId>)
    requires FromBacklog(db, who, batch) && !SweepLoop(db, price, Snapshots(db, batch)).raised
    ensures var run := SweepLoop(db, price, Snapshots(db, batch));
            && run.recomputed == |IdSet(batch) * Ready(db, price, who)|
            && |batch| - run.recomputed == |IdSet(batch) * Stuck(db, price, who)|
            && Filled(db.rows, Swept(db, price, batch).rows) == IdSet(batch) * Ready(db, price, who)
  {
    LoopCounts(db, price, Snapshots(db, batch));
    CountsReady(db, price, who, batch);
    NoRepeatsSize(batch);
    BatchRaisesIff(db, price, who, batch);
    BacklogSplits(db, price, who);
    RestOfTaken(IdSet(batch), Ready(db, price, who), Stuck(db, price, who), Raising(db, price, who));
    FilledIsReady(db, price, who, batch);
  }

  // ----- the backlog, told from the tables ------------------------------------------------------------

  /** The UTC day of a timestamp in microseconds. */
  ghost predicate OnDay(t: Timestamp, d: Date) { d * 86400000000 <= t < (d + 1) * 86400000000 }

  /** A live expense without an amount, of that user if one is named. */
  ghost predicate LiveWithoutAmount(db: Tables, who: Option<UserId>, id: ExpenseId) {
    && id in db.rows && db.rows[id].user in db.base
    && db.rows[id].amountBase == None && db.rows[id].cols.deletedAt == None
    && (who == None || who == Some(db.rows[id].user))
  }

  /** Between different currencies, one of which has no rate up to the day of the expense. */
  ghost predicate LacksRate(db: Tables, fx: FxTable, id: ExpenseId, d: Date)
    requires id in db.rows && db.rows[id].user in db.base
  {
    var from, to := db.rows[id].cols.currencyOriginal, db.base[db.rows[id].user];
    from != to && (Unrated(fx, from, d) || Unrated(fx, to, d))
  }

  /** Between different currencies, from one whose rate is zero or to an amount of too many digits. */
  ghost predicate CannotConvert(db: Tables, fx: FxTable, id: ExpenseId, d: Date)
    requires id in db.rows && db.rows[id].user in db.base
  {
    var from, to := db.rows[id].cols.currencyOriginal, db.base[db.rows[id].user];
    exists rateFrom, rateTo ::
      && Rated(fx, from, to, d, rateFrom, rateTo)
      && (rateFrom == 0.0 || Exceeds(db.rows[id].cols.amountOriginal, rateTo / rateFrom))
  }

  /**
   * From expenses, users and fx_rates alone: which rows a sweep leaves for want of a rate, which make
   * it raise, and which it fills. d is the day of the expense.
   */
  lemma BacklogIff(db: Tables, fx: FxTable, who: Option<UserId>, id: ExpenseId, d: Date)
    requires id in db.rows && OnDay(db.rows[id].cols.spentAt, d)
    ensures id in Stuck(db, PricedBy(fx), who) <==> LiveWithoutAmount(db, who, id) && LacksRate(db, fx, id, d)
    ensures id in Raising(db, PricedBy(fx), who) <==> LiveWithoutAmount(db, who, id) && CannotConvert(db, fx, id, d)
    ensures id in Ready(db, PricedBy(fx), who) <==>
            LiveWithoutAmount(db, who, id) && !LacksRate(db, fx, id, d) && !CannotConvert(db, fx, id, d)
  {
    if LiveWithoutAmount(db, who, id) {
      var row := db.rows[id];
      var amount, from, to := row.cols.amountOriginal, row.cols.currencyOriginal, db.base[row.user];
      DayOfTimestamp(row.cols.spentAt, d);
      assert ConversionOf(db, PricedBy(fx), id) == Convert(fx, amount, from, to, d);
      MissingIff(fx, amount, from, to, d);
      RaisesIff(fx, amount, from, to, d);
    }
  }

  lemma DayOfTimestamp(t: Timestamp, d: Date)
    ensures OnDay(t, d) <==> d == DateOf(t)
  {
  }

  /** With rates that change during a sweep it is the same, by the rates found for the row. */
  lemma PricedAsFoundIsPricedBy(db: Tables, fx: ExpenseId -> FxTable, who: Option<UserId>, id: ExpenseId)
    ensures id in Stuck(db, PricedAsFound(fx), who) <==> id in Stuck(db, PricedBy(fx(id)), who)
    ensures id in Raising(db, PricedAsFound(fx), who) <==> id in Raising(db, PricedBy(fx(id)), who)
    ensures id in Ready(db, PricedAsFound(fx), who) <==> id in Ready(db, PricedBy(fx(id)), who)
  {
    if id in db.rows && db.rows[id].user in db.base {
      assert ConversionOf(db, PricedAsFound(fx), id) == ConversionOf(db, PricedBy(fx(id)), id);
    }
  }

  // ----- what repeated sweeps leave ---------------------------------------------------------------------

  /** What a sweep changes of one row, as far as the backlog goes. */
  ghost predicate BacklogEffect(db: Tables, db': Tables, price: Pricing, who: Option<UserId>, batch: seq<ExpenseId>,
                                id: ExpenseId)
  {
    && id in db.rows && id in db'.rows
    && (Waiting(db', who, id) <==> Waiting(db, who, id) && !(id in batch && ConversionOf(db, price, id).Value?))
    && (Waiting(db, who, id)
        ==> id in db'.rows && db'.rows[id].user in db'.base && SnapshotOf(db', id) == SnapshotOf(db, id))
  }

  lemma SweepRowBacklog(db: Tables, price: Pricing, who: Option<UserId>, batch: seq<ExpenseId>, id: ExpenseId)
    requires Stamped(db) && FromBacklog(db, who, batch) && id in db.rows
    requires !SweepLoop(db, price, Snapshots(db, batch)).raised
    ensures BacklogEffect(db, Swept(db, price, batch), price, who, batch, id)
  {
    SweepRow(db, price, who, batch, id);
    SweepLoopAdvances(db, price, Snapshots(db, batch));
  }

  /** Rolled back: all as it was, but for the values drawn from the sequence. */
  ghost predicate OnlyDraws(db: Tables, db': Tables) {
    db' == db.(seqValue := db'.seqValue) && db.seqValue <= db'.seqValue
  }

  /**
   * A sweep whose batch holds no raising row takes exactly its convertible rows out of the backlog
   * and changes no other conversion. One whose batch holds any is rolled back.
   */
  lemma SweepSets(db: Tables, price: Pricing, who: Option<UserId>, batch: seq<ExpenseId>)
    requires Stamped(db) && FromBacklog(db, who, batch)
    ensures var db' := Swept(db, price, batch);
            && Stamped(db')
            && if IdSet(batch) !! Raising(db, price, who) then
                 && Ready(db', price, who) == Ready(db, price, who) - IdSet(batch)
                 && Stuck(db', price, who) == Stuck(db, price, who)
                 && Raising(db', price, who) == Raising(db, price, who)
               else OnlyDraws(db, db')
  {
    var db' := Swept(db, price, batch);
    BatchRaisesIff(db, price, who, batch);
    SweepLoopAdvances(db, price, Snapshots(db, batch));
    if IdSet(batch) !! Raising(db, price, who) {
      assert db'.rows.Keys == db.rows.Keys;
      forall id | id in db.rows
        ensures BacklogEffect(db, db', price, who, batch, id)
      {
        SweepRowBacklog(db, price, who, batch, id);
      }
      BacklogSets(db, db', price, who, batch);
    }
  }

  lemma BacklogSets(db: Tables, db': Tables, price: Pricing, who: Option<UserId>, batch: seq<ExpenseId>)
    requires db'.rows.Keys == db.rows.Keys
    requires forall id | id in db.rows :: BacklogEffect(db, db', price, who, batch, id)
    ensures Ready(db', price, who) == Ready(db, price, who) - IdSet(batch)
    ensures Stuck(db', price, who) == Stuck(db, price, who)
    ensures Raising(db', price, who) == Raising(db, price, who)
  {
    forall id | id in db.rows
      ensures id in Ready(db', price, who) <==> id in Ready(db, price, who) && id !in batch
      ensures id in Stuck(db', price, who) <==> id in Stuck(db, price, who)
      ensures id in Raising(db', price, who) <==> id in Raising(db, price, who)
    {
      assert BacklogEffect(db, db', price, who, batch, id);
    }
  }

  lemma {:induction false} NoRepeatsSize(ids: seq<ExpenseId>)
    requires NoRepeats(ids)
    ensures |IdSet(ids)| == |ids|
  {
    if ids != [] {
      var n := |ids| - 1;
      NoRepeatsSize(ids[..n]);
      assert ids == ids[..n] + [ids[n]];
      assert IdSet(ids) == IdSet(ids[..n]) + {ids[n]};
    }
  }

  /** Taking Min(limit, all) of two disjoint sets takes at least limit - |stuck| of the first, or all of it. */
  lemma CountTaken(ready: set<ExpenseId>, stuck: set<ExpenseId>, taken: set<ExpenseId>, limit: nat)
    requires ready !! stuck && taken <= ready + stuck && limit > |stuck|
    requires |taken| == Min(limit, |ready + stuck|)
    ensures |ready - taken| <= Max(0, |ready| - (limit - |stuck|))
  {
    var r, s := taken * ready, taken * stuck;
    assert taken == r + s && r !! s;
    SubsetSize(s, stuck);
    SubsetSize(r, ready);
    assert ready - taken == ready - r;
    assert |ready + stuck| == |ready| + |stuck|;
  }

  /** At most n convertible rows wait, besides exactly these stuck ones. */
  ghost predicate Draining(db: Tables, price: Pricing, who: Option<UserId>, stuck: set<ExpenseId>, n: int) {
    && Stamped(db) && Raising(db, price, who) == {}
    && Stuck(db, price, who) == stuck
    && |Ready(db, price, who)| <= Max(0, n)
  }

  /**
   * With nothing raising, each sweep fills at least min(c, limit - u) of c convertible rows,
   * whatever ties created_at leaves.
   */
  lemma SweepProgress(db: Tables, db': Tables, price: Pricing, who: Option<UserId>, limit: nat, stuck: set<ExpenseId>,
                      n: int)
    requires Draining(db, price, who, stuck, n) && SweepStep(db, db', price, who, limit)
    requires limit > |stuck|
    ensures Draining(db', price, who, stuck, n - (limit - |stuck|))
  {
    var batch :| IsBatch(db, who, limit, batch) && db' == Swept(db, price, batch);
    BatchProgress(db, price, who, limit, stuck, batch);
  }

  lemma BatchProgress(db: Tables, price: Pricing, who: Option<UserId>, limit: nat, stuck: set<ExpenseId>,
                      batch: seq<ExpenseId>)
    requires Stamped(db) && Raising(db, price, who) == {} && Stuck(db, price, who) == stuck
    requires IsBatch(db, who, limit, batch) && limit > |stuck|
    ensures var db' := Swept(db, price, batch);
            && Stamped(db') && Raising(db', price, who) == {} && Stuck(db', price, who) == stuck
            && |Ready(db', price, who)| <= Max(0, |Ready(db, price, who)| - (limit - |stuck|))
  {
    BatchIsFromBacklog(db, who, limit, batch);
    SweepSets(db, price, who, batch);
    NoRepeatsSize(batch);
    BacklogSplits(db, price, who);
    CountTaken(Ready(db, price, who), stuck, IdSet(batch), limit);
  }

  lemma BacklogSplits(db: Tables, price: Pricing, who: Option<UserId>)
    ensures Backlog(db, who) == Ready(db, price, who) + Stuck(db, price, who) + Raising(db, price, who)
    ensures Ready(db, price, who) !! Stuck(db, price, who)
    ensures (Ready(db, price, who) + Stuck(db, price, who)) !! Raising(db, price, who)
  {
  }

  /** Successive states under sweeps alone. */
  ghost predicate SweepSteps(run: seq<Tables>, price: Pricing, who: Option<UserId>, limit: nat) {
    && |run| > 0 && Stamped(run[0])
    && forall i | 0 < i < |run| :: SweepStep(run[i - 1], run[i], price, who, limit)
  }

  /** And no conversion of a backlog row raises. */
  ghost predicate Sweeps(run: seq<Tables>, price: Pricing, who: Option<UserId>, limit: nat) {
    SweepSteps(run, price, who, limit) && Raising(run[0], price, who) == {}
  }

  /** What is left of c after k decrements. */
  function Left(c: int, k: nat, gain: int): int {
    if k == 0 then c else Left(c, k - 1, gain) - gain
  }

  lemma {:induction false} LeftIsDifference(c: int, k: nat, gain: int)
    ensures Left(c, k, gain) == c - k * gain
  {
    if k > 0 {
      LeftIsDifference(c, k - 1, gain);
      assert (k - 1) * gain == k * gain - gain;
    }
  }

  lemma {:induction false} SweepsProgress(run: seq<Tables>, price: Pricing, who: Option<UserId>, limit: nat,
                                          stuck: set<ExpenseId>, c: nat, k: nat)
    requires Sweeps(run, price, who, limit) && k < |run|
    requires stuck == Stuck(run[0], price, who) && c == |Ready(run[0], price, who)| && limit > |stuck|
    ensures Draining(run[k], price, who, stuck, Left(c, k, limit - |stuck|))
  {
    if k > 0 {
      SweepsProgress(run, price, who, limit, stuck, c, k - 1);
      SweepProgress(run[k - 1], run[k], price, who, limit, stuck, Left(c, k - 1, limit - |stuck|));
    }
  }

  /**
   * With rows and rates fixed, nothing raising, u rows missing a rate, c convertible ones and a
   * limit above u, any k sweeps with k * (limit - u) >= c fill every convertible row.
   */
  lemma SweepsDrain(run: seq<Tables>, price: Pricing, who: Option<UserId>, limit: nat)
    requires Sweeps(run, price, who, limit) && limit > |Stuck(run[0], price, who)|
    requires (|run| - 1) * (limit - |Stuck(run[0], price, who)|) >= |Ready(run[0], price, who)|
    ensures Ready(run[|run| - 1], price, who) == {}
  {
    var stuck, c := Stuck(run[0], price, who), |Ready(run[0], price, who)|;
    SweepsProgress(run, price, who, limit, stuck, c, |run| - 1);
    LeftIsDifference(c, |run| - 1, limit - |stuck|);
  }

  /** Enough stuck rows are older than every convertible row to fill a whole batch. */
  ghost predicate HeadOfLine(db: Tables, price: Pricing, who: Option<UserId>, limit: nat, head: set<ExpenseId>) {
    && head <= Stuck(db, price, who) && |head| >= limit
    && forall s, r | s in head && r in Ready(db, price, who) :: db.rows[s].createdAt < db.rows[r].createdAt
  }

  lemma HeadFillsBatch(db: Tables, price: Pricing, who: Option<UserId>, limit: nat, head: set<ExpenseId>,
                       batch: seq<ExpenseId>, id: ExpenseId)
    requires HeadOfLine(db, price, who, limit, head) && IsBatch(db, who, limit, batch) && id in batch
    ensures id !in Ready(db, price, who)
  {
    BatchIsFromBacklog(db, who, limit, batch);
    NoRepeatsSize(batch);
    if id in Ready(db, price, who) {
      var rest := IdSet(batch) - {id};
      SubsetSize({id}, IdSet(batch));
      if head <= rest { SubsetSize(head, rest); }
      assert false;
    }
  }

  /**
   * When a whole batch of stuck rows is older than every convertible row, a sweep leaves the tables
   * exactly as they were, so no number of sweeps ever fills one.
   */
  lemma HeadOfLineBlocks(db: Tables, db': Tables, price: Pricing, who: Option<UserId>, limit: nat, head: set<ExpenseId>)
    requires SweepStep(db, db', price, who, limit) && HeadOfLine(db, price, who, limit, head)
    ensures db' == db
  {
    var batch :| IsBatch(db, who, limit, batch) && db' == Swept(db, price, batch);
    BatchIsFromBacklog(db, who, limit, batch);
    forall i | 0 <= i < |batch|
      ensures !price(Snapshots(db, batch)[i]).Value?
    {
      HeadFillsBatch(db, price, who, limit, head, batch, batch[i]);
      assert batch[i] in Backlog(db, who);
    }
    NothingToWrite(db, price, Snapshots(db, batch));
  }

  lemma {:induction false} NothingToWrite(db: Tables, price: Pricing, selected: seq<Snapshot>)
    requires forall i | 0 <= i < |selected| :: !price(selected[i]).Value?
    ensures SweepLoop(db, price, selected).db == db
  {
    if selected != [] { NothingToWrite(db, price, selected[..|selected| - 1]); }
  }
}
