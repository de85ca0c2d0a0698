/** Usage metering rides on the upsert's inserted flag (app/api/v1/sync.py:206-212, app/services/metering/usage.py). */
module Metering {
  import opened Prelude
  import opened Converter
  import opened Expenses
  import opened PushValidation
  import opened Machine

  function UserRows(rows: Rows, user: UserId): set<ExpenseId> {
    set id | id in rows && rows[id].user == user
  }

  function Counters(usage: Usage, user: UserId): set<(UserId, Period)> {
    set key | key in usage.Keys && key.0 == user
  }

  /** A user's log_count summed over all periods. */
  ghost function TotalLogged(usage: Usage, user: UserId): nat { SumOver(usage, Counters(usage, user)) }

  /** Every row a user owns has been counted once, in some period. */
  ghost predicate Conserved(db: Tables) {
    forall user :: TotalLogged(db.usage, user) == |UserRows(db.rows, user)|
  }

  lemma IncrementAddsUp(usage: Usage, pusher: UserId, period: Period, n: nat, user: UserId)
    ensures TotalLogged(IncrementUsage(usage, pusher, period, n), user)
            == TotalLogged(usage, user) + if user == pusher then n else 0
  {
    var usage', key := IncrementUsage(usage, pusher, period, n), (pusher, period);
    var old_, new_ := Counters(usage, user), Counters(usage', user);
    if n == 0 {
    } else if user != pusher {
      assert new_ == old_;
      SumOverAgrees(usage, usage', old_);
    } else {
      assert new_ == old_ + {key};
      SumOverSplit(usage', new_, key);
      assert new_ - {key} == old_ - {key};
      SumOverAgrees(usage, usage', old_ - {key});
      if key in old_ { SumOverSplit(usage, old_, key); } else { assert old_ - {key} == old_; }
    }
  }

  lemma NewRowCounts(rows: Rows, id: ExpenseId, row: Row, user: UserId)
    requires id !in rows
    ensures |UserRows(rows[id := row], user)| == |UserRows(rows, user)| + if row.user == user then 1 else 0
  {
    assert UserRows(rows[id := row], user) == UserRows(rows, user) + if row.user == user then {id} else {};
  }

  lemma ChangedRowKeepsCount(rows: Rows, id: ExpenseId, row: Row, user: UserId)
    requires id in rows && row.user == rows[id].user
    ensures UserRows(rows[id := row], user) == UserRows(rows, user)
  {
  }

  lemma UpsertOneCounts(db: Tables, pusher: UserId, rec: Record, now: Timestamp, user: UserId)
    ensures |UserRows(UpsertOne(db, pusher, rec, now).rows, user)|
            == |UserRows(db.rows, user)| + if user == pusher && rec.id !in db.rows then 1 else 0
  {
    var rows' := UpsertOne(db, pusher, rec, now).rows;
    if rec.id !in db.rows {
      NewRowCounts(db.rows, rec.id, rows'[rec.id], user);
    } else if Applies(db.rows, rec) {
      ChangedRowKeepsCount(db.rows, rec.id, rows'[rec.id], user);
    }
  }

  /** The rows a user gains are the rows RETURNING reports as inserted. */
  lemma {:induction false} UpsertCounts(db: Tables, pusher: UserId, recs: seq<Record>, now: Timestamp, user: UserId)
    ensures |UserRows(UpsertAll(db, pusher, recs, now).rows, user)|
            == |UserRows(db.rows, user)| + if user == pusher then CountInserted(Returning(db, pusher, recs, now)) else 0
    decreases |recs|
  {
    if recs != [] {
      var next := UpsertOne(db, pusher, recs[0], now);
      UpsertOneCounts(db, pusher, recs[0], now, user);
      UpsertCounts(next, pusher, recs[1..], now, user);
      var rest := Returning(next, pusher, recs[1..], now);
      if Applies(db.rows, recs[0]) {
        var first := Returned(recs[0].id, next.rows[recs[0].id].serverSeq, recs[0].id !in db.rows);
        assert ([first] + rest)[1..] == rest;
      }
    }
  }

  lemma CommitConserves(db: Tables, pusher: UserId, recs: seq<Record>, clock: Clock)
    requires Conserved(db)
    ensures Conserved(CommitUpsert(db, pusher, recs, clock))
  {
    var db' := CommitUpsert(db, pusher, recs, clock);
    forall user
      ensures TotalLogged(db'.usage, user) == |UserRows(db'.rows, user)|
    {
      UpsertCounts(db, pusher, recs, clock.now, user);
      IncrementAddsUp(db.usage, pusher, clock.period, CountInserted(Returning(db, pusher, recs, clock.now)), user);
    }
  }

  /** Steps other than an upsert write no counter and neither add rows nor move them between users. */
  lemma OtherStepsKeepOwners(m: System, devices: Devices, step: Step)
    requires !step.Commit?
    ensures var m' := StepOf(m, devices, step);
            && m'.db.usage == m.db.usage && m'.db.rows.Keys == m.db.rows.Keys
            && forall id | id in m.db.rows :: m'.db.rows[id].user == m.db.rows[id].user
  {
  }

  lemma StepConserves(m: System, devices: Devices, step: Step)
    requires Conserved(m.db)
    ensures Conserved(StepOf(m, devices, step).db)
  {
    var m' := StepOf(m, devices, step);
    if step.Commit? && step.ticket in m.pushes {
      CommitConserves(m.db, m.pushes[step.ticket].user, m.pushes[step.ticket].pending.valid, step.clock);
    } else if !step.Commit? {
      OtherStepsKeepOwners(m, devices, step);
      forall user
        ensures TotalLogged(m'.db.usage, user) == |UserRows(m'.db.rows, user)|
      {
        assert UserRows(m'.db.rows, user) == UserRows(m.db.rows, user);
      }
    }
  }

  /**
   * From an empty store, through any interleaving of pushes, replays, edits, soft deletes, sweeps
   * and month changes, each user's counters sum to the number of that user's rows.
   */
  lemma {:induction false} UsageConserved(base: map<UserId, Currency>, devices: Devices, steps: seq<Step>, user: UserId)
    ensures var db := Run(Initial(base), devices, steps).db;
            Conserved(db) && TotalLogged(db.usage, user) == |UserRows(db.rows, user)|
  {
    if steps != [] {
      var n := |steps| - 1;
      UsageConserved(base, devices, steps[..n], user);
      StepConserves(Run(Initial(base), devices, steps[..n]), devices, steps[n]);
    } else {
      forall u ensures TotalLogged(map[], u) == |UserRows(map[], u)| {
        assert Counters(map[], u) == {} && UserRows(map[], u) == {};
      }
    }
  }

  // ----- which period counts a row -----------------------------------------------------------------------

  /** The period in which each row first landed, kept beside the run. */
  ghost function Landed(m: System, devices: Devices, steps: seq<Step>): map<ExpenseId, Period> {
    if steps == [] then map[]
    else
      var n := |steps| - 1;
      Landing(Run(m, devices, steps[..n]), devices, steps[n], Landed(m, devices, steps[..n]))
  }

  ghost function Landing(m: System, devices: Devices, step: Step, landed: map<ExpenseId, Period>)
    : map<ExpenseId, Period>
  {
    if step.Commit? then LandedBy(landed, StepOf(m, devices, step).db.rows, step.clock.period) else landed
  }

  /** Rows not landed yet land in this period. */
  function LandedBy(landed: map<ExpenseId, Period>, rows: Rows, period: Period): map<ExpenseId, Period> {
    map id | id in landed.Keys + rows.Keys :: if id in landed then landed[id] else period
  }

  function LandedIn(rows: Rows, landed: map<ExpenseId, Period>, user: UserId, period: Period): set<ExpenseId> {
    set id | id in rows && rows[id].user == user && id in landed && landed[id] == period
  }

  /** Each counter is the number of its user's rows that first landed in its period. */
  ghost predicate CountsLandings(db: Tables, landed: map<ExpenseId, Period>) {
    && landed.Keys == db.rows.Keys
    && forall user, period :: UsageCount(db.usage, user, period) == |LandedIn(db.rows, landed, user, period)|
  }

  /** New rows all land in one period; the others stay where they landed. */
  ghost predicate Lands(rows: Rows, rows': Rows, landed: map<ExpenseId, Period>, landed': map<ExpenseId, Period>,
                        period: Period)
  {
    && KeepsRows(rows, rows') && landed.Keys == rows.Keys && landed'.Keys == rows'.Keys
    && forall id | id in rows' :: landed'[id] == if id in rows then landed[id] else period
  }

  lemma OtherPeriodsStay(rows: Rows, rows': Rows, landed: map<ExpenseId, Period>, landed': map<ExpenseId, Period>,
                         period: Period, user: UserId, p: Period)
    requires Lands(rows, rows', landed, landed', period) && p != period
    ensures LandedIn(rows', landed', user, p) == LandedIn(rows, landed, user, p)
  {
  }

  lemma NewRowsLand(rows: Rows, rows': Rows, landed: map<ExpenseId, Period>, landed': map<ExpenseId, Period>,
                    period: Period, user: UserId)
    requires Lands(rows, rows', landed, landed', period)
    ensures |LandedIn(rows', landed', user, period)|
            == |LandedIn(rows, landed, user, period)| + |UserRows(rows', user)| - |UserRows(rows, user)|
  {
    var old_, new_ := UserRows(rows, user), UserRows(rows', user);
    var gained := new_ - old_;
    NewRowsLandSets(rows, rows', landed, landed', period, user);
    assert new_ == old_ + gained;
    assert gained !! LandedIn(rows, landed, user, period);
  }

  lemma NewRowsLandSets(rows: Rows, rows': Rows, landed: map<ExpenseId, Period>, landed': map<ExpenseId, Period>,
                        period: Period, user: UserId)
    requires Lands(rows, rows', landed, landed', period)
    ensures UserRows(rows, user) <= UserRows(rows', user)
    ensures LandedIn(rows', landed', user, period)
            == LandedIn(rows, landed, user, period) + (UserRows(rows', user) - UserRows(rows, user))
  {
  }

  lemma CommitCountsLandings(db: Tables, pusher: UserId, recs: seq<Record>, clock: Clock,
                             landed: map<ExpenseId, Period>, landed': map<ExpenseId, Period>)
    requires Stamped(db) && CountsLandings(db, landed)
    requires Lands(db.rows, CommitUpsert(db, pusher, recs, clock).rows, landed, landed', clock.period)
    ensures CountsLandings(CommitUpsert(db, pusher, recs, clock), landed')
  {
    var db' := CommitUpsert(db, pusher, recs, clock);
    forall user, p
      ensures UsageCount(db'.usage, user, p) == |LandedIn(db'.rows, landed', user, p)|
    {
      if p == clock.period {
        NewRowsLand(db.rows, db'.rows, landed, landed', p, user);
        UpsertCounts(db, pusher, recs, clock.now, user);
      } else {
        OtherPeriodsStay(db.rows, db'.rows, landed, landed', clock.period, user, p);
      }
    }
  }

  lemma GrowthLands(rows: Rows, rows': Rows, landed: map<ExpenseId, Period>, period: Period)
    requires KeepsRows(rows, rows') && landed.Keys == rows.Keys
    ensures Lands(rows, rows', landed, LandedBy(landed, rows', period), period)
  {
  }

  lemma OtherStepCountsLandings(m: System, devices: Devices, step: Step, landed: map<ExpenseId, Period>)
    requires CountsLandings(m.db, landed) && !step.Commit?
    ensures CountsLandings(StepOf(m, devices, step).db, landed)
  {
    var m' := StepOf(m, devices, step);
    OtherStepsKeepOwners(m, devices, step);
    forall user, p
      ensures UsageCount(m'.db.usage, user, p) == |LandedIn(m'.db.rows, landed, user, p)|
    {
      assert LandedIn(m'.db.rows, landed, user, p) == LandedIn(m.db.rows, landed, user, p);
    }
  }

  lemma StepCountsLandings(m: System, devices: Devices, step: Step, landed: map<ExpenseId, Period>)
    requires Stamped(m.db) && CountsLandings(m.db, landed)
    ensures CountsLandings(StepOf(m, devices, step).db, Landing(m, devices, step, landed))
  {
    if !step.Commit? {
      OtherStepCountsLandings(m, devices, step, landed);
    } else if step.ticket in m.pushes {
      var user, recs := m.pushes[step.ticket].user, m.pushes[step.ticket].pending.valid;
      UpsertAdvances(m.db, user, recs, step.clock.now);
      GrowthLands(m.db.rows, CommitUpsert(m.db, user, recs, step.clock).rows, landed, step.clock.period);
      CommitCountsLandings(m.db, user, recs, step.clock, landed, Landing(m, devices, step, landed));
    } else {
      assert Landing(m, devices, step, landed) == landed;
    }
  }

  /** Each row is counted exactly once, in the server's period at its insertion, whatever its spent_at says. */
  lemma {:induction false} RowsCountWhereTheyLand(base: map<UserId, Currency>, devices: Devices, steps: seq<Step>)
    ensures CountsLandings(Run(Initial(base), devices, steps).db, Landed(Initial(base), devices, steps))
  {
    if steps != [] {
      var n := |steps| - 1;
      RowsCountWhereTheyLand(base, devices, steps[..n]);
      RunAdvances(Initial(base), devices, steps[..n]);
      StepCountsLandings(Run(Initial(base), devices, steps[..n]), devices, steps[n],
          Landed(Initial(base), devices, steps[..n]));
    }
  }

  // ----- counters never fall --------------------------------------------------------------------------

  lemma StepUsageKeepsRows(m: System, devices: Devices, step: Step, user: UserId, period: Period)
    ensures UsageCount(m.db.usage, user, period) <= UsageCount(StepOf(m, devices, step).db.usage, user, period)
  {
    if !step.Commit? { OtherStepsKeepOwners(m, devices, step); }
  }

  lemma {:induction false} UsageNeverFalls(m: System, devices: Devices, steps: seq<Step>, user: UserId, period: Period)
    ensures UsageCount(m.db.usage, user, period) <= UsageCount(Run(m, devices, steps).db.usage, user, period)
  {
    if steps != [] {
      var n := |steps| - 1;
      UsageNeverFalls(m, devices, steps[..n], user, period);
      StepUsageKeepsRows(Run(m, devices, steps[..n]), devices, steps[n], user, period);
    }
  }
}
