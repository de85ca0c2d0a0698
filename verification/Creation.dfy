/**
 * created_at over whole runs (app/db/mixins.py:24-28): the upsert sends none, so it is the database's
 * clock at the upsert that added the row, and sweeps take rows in the order of their arrival whatever
 * dates the clients' columns hold.
 */
module Creation {
  import opened Prelude
  import opened Converter
  import opened Expenses
  import opened PushValidation
  import opened Sweep
  import opened Machine
  import opened Metering

  /** The i-th step of the run adds the row. */
  ghost predicate AddedAt(m: System, devices: Devices, steps: seq<Step>, i: nat, id: ExpenseId) {
    && i < |steps|
    && id !in Run(m, devices, steps[..i]).db.rows && id in Run(m, devices, steps[..i + 1]).db.rows
  }

  /** Only an upsert adds a row, and the row starts as the record it came from. */
  lemma StepAdds(m: System, devices: Devices, step: Step, id: ExpenseId)
    requires Inv(m) && id !in m.db.rows && id in StepOf(m, devices, step).db.rows
    ensures step.Commit? && step.ticket in m.pushes
    ensures exists rec :: rec in m.pushes[step.ticket].pending.valid && rec.id == id
                          && InsertOutcome(StepOf(m, devices, step).db.rows[id], m.pushes[step.ticket].user, rec,
                                           step.clock.now)
  {
    if !step.Commit? {
      OtherStepsKeepOwners(m, devices, step);
    } else {
      var user, recs, now := m.pushes[step.ticket].user, m.pushes[step.ticket].pending.valid, step.clock.now;
      if i :| 0 <= i < |recs| && recs[i].id == id {
        UpsertOutcome(m.db, user, recs, now, i);
        assert recs[i] in recs;
      } else {
        UpsertTouchesOnlyItsIds(m.db, user, recs, now, id);
      }
    }
  }

  lemma LongerAdds(m: System, devices: Devices, steps: seq<Step>, n: nat, i: nat, id: ExpenseId)
    requires n <= |steps| && AddedAt(m, devices, steps[..n], i, id)
    ensures AddedAt(m, devices, steps, i, id)
  {
    assert steps[..n][..i] == steps[..i] && steps[..n][..i + 1] == steps[..i + 1];
  }

  lemma {:induction false} WasAdded(m: System, devices: Devices, steps: seq<Step>, id: ExpenseId)
    requires id !in m.db.rows && id in Run(m, devices, steps).db.rows
    ensures exists i :: AddedAt(m, devices, steps, i, id)
  {
    assert steps != [];
    var n := |steps| - 1;
    if id in Run(m, devices, steps[..n]).db.rows {
      WasAdded(m, devices, steps[..n], id);
      var i: nat :| AddedAt(m, devices, steps[..n], i, id);
      LongerAdds(m, devices, steps, n, i, id);
    } else {
      assert steps[..n + 1] == steps;
      assert AddedAt(m, devices, steps, n, id);
    }
  }

  lemma AddedStays(base: map<UserId, Currency>, devices: Devices, steps: seq<Step>, i: nat, j: nat, id: ExpenseId)
    requires AddedAt(Initial(base), devices, steps, i, id) && i < j <= |steps|
    ensures var first, later := Run(Initial(base), devices, steps[..i + 1]), Run(Initial(base), devices, steps[..j]);
            id in later.db.rows && Succeeds(first.db.rows[id], later.db.rows[id])
  {
    var m, added := Initial(base), Run(Initial(base), devices, steps[..i + 1]);
    assert steps[..j] == steps[..i + 1] + steps[i + 1..j];
    RunComposes(m, devices, steps[..i + 1], steps[i + 1..j]);
    RunAdvances(m, devices, steps[..i + 1]);
    RunAdvances(added, devices, steps[i + 1..j]);
  }

  lemma NotAddedTwice(base: map<UserId, Currency>, devices: Devices, steps: seq<Step>, i: nat, j: nat, id: ExpenseId)
    requires AddedAt(Initial(base), devices, steps, i, id) && AddedAt(Initial(base), devices, steps, j, id)
    ensures i >= j
  {
    if i < j { AddedStays(base, devices, steps, i, j, id); }
  }

  /** The rows of a run are those some step of it added, and none is added twice. */
  lemma AddedOnce(base: map<UserId, Currency>, devices: Devices, steps: seq<Step>, id: ExpenseId)
    ensures id in Run(Initial(base), devices, steps).db.rows
            <==> exists i :: AddedAt(Initial(base), devices, steps, i, id)
    ensures forall i, j | AddedAt(Initial(base), devices, steps, i, id) && AddedAt(Initial(base), devices, steps, j, id)
              :: i == j
  {
    assert steps[..|steps|] == steps;
    if id in Run(Initial(base), devices, steps).db.rows { WasAdded(Initial(base), devices, steps, id); }
    if i :| AddedAt(Initial(base), devices, steps, i, id) { AddedStays(base, devices, steps, i, |steps|, id); }
    forall i, j | AddedAt(Initial(base), devices, steps, i, id) && AddedAt(Initial(base), devices, steps, j, id)
      ensures i >= j
    {
      NotAddedTwice(base, devices, steps, i, j, id);
    }
  }

  /**
   * In every run a row was created, and still says so, at the database's clock of the upsert that
   * added it, by the user who pushed then.
   */
  lemma CreatedWhenAdded(base: map<UserId, Currency>, devices: Devices, steps: seq<Step>, i: nat, id: ExpenseId)
    requires AddedAt(Initial(base), devices, steps, i, id)
    ensures steps[i].Commit? && steps[i].ticket in Run(Initial(base), devices, steps[..i]).pushes
    ensures var rows := Run(Initial(base), devices, steps).db.rows;
            && id in rows && rows[id].createdAt == steps[i].clock.now
            && rows[id].user == Run(Initial(base), devices, steps[..i]).pushes[steps[i].ticket].user
  {
    RunAdvances(Initial(base), devices, steps[..i]);
    RunStep(Initial(base), devices, steps, i);
    StepAdds(Run(Initial(base), devices, steps[..i]), devices, steps[i], id);
    AddedStays(base, devices, steps, i, |steps|, id);
    assert steps[..|steps|] == steps;
  }

  /**
   * So a sweep's batch, after any run, goes by arrival: nothing left waiting was added at an earlier
   * clock than anything taken, and the batch itself is in the order of those clocks.
   */
  lemma SweepsByArrival(base: map<UserId, Currency>, devices: Devices, steps: seq<Step>, who: Option<UserId>,
                        limit: nat, batch: seq<ExpenseId>, k: nat, other: ExpenseId, i: nat, j: nat)
    requires IsBatch(Run(Initial(base), devices, steps).db, who, limit, batch) && k < |batch|
    requires AddedAt(Initial(base), devices, steps, i, batch[k]) && AddedAt(Initial(base), devices, steps, j, other)
    requires other in batch[k..] || (other !in batch && Waiting(Run(Initial(base), devices, steps).db, who, other))
    ensures steps[i].Commit? && steps[j].Commit? && steps[i].clock.now <= steps[j].clock.now
  {
    CreatedWhenAdded(base, devices, steps, i, batch[k]);
    CreatedWhenAdded(base, devices, steps, j, other);
    if other in batch[k..] {
      var l :| k <= l < |batch| && batch[l] == other;
    } else {
      assert other in Backlog(Run(Initial(base), devices, steps).db, who);
    }
  }
}
