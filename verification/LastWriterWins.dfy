/** Record-level last-writer-wins over whole runs (app/api/v1/sync.py, _CLIENT_UPDATE_COLUMNS and the upsert). */
module LastWriterWins {
  import opened Prelude
  import opened Converter
  import opened Expenses
  import opened PushValidation
  import opened Machine

  /** A record that reached the upsert, and the user who pushed it. */
  datatype Arrival = Arrival(user: UserId, rec: Record)

  function Matching(user: UserId, recs: seq<Record>, id: ExpenseId): seq<Arrival> {
    if recs == [] then []
    else (if recs[0].id == id then [Arrival(user, recs[0])] else []) + Matching(user, recs[1..], id)
  }

  function Arriving(m: System, step: Step, id: ExpenseId): seq<Arrival> {
    if step.Commit? && step.ticket in m.pushes
    then Matching(m.pushes[step.ticket].user, m.pushes[step.ticket].pending.valid, id)
    else []
  }

  /** The upserts of this id in the order the run commits them. */
  ghost function Arrivals(m: System, devices: Devices, steps: seq<Step>, id: ExpenseId): seq<Arrival> {
    if steps == [] then []
    else
      var n := |steps| - 1;
      Arrivals(m, devices, steps[..n], id) + Arriving(Run(m, devices, steps[..n]), steps[n], id)
  }

  function Rev(a: Arrival): nat { a.rec.cols.clientRev }

  /** The first arrival among those with the greatest revision. */
  function Winner(arrivals: seq<Arrival>): (w: nat)
    requires arrivals != []
    ensures w < |arrivals|
    ensures forall i | 0 <= i < |arrivals| :: Rev(arrivals[i]) <= Rev(arrivals[w])
    ensures forall i | 0 <= i < w :: Rev(arrivals[i]) < Rev(arrivals[w])
  {
    var n := |arrivals| - 1;
    if n == 0 then 0
    else
      var before := Winner(arrivals[..n]);
      if Rev(arrivals[before]) < Rev(arrivals[n]) then n else before
  }

  /** The row is the winner's columns in the first arrival's identity. */
  ghost predicate RowOf(rows: Rows, id: ExpenseId, arrivals: seq<Arrival>) {
    if arrivals == [] then id !in rows
    else
      && id in rows
      && rows[id].cols == arrivals[Winner(arrivals)].rec.cols
      && rows[id].user == arrivals[0].user && rows[id].device == arrivals[0].rec.device
  }

  lemma {:induction false} MatchingDistinct(user: UserId, recs: seq<Record>, id: ExpenseId)
    requires DistinctIds(recs)
    ensures (forall i | 0 <= i < |recs| :: recs[i].id != id) ==> Matching(user, recs, id) == []
    ensures forall i | 0 <= i < |recs| && recs[i].id == id :: Matching(user, recs, id) == [Arrival(user, recs[i])]
    decreases |recs|
  {
    if recs != [] {
      MatchingDistinct(user, recs[1..], id);
      assert forall i | 0 <= i < |recs[1..]| :: recs[1..][i] == recs[i + 1];
      forall i | 0 <= i < |recs| && recs[i].id == id
        ensures Matching(user, recs, id) == [Arrival(user, recs[i])]
      {
        if i > 0 { assert recs[1..][i - 1] == recs[i]; }
      }
    }
  }

  lemma OneMoreArrival(rows: Rows, rows': Rows, id: ExpenseId, arrivals: seq<Arrival>, user: UserId, rec: Record,
                       db: Tables, db': Tables, now: Timestamp)
    requires RowOf(rows, id, arrivals) && rec.id == id && db.rows == rows && db'.rows == rows'
    requires RecordOutcome(db, db', user, rec, now)
    ensures RowOf(rows', id, arrivals + [Arrival(user, rec)])
  {
    var longer := arrivals + [Arrival(user, rec)];
    assert longer[..|arrivals|] == arrivals;
  }

  lemma StepRowOf(m: System, devices: Devices, step: Step, id: ExpenseId, arrivals: seq<Arrival>)
    requires Inv(m) && RowOf(m.db.rows, id, arrivals)
    ensures RowOf(StepOf(m, devices, step).db.rows, id, arrivals + Arriving(m, step, id))
  {
    if step.Commit? && step.ticket in m.pushes {
      CommitRowOf(m.db, m.pushes[step.ticket].user, m.pushes[step.ticket].pending.valid, step.clock, id, arrivals);
    } else {
      assert arrivals + [] == arrivals;
    }
  }

  lemma CommitRowOf(db: Tables, user: UserId, recs: seq<Record>, clock: Clock, id: ExpenseId, arrivals: seq<Arrival>)
    requires Stamped(db) && DistinctIds(recs) && RowOf(db.rows, id, arrivals)
    ensures RowOf(CommitUpsert(db, user, recs, clock).rows, id, arrivals + Matching(user, recs, id))
  {
    var db' := UpsertAll(db, user, recs, clock.now);
    MatchingDistinct(user, recs, id);
    if i :| 0 <= i < |recs| && recs[i].id == id {
      UpsertOutcome(db, user, recs, clock.now, i);
      OneMoreArrival(db.rows, db'.rows, id, arrivals, user, recs[i], db, db', clock.now);
    } else {
      UpsertTouchesOnlyItsIds(db, user, recs, clock.now, id);
      assert arrivals + [] == arrivals;
    }
  }

  /**
   * After any interleaving of validations, upserts and sweeps from an empty store, a row exists
   * exactly for the ids that were ever upserted, its client columns are those of the first-arriving
   * upsert among those with the greatest client_rev, and its owner and device are the inserter's.
   */
  lemma {:induction false} GreatestRevisionWins(base: map<UserId, Currency>, devices: Devices, steps: seq<Step>,
                                                id: ExpenseId)
    ensures RowOf(Run(Initial(base), devices, steps).db.rows, id, Arrivals(Initial(base), devices, steps, id))
  {
    if steps != [] {
      var n := |steps| - 1;
      GreatestRevisionWins(base, devices, steps[..n], id);
      RunAdvances(Initial(base), devices, steps[..n]);
      StepRowOf(Run(Initial(base), devices, steps[..n]), devices, steps[n], id,
          Arrivals(Initial(base), devices, steps[..n], id));
    }
  }

  lemma SameWinner(a: seq<Arrival>, b: seq<Arrival>)
    requires a != [] && multiset(a) == multiset(b)
    requires forall i, j | 0 <= i < j < |a| :: Rev(a[i]) != Rev(a[j])
    ensures b != [] && a[Winner(a)] == b[Winner(b)]
  {
    assert |a| == |multiset(a)| == |multiset(b)| == |b|;
    var x, y := a[Winner(a)], b[Winner(b)];
    assert x in multiset(b) && y in multiset(a);
    var i :| 0 <= i < |b| && b[i] == x;
    var j :| 0 <= j < |a| && a[j] == y;
    assert Rev(x) <= Rev(y) && Rev(y) <= Rev(x);
  }

  lemma SameSurvivor(rows: Rows, rows': Rows, id: ExpenseId, a: seq<Arrival>, b: seq<Arrival>)
    requires RowOf(rows, id, a) && RowOf(rows', id, b) && multiset(a) == multiset(b)
    requires forall i, j | 0 <= i < j < |a| :: Rev(a[i]) != Rev(a[j])
    ensures id in rows <==> id in rows'
    ensures id in rows ==> rows[id].cols == rows'[id].cols
  {
    assert |a| == |multiset(a)| == |multiset(b)| == |b|;
    if a != [] { SameWinner(a, b); }
  }

  /**
   * Two runs in which the same upserts of an id arrive, with distinct revisions, in whatever order
   * and among whatever other steps, leave the same client columns under it.
   */
  lemma OrderDoesNotMatter(base: map<UserId, Currency>, devices: Devices, first: seq<Step>, second: seq<Step>,
                           id: ExpenseId)
    requires multiset(Arrivals(Initial(base), devices, first, id))
             == multiset(Arrivals(Initial(base), devices, second, id))
    requires var a := Arrivals(Initial(base), devices, first, id);
             forall i, j | 0 <= i < j < |a| :: Rev(a[i]) != Rev(a[j])
    ensures var rows, rows' := Run(Initial(base), devices, first).db.rows, Run(Initial(base), devices, second).db.rows;
            && (id in rows <==> id in rows')
            && (id in rows ==> rows[id].cols == rows'[id].cols)
  {
    GreatestRevisionWins(base, devices, first, id);
    GreatestRevisionWins(base, devices, second, id);
    SameSurvivor(Run(Initial(base), devices, first).db.rows, Run(Initial(base), devices, second).db.rows, id,
                 Arrivals(Initial(base), devices, first, id), Arrivals(Initial(base), devices, second, id));
  }
}
