/** Re-pushing what was pushed before is a no-op on rows and counters, though not on the sequence. */
module Replay {
  import opened Prelude
  import opened Expenses
  import opened PushValidation
  import opened Database
  import opened Machine

  /** The stored revision is at least the record's: the upsert will never apply it again. */
  ghost predicate Settled(db: Tables, rec: Record) {
    rec.id in db.rows && rec.cols.clientRev <= db.rows[rec.id].cols.clientRev
  }

  ghost predicate AllSettled(db: Tables, recs: seq<Record>) {
    forall i | 0 <= i < |recs| :: Settled(db, recs[i])
  }

  lemma SettledStays(db: Tables, db': Tables, rec: Record)
    requires Settled(db, rec) && Advances(db, db')
    ensures Settled(db', rec)
  {
    assert Succeeds(db.rows[rec.id], db'.rows[rec.id]);
  }

  /** Upserting settled records changes nothing but the sequence, which loses one value a record. */
  lemma {:induction false} SettledUpsert(db: Tables, user: UserId, recs: seq<Record>, now: Timestamp)
    requires AllSettled(db, recs)
    ensures UpsertAll(db, user, recs, now) == db.(seqValue := db.seqValue + |recs|)
    ensures Returning(db, user, recs, now) == []
    decreases |recs|
  {
    if recs != [] {
      var next := UpsertOne(db, user, recs[0], now);
      assert Settled(db, recs[0]);
      assert next == db.(seqValue := db.seqValue + 1);
      forall i | 0 <= i < |recs[1..]|
        ensures Settled(next, recs[1..][i])
      {
        assert Settled(db, recs[i + 1]);
      }
      SettledUpsert(next, user, recs[1..], now);
    }
  }

  /** Once upserted, a batch is settled. */
  lemma UpsertSettles(db: Tables, user: UserId, recs: seq<Record>, clock: Clock)
    requires Stamped(db) && DistinctIds(recs)
    ensures AllSettled(CommitUpsert(db, user, recs, clock), recs)
  {
    forall i | 0 <= i < |recs|
      ensures Settled(CommitUpsert(db, user, recs, clock), recs[i])
    {
      UpsertOutcome(db, user, recs, clock.now, i);
    }
  }

  /** What validates again later had already passed the first time, so it is settled by now. */
  lemma RevalidatedIsSettled(first: Tables, seen: Tables, db: Tables, devices: Devices, user: UserId, payload: seq<Raw>)
    requires Advances(first, seen)
    requires AllSettled(db, Validated(first.rows, devices, user, payload).valid)
    ensures AllSettled(db, Validated(seen.rows, devices, user, payload).valid)
  {
    var before, again := Validated(first.rows, devices, user, payload).valid,
        Validated(seen.rows, devices, user, payload).valid;
    forall i | 0 <= i < |again|
      ensures Settled(db, again[i])
    {
      var rec := again[i];
      ValidExact(seen.rows, devices, user, payload, rec);
      if rec.id in first.rows { assert Succeeds(first.rows[rec.id], seen.rows[rec.id]); }
      ValidExact(first.rows, devices, user, payload, rec);
      var j :| 0 <= j < |before| && before[j] == rec;
    }
  }

  /** No step of the run uses this ticket. */
  ghost predicate LeavesTicket(steps: seq<Step>, ticket: Ticket) {
    forall i | 0 <= i < |steps| :: (steps[i].Validate? || steps[i].Commit?) ==> steps[i].ticket != ticket
  }

  lemma {:induction false} TicketWaits(m: System, devices: Devices, steps: seq<Step>, ticket: Ticket)
    requires ticket in m.pushes && LeavesTicket(steps, ticket)
    ensures var m' := Run(m, devices, steps); ticket in m'.pushes && m'.pushes[ticket] == m.pushes[ticket]
  {
    if steps != [] {
      var n := |steps| - 1;
      TicketWaits(m, devices, steps[..n], ticket);
    }
  }

  lemma AllSettledStays(db: Tables, db': Tables, recs: seq<Record>)
    requires AllSettled(db, recs) && Advances(db, db')
    ensures AllSettled(db', recs)
  {
    forall i | 0 <= i < |recs|
      ensures Settled(db', recs[i])
    {
      SettledStays(db, db', recs[i]);
    }
  }

  /** A push is validated, other steps run, it is upserted, and further steps run. */
  ghost function AfterPush(m: System, devices: Devices, user: UserId, payload: seq<Raw>, clock: Clock, ticket: Ticket,
                           between: seq<Step>, later: seq<Step>): System
  {
    var validated := StepOf(m, devices, Validate(ticket, user, payload));
    var pushed := StepOf(Run(validated, devices, between), devices, Commit(ticket, clock));
    Run(pushed, devices, later)
  }

  lemma CommitSettles(m: System, devices: Devices, ticket: Ticket, clock: Clock, recs: seq<Record>)
    requires Inv(m) && ticket in m.pushes && m.pushes[ticket].pending.valid == recs
    ensures AllSettled(StepOf(m, devices, Commit(ticket, clock)).db, recs)
  {
    UpsertSettles(m.db, m.pushes[ticket].user, recs, clock);
  }

  lemma PushSettles(m: System, devices: Devices, user: UserId, payload: seq<Raw>, clock: Clock, ticket: Ticket,
                    between: seq<Step>, later: seq<Step>)
    requires Inv(m) && LeavesTicket(between, ticket)
    ensures var m' := AfterPush(m, devices, user, payload, clock, ticket, between, later);
            && Inv(m') && Advances(m.db, m'.db)
            && AllSettled(m'.db, Validated(m.db.rows, devices, user, payload).valid)
  {
    var recs := Validated(m.db.rows, devices, user, payload).valid;
    var commit := Commit(ticket, clock);
    var validated := StepOf(m, devices, Validate(ticket, user, payload));
    var ready := Run(validated, devices, between);
    var pushed := StepOf(ready, devices, commit);
    StepAdvances(m, devices, Validate(ticket, user, payload));
    TicketWaits(validated, devices, between, ticket);
    RunAdvances(validated, devices, between);
    StepAdvances(ready, devices, commit);
    CommitSettles(ready, devices, ticket, clock, recs);
    RunAdvances(pushed, devices, later);
    AllSettledStays(pushed.db, Run(pushed, devices, later).db, recs);
    AdvancesTransitive(m.db, ready.db, pushed.db);
    AdvancesTransitive(m.db, pushed.db, Run(pushed, devices, later).db);
  }

  /**
   * With device ownership fixed: a batch that was validated and upserted is validated again in any
   * later state and upserted in any state after that. No row and no counter changes, so no
   * tombstone is lifted, nothing is reported applied, and only the sequence moves.
   */
  lemma ReplayIsNoOp(m: System, devices: Devices, user: UserId, payload: seq<Raw>, clock: Clock, ticket: Ticket,
                     between: seq<Step>, later: seq<Step>, replay: seq<Step>, clock': Clock)
    requires Inv(m) && LeavesTicket(between, ticket)
    ensures var seen := AfterPush(m, devices, user, payload, clock, ticket, between, later);
            var again := Run(seen, devices, replay);
            var p := Validated(seen.db.rows, devices, user, payload);
            var (db', response) := Committed(again.db, user, p, clock');
            && db' == again.db.(seqValue := again.db.seqValue + |p.valid|)
            && forall k | 0 <= k < |response.results| :: !response.results[k].status.Applied?
  {
    var seen := AfterPush(m, devices, user, payload, clock, ticket, between, later);
    var again := Run(seen, devices, replay);
    PushSettles(m, devices, user, payload, clock, ticket, between, later);
    RunAdvances(seen, devices, replay);
    AllSettledStays(seen.db, again.db, Validated(m.db.rows, devices, user, payload).valid);
    RevalidatedIsSettled(m.db, seen.db, again.db, devices, user, payload);
    SettledUpsert(again.db, user, Validated(seen.db.rows, devices, user, payload).valid, clock'.now);
  }
}
