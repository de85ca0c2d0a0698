/**
 * A push checks that the rows it names are its user's, and then upserts with no condition on the
 * owner (app/api/v1/sync.py:141-154 against 198-202). Between the two another user can insert a row
 * under one of its ids. This module says exactly when a commit then changes that user's row.
 */
module Ownership {
  import opened Prelude
  import opened Converter
  import opened Expenses
  import opened PushValidation
  import opened Machine

  /** The place of the validation a pending push came from. */
  function ValidatedAt(steps: seq<Step>, ticket: Ticket): Option<nat> {
    if steps == [] then None
    else
      var n := |steps| - 1;
      if steps[n].Validate? && steps[n].ticket == ticket then Some(n)
      else if steps[n].Commit? && steps[n].ticket == ticket then None
      else ValidatedAt(steps[..n], ticket)
  }

  /** A pending push is what its validation made of its batch. */
  ghost predicate PushIsKept(m: System, devices: Devices, steps: seq<Step>, ticket: Ticket) {
    var pushes, at := Run(m, devices, steps).pushes, ValidatedAt(steps, ticket);
    ticket in pushes ==>
      && at.Some? && at.value < |steps| && steps[at.value].Validate?
      && var seen, step := Run(m, devices, steps[..at.value]).db.rows, steps[at.value];
         pushes[ticket] == Pushing(step.user, Validated(seen, devices, step.user, step.payload))
  }

  /** The last step of the run neither makes nor spends this ticket. */
  predicate LeavesPending(steps: seq<Step>, ticket: Ticket)
    requires steps != []
  {
    var step := steps[|steps| - 1];
    (step.Validate? || step.Commit?) ==> step.ticket != ticket
  }

  lemma PushIsCarried(m: System, devices: Devices, steps: seq<Step>, ticket: Ticket)
    requires steps != [] && LeavesPending(steps, ticket)
    ensures var before, after := Run(m, devices, steps[..|steps| - 1]).pushes, Run(m, devices, steps).pushes;
            && (ticket in after ==> ticket in before && after[ticket] == before[ticket])
            && ValidatedAt(steps, ticket) == ValidatedAt(steps[..|steps| - 1], ticket)
  {
  }

  lemma {:induction false} PendingPushIsKept(m: System, devices: Devices, steps: seq<Step>, ticket: Ticket)
    requires m.pushes == map[]
    ensures PushIsKept(m, devices, steps, ticket)
  {
    if steps != [] && LeavesPending(steps, ticket) {
      var n := |steps| - 1;
      PendingPushIsKept(m, devices, steps[..n], ticket);
      PushIsCarried(m, devices, steps, ticket);
      var at := ValidatedAt(steps, ticket);
      if at.Some? && at.value < n { assert steps[..n][..at.value] == steps[..at.value]; }
    }
  }

  /** Rows seen at some point of a run are there later, under the same owner. */
  lemma {:induction false} OwnersStay(m: System, devices: Devices, steps: seq<Step>, i: nat)
    requires Inv(m) && i <= |steps|
    ensures KeepsRows(Run(m, devices, steps[..i]).db.rows, Run(m, devices, steps).db.rows)
  {
    RunComposes(m, devices, steps[..i], steps[i..]);
    assert steps[..i] + steps[i..] == steps;
    RunAdvances(m, devices, steps[..i]);
    RunAdvances(Run(m, devices, steps[..i]), devices, steps[i..]);
    AdvancesKeep(Run(m, devices, steps[..i]).db, Run(m, devices, steps).db);
  }

  lemma AdvancesKeep(db: Tables, db': Tables)
    requires Advances(db, db')
    ensures KeepsRows(db.rows, db'.rows)
  {
    forall id | id in db.rows
      ensures id in db'.rows && db'.rows[id].user == db.rows[id].user
    {
      assert Succeeds(db.rows[id], db'.rows[id]);
    }
  }

  /** The record of this id that reaches the upsert, judged by the rows the validation saw. */
  ghost predicate Passes(seen: Rows, devices: Devices, user: UserId, payload: seq<Raw>, id: ExpenseId, rec: Record) {
    rec.id == id && Admitted(seen, devices, user, payload, rec)
  }

  /** What a commit does to a row: its newer record, or nothing. */
  lemma CommitChangesIff(seen: Rows, db: Tables, devices: Devices, user: UserId, payload: seq<Raw>, clock: Clock,
                         id: ExpenseId)
    requires Stamped(db) && id in db.rows
    ensures var db' := CommitUpsert(db, user, Validated(seen, devices, user, payload).valid, clock);
            && id in db'.rows && db'.rows[id].user == db.rows[id].user
            && (db'.rows[id] != db.rows[id] <==>
                  exists rec :: Passes(seen, devices, user, payload, id, rec) && Applies(db.rows, rec))
            && forall rec | Passes(seen, devices, user, payload, id, rec) && Applies(db.rows, rec) ::
                 db'.rows[id].cols == rec.cols
  {
    var valid := Validated(seen, devices, user, payload).valid;
    UpsertAdvances(db, user, valid, clock.now);
    ValidIsDistinct(seen, devices, user, payload);
    assert Succeeds(db.rows[id], CommitUpsert(db, user, valid, clock).rows[id]);
    if i :| 0 <= i < |valid| && valid[i].id == id {
      ValidExact(seen, devices, user, payload, valid[i]);
      UpsertOutcome(db, user, valid, clock.now, i);
      assert Passes(seen, devices, user, payload, id, valid[i]);
    } else {
      UpsertTouchesOnlyItsIds(db, user, valid, clock.now, id);
      forall rec | Passes(seen, devices, user, payload, id, rec)
        ensures false
      {
        ValidExact(seen, devices, user, payload, rec);
      }
    }
  }

  /** Another user's row can pass only if the validation did not see it. */
  lemma PassesUnseen(seen: Rows, rows: Rows, devices: Devices, user: UserId, payload: seq<Raw>, id: ExpenseId,
                     rec: Record)
    requires KeepsRows(seen, rows) && id in rows && rows[id].user != user
    requires Passes(seen, devices, user, payload, id, rec)
    ensures id !in seen
  {
  }

  /**
   * In every run: a commit changes a row of another user if and only if that row was not there yet
   * at the push's validation, and the batch's first copy of the id is well-formed, comes from a
   * device the pusher owns, and has a higher revision than the row. It then takes the copy's
   * columns, and stays its owner's.
   */
  lemma ForeignRowChangedIff(base: map<UserId, Currency>, devices: Devices, steps: seq<Step>, ticket: Ticket,
                             clock: Clock, id: ExpenseId)
    requires var m := Run(Initial(base), devices, steps);
             ticket in m.pushes && id in m.db.rows && m.db.rows[id].user != m.pushes[ticket].user
    ensures ValidatedAt(steps, ticket).Some? && ValidatedAt(steps, ticket).value < |steps|
    ensures steps[ValidatedAt(steps, ticket).value].Validate?
    ensures var m := Run(Initial(base), devices, steps);
            var rows' := StepOf(m, devices, Commit(ticket, clock)).db.rows;
            var at := ValidatedAt(steps, ticket).value;
            var seen := Run(Initial(base), devices, steps[..at]).db.rows;
            && id in rows' && rows'[id].user == m.db.rows[id].user
            && (rows'[id] != m.db.rows[id] <==>
                  && id !in seen
                  && exists rec :: Passes(seen, devices, steps[at].user, steps[at].payload, id, rec)
                                   && m.db.rows[id].cols.clientRev < rec.cols.clientRev && rows'[id].cols == rec.cols)
  {
    var m := Run(Initial(base), devices, steps);
    PendingPushIsKept(Initial(base), devices, steps, ticket);
    var at := ValidatedAt(steps, ticket).value;
    var seen, user, payload := Run(Initial(base), devices, steps[..at]).db.rows, steps[at].user, steps[at].payload;
    OwnersStay(Initial(base), devices, steps, at);
    RunAdvances(Initial(base), devices, steps);
    CommitChangesIff(seen, m.db, devices, user, payload, clock, id);
    forall rec | Passes(seen, devices, user, payload, id, rec)
      ensures id !in seen
    {
      PassesUnseen(seen, m.db.rows, devices, user, payload, id, rec);
    }
  }

  // ----- it happens ----------------------------------------------------------------------------------------

  /** One user's push is validated, another user inserts under the same id, and then the first commits. */
  function Colliding(user: UserId, rec: Record, other: UserId, first: Record, clock: Clock): seq<Step> {
    [Validate(0, user, [WellFormed(rec)]), Validate(1, other, [WellFormed(first)]), Commit(1, clock), Commit(0, clock)]
  }

  /** Both validated against the empty table. */
  ghost predicate BothPending(m: System, user: UserId, rec: Record, other: UserId, first: Record) {
    && Inv(m) && m.db.rows == map[]
    && 0 in m.pushes && m.pushes[0].user == user && m.pushes[0].pending.valid == [rec]
    && 1 in m.pushes && m.pushes[1].user == other && m.pushes[1].pending.valid == [first]
  }

  lemma BothValidated(base: map<UserId, Currency>, devices: Devices, user: UserId, rec: Record, other: UserId,
                      first: Record)
    requires rec.device in devices && devices[rec.device] == user
    requires first.device in devices && devices[first.device] == other
    ensures var m := StepOf(Initial(base), devices, Validate(0, user, [WellFormed(rec)]));
            BothPending(StepOf(m, devices, Validate(1, other, [WellFormed(first)])), user, rec, other, first)
  {
    var m := StepOf(Initial(base), devices, Validate(0, user, [WellFormed(rec)]));
    SingleIsValid(map[], devices, user, rec);
    SingleIsValid(map[], devices, other, first);
    StepAdvances(Initial(base), devices, Validate(0, user, [WellFormed(rec)]));
    StepAdvances(m, devices, Validate(1, other, [WellFormed(first)]));
  }

  lemma BothCommitted(m: System, devices: Devices, user: UserId, rec: Record, other: UserId, first: Record,
                      clock: Clock)
    requires BothPending(m, user, rec, other, first) && first.id == rec.id
    requires first.cols.clientRev < rec.cols.clientRev
    ensures var rows := StepOf(StepOf(m, devices, Commit(1, clock)), devices, Commit(0, clock)).db.rows;
            rec.id in rows && rows[rec.id].user == other && rows[rec.id].cols == rec.cols
  {
    var inserted := StepOf(m, devices, Commit(1, clock));
    UpsertAdvances(m.db, other, [first], clock.now);
    UpsertOutcome(m.db, other, [first], clock.now, 0);
    UpsertOutcome(inserted.db, user, [rec], clock.now, 0);
  }

  lemma FourSteps(m: System, devices: Devices, steps: seq<Step>)
    requires |steps| == 4
    ensures var two := StepOf(StepOf(m, devices, steps[0]), devices, steps[1]);
            Run(m, devices, steps) == StepOf(StepOf(two, devices, steps[2]), devices, steps[3])
  {
    RunStep(m, devices, steps, 0);
    RunStep(m, devices, steps, 1);
    RunStep(m, devices, steps, 2);
    RunStep(m, devices, steps, 3);
    assert steps[..4] == steps && Run(m, devices, steps[..0]) == m;
  }

  /** So for any two users and records of one id this run ends with one user's row holding the other's columns. */
  lemma ForeignEditIsReachable(base: map<UserId, Currency>, devices: Devices, user: UserId, rec: Record, other: UserId,
                               first: Record, clock: Clock)
    requires user != other && first.id == rec.id && first.cols.clientRev < rec.cols.clientRev
    requires rec.device in devices && devices[rec.device] == user
    requires first.device in devices && devices[first.device] == other
    ensures var rows := Run(Initial(base), devices, Colliding(user, rec, other, first, clock)).db.rows;
            rec.id in rows && rows[rec.id].user == other && rows[rec.id].cols == rec.cols
  {
    var m := StepOf(Initial(base), devices, Validate(0, user, [WellFormed(rec)]));
    FourSteps(Initial(base), devices, Colliding(user, rec, other, first, clock));
    BothValidated(base, devices, user, rec, other, first);
    BothCommitted(StepOf(m, devices, Validate(1, other, [WellFormed(first)])), devices, user, rec, other, first, clock);
  }
}
