/**
 * The backend as one state machine over its tables. A push is two steps, validation and upsert, and
 * a sweep of one row is two, its read and its write, so requests and sweeps of any number of
 * devices interleave freely. Every step is total: one that names nothing pending does nothing.
 */
module Machine {
  import opened Prelude
  import opened Converter
  import opened Expenses
  import opened PushValidation
  import opened Sweep

  type Ticket = nat

  datatype Step =
    | Validate(ticket: Ticket, user: UserId, payload: seq<Raw>)
    | Commit(ticket: Ticket, clock: Clock)
    | SweepRead(ticket: Ticket, id: ExpenseId)
    | SweepWrite(ticket: Ticket, price: Pricing)
    | NullSweep(user: UserId, stamps: map<ExpenseId, nat>)
    | ChangeBase(user: UserId, currency: Currency, stamps: map<ExpenseId, nat>)

  datatype Pushing = Pushing(user: UserId, pending: Pending)

  /** The tables, the pushes validated but not upserted, and the rows a sweep has read but not written. */
  datatype System = System(db: Tables, pushes: map<Ticket, Pushing>, sweeps: map<Ticket, Snapshot>)

  ghost function NullOrSkip(db: Tables, user: UserId, stamps: map<ExpenseId, nat>): Tables {
    if StampsOf(Enriched(db.rows, user), db.seqValue, stamps) then NullAmountBase(db, user, stamps) else db
  }

  ghost function StepOf(m: System, devices: Devices, step: Step): System {
    match step
    case Validate(ticket, user, payload) =>
      m.(pushes := m.pushes[ticket := Pushing(user, Validated(m.db.rows, devices, user, payload))])
    case Commit(ticket, clock) =>
      if ticket !in m.pushes then m
      else
        var p := m.pushes[ticket];
        m.(db := CommitUpsert(m.db, p.user, p.pending.valid, clock), pushes := m.pushes - {ticket})
    case SweepRead(ticket, id) =>
      if Waiting(m.db, None, id) then m.(sweeps := m.sweeps[ticket := SnapshotOf(m.db, id)]) else m
    case SweepWrite(ticket, price) =>
      if ticket !in m.sweeps then m
      else
        var s := m.sweeps[ticket];
        m.(db := if price(s).Value? then UpdateById(m.db, s, price(s).amount) else m.db, sweeps := m.sweeps - {ticket})
    case NullSweep(user, stamps) =>
      m.(db := NullOrSkip(m.db, user, stamps))
    case ChangeBase(user, currency, stamps) =>
      if user in m.db.base && StampsOf(Enriched(m.db.rows, user), m.db.seqValue, stamps)
      then m.(db := NullAmountBase(m.db, user, stamps).(base := m.db.base[user := currency]))
      else m
  }

  ghost function Run(m: System, devices: Devices, steps: seq<Step>): System {
    if steps == [] then m else StepOf(Run(m, devices, steps[..|steps| - 1]), devices, steps[|steps| - 1])
  }

  function Initial(base: map<UserId, Currency>): System {
    System(Tables(map[], 0, map[], base), map[], map[])
  }

  /** What every reachable state satisfies. */
  ghost predicate Inv(m: System) {
    Stamped(m.db) && forall t | t in m.pushes :: DistinctIds(m.pushes[t].pending.valid)
  }

  ghost predicate Moves(db: Tables, db': Tables) { Stamped(db') && Advances(db, db') }

  lemma CommitMoves(db: Tables, user: UserId, recs: seq<Record>, clock: Clock)
    requires Stamped(db)
    ensures Moves(db, CommitUpsert(db, user, recs, clock))
  {
    UpsertAdvances(db, user, recs, clock.now);
  }

  lemma NullOrSkipMoves(db: Tables, user: UserId, stamps: map<ExpenseId, nat>, base: map<UserId, Currency>)
    requires Stamped(db)
    ensures Moves(db, NullOrSkip(db, user, stamps)) && Moves(db, NullOrSkip(db, user, stamps).(base := base))
  {
    if StampsOf(Enriched(db.rows, user), db.seqValue, stamps) { NullAmountBaseAdvances(db, user, stamps); }
  }

  lemma SweepWriteMoves(db: Tables, s: Snapshot, price: Pricing)
    requires Stamped(db)
    ensures price(s).Value? ==> Moves(db, UpdateById(db, s, price(s).amount))
  {
    if price(s).Value? { UpdateByIdAdvances(db, s, price(s).amount); }
  }

  lemma StepMoves(m: System, devices: Devices, step: Step)
    requires Stamped(m.db)
    ensures Moves(m.db, StepOf(m, devices, step).db)
  {
    match step
    case Validate(_, _, _) =>
    case Commit(ticket, clock) =>
      if ticket in m.pushes { CommitMoves(m.db, m.pushes[ticket].user, m.pushes[ticket].pending.valid, clock); }
    case SweepRead(_, _) =>
    case SweepWrite(ticket, price) =>
      if ticket in m.sweeps { SweepWriteMoves(m.db, m.sweeps[ticket], price); }
    case NullSweep(user, stamps) => NullOrSkipMoves(m.db, user, stamps, m.db.base);
    case ChangeBase(user, currency, stamps) => NullOrSkipMoves(m.db, user, stamps, m.db.base[user := currency]);
  }

  lemma StepAdvances(m: System, devices: Devices, step: Step)
    requires Inv(m)
    ensures Inv(StepOf(m, devices, step)) && Advances(m.db, StepOf(m, devices, step).db)
  {
    StepMoves(m, devices, step);
    if step.Validate? { ValidIsDistinct(m.db.rows, devices, step.user, step.payload); }
  }

  /** In every run no row is lost, changes owner or falls in revision, and every change is stamped anew. */
  lemma {:induction false} RunAdvances(m: System, devices: Devices, steps: seq<Step>)
    requires Inv(m)
    ensures Inv(Run(m, devices, steps)) && Advances(m.db, Run(m, devices, steps).db)
  {
    if steps != [] {
      var n := |steps| - 1;
      var before := Run(m, devices, steps[..n]);
      RunAdvances(m, devices, steps[..n]);
      StepAdvances(before, devices, steps[n]);
      AdvancesTransitive(m.db, before.db, Run(m, devices, steps).db);
    }
  }

  lemma {:induction false} RunComposes(m: System, devices: Devices, first: seq<Step>, second: seq<Step>)
    ensures Run(m, devices, first + second) == Run(Run(m, devices, first), devices, second)
    decreases |second|
  {
    if second == [] {
      assert first + second == first;
    } else {
      var n := |second| - 1;
      assert (first + second)[..|first| + n] == first + second[..n];
      RunComposes(m, devices, first, second[..n]);
    }
  }

  lemma RunStep(m: System, devices: Devices, steps: seq<Step>, n: nat)
    requires n < |steps|
    ensures Run(m, devices, steps[..n + 1]) == StepOf(Run(m, devices, steps[..n]), devices, steps[n])
  {
    assert steps[..n + 1][..n] == steps[..n];
  }
}
