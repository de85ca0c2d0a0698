/**
 * The derived amount_base never disagrees with the columns it is derived from, as long as no edit
 * that reprices a row lands between a sweep's read of it and its write (app/api/v1/sync.py:183-194,
 * app/services/fx/recompute.py:61-72 and 93-97).
 */
module Freshness {
  import opened Prelude
  import opened Converter
  import opened Expenses
  import opened PushValidation
  import opened Sweep
  import opened Machine

  /** A system, and for every amount written so far the rates of the sweep that wrote it. */
  datatype Traced = Traced(m: System, prices: map<ExpenseId, Pricing>)

  ghost function TracedStep(t: Traced, devices: Devices, step: Step): Traced {
    Traced(StepOf(t.m, devices, step),
           if Writes(t.m, step) then t.prices[t.m.sweeps[step.ticket].id := step.price] else t.prices)
  }

  /** The step stores an amount. */
  ghost predicate Writes(m: System, step: Step) {
    && step.SweepWrite? && step.ticket in m.sweeps
    && step.price(m.sweeps[step.ticket]).Value? && m.sweeps[step.ticket].id in m.db.rows
  }

  ghost function TracedRun(t: Traced, devices: Devices, steps: seq<Step>): Traced {
    if steps == [] then t else TracedStep(TracedRun(t, devices, steps[..|steps| - 1]), devices, steps[|steps| - 1])
  }

  /** The traced run is the run. */
  lemma {:induction false} TracedRunIsRun(t: Traced, devices: Devices, steps: seq<Step>)
    ensures TracedRun(t, devices, steps).m == Run(t.m, devices, steps)
  {
    if steps != [] { TracedRunIsRun(t, devices, steps[..|steps| - 1]); }
  }

  /**
   * The row's amount, if it has one, is what the rates of its sweep make of the row as it stands
   * now, in its owner's base currency of now.
   */
  ghost predicate FreshRow(t: Traced, id: ExpenseId)
    requires id in t.m.db.rows
  {
    var row := t.m.db.rows[id];
    row.amountBase.Some? ==>
      && id in t.prices && row.user in t.m.db.base
      && row.currencyBase == Some(t.m.db.base[row.user])
      && t.prices[id](SnapshotOf(t.m.db, id)) == Value(row.amountBase.value)
  }

  ghost predicate Fresh(t: Traced) { forall id | id in t.m.db.rows :: FreshRow(t, id) }

  /** The row a sweep is about to write still converts to what the sweep computed, and into the same currency. */
  ghost predicate StillPriced(m: System, step: Step) {
    Writes(m, step) ==>
      var s := m.sweeps[step.ticket];
      && m.db.rows[s.id].user in m.db.base && m.db.base[m.db.rows[s.id].user] == s.baseCurrency
      && step.price(SnapshotOf(m.db, s.id)) == step.price(s)
  }

  /** Every sweep write of the run finds its row still so. */
  ghost predicate Calm(m: System, devices: Devices, steps: seq<Step>) {
    forall i | 0 <= i < |steps| :: StillPriced(Run(m, devices, steps[..i]), steps[i])
  }

  lemma CommitStaysFresh(t: Traced, t': Traced, user: UserId, recs: seq<Record>, clock: Clock, id: ExpenseId)
    requires Stamped(t.m.db) && DistinctIds(recs) && Fresh(t)
    requires t'.prices == t.prices && t'.m.db == CommitUpsert(t.m.db, user, recs, clock) && id in t'.m.db.rows
    ensures FreshRow(t', id)
  {
    var db := t.m.db;
    UpsertAdvances(db, user, recs, clock.now);
    if i :| 0 <= i < |recs| && recs[i].id == id {
      UpsertOutcome(db, user, recs, clock.now, i);
      assert RecordOutcome(db, t'.m.db, user, recs[i], clock.now);
      if id in db.rows { EditStaysFresh(t, t', id, user, recs[i], clock.now); }
    } else {
      UpsertTouchesOnlyItsIds(db, user, recs, clock.now, id);
    }
  }

  lemma EditStaysFresh(t: Traced, t': Traced, id: ExpenseId, user: UserId, rec: Record, now: Timestamp)
    requires id in t.m.db.rows && FreshRow(t, id) && rec.id == id
    requires t'.prices == t.prices && t'.m.db.base == t.m.db.base
    requires RecordOutcome(t.m.db, t'.m.db, user, rec, now)
    ensures FreshRow(t', id)
  {
  }

  lemma OtherStepStaysFresh(t: Traced, devices: Devices, step: Step, id: ExpenseId)
    requires Fresh(t) && StillPriced(t.m, step) && !(step.Commit? && step.ticket in t.m.pushes)
    requires id in TracedStep(t, devices, step).m.db.rows
    ensures FreshRow(TracedStep(t, devices, step), id)
  {
    assert id in t.m.db.rows;
    assert FreshRow(t, id);
  }

  lemma StepStaysFresh(t: Traced, devices: Devices, step: Step)
    requires Inv(t.m) && Fresh(t) && StillPriced(t.m, step)
    ensures Fresh(TracedStep(t, devices, step))
  {
    var t' := TracedStep(t, devices, step);
    forall id | id in t'.m.db.rows
      ensures FreshRow(t', id)
    {
      if step.Commit? && step.ticket in t.m.pushes {
        var p := t.m.pushes[step.ticket];
        CommitStaysFresh(t, t', p.user, p.pending.valid, step.clock, id);
      } else {
        OtherStepStaysFresh(t, devices, step, id);
      }
    }
  }

  /**
   * In every state of a run whose sweep writes find their rows still priced as read, a non-NULL
   * amount_base is the conversion of the row's current columns into its owner's current base
   * currency, under the rates of the sweep that wrote it.
   */
  lemma {:induction false} AmountBaseIsFresh(base: map<UserId, Currency>, devices: Devices, steps: seq<Step>)
    requires Calm(Initial(base), devices, steps)
    ensures var t := TracedRun(Traced(Initial(base), map[]), devices, steps);
            t.m == Run(Initial(base), devices, steps) && Fresh(t)
  {
    var m, t0 := Initial(base), Traced(Initial(base), map[]);
    TracedRunIsRun(t0, devices, steps);
    if steps != [] {
      var n := |steps| - 1;
      PrefixIsCalm(m, devices, steps, n);
      AmountBaseIsFresh(base, devices, steps[..n]);
      RunAdvances(m, devices, steps[..n]);
      StepStaysFresh(TracedRun(t0, devices, steps[..n]), devices, steps[n]);
    }
  }

  lemma PrefixIsCalm(m: System, devices: Devices, steps: seq<Step>, n: nat)
    requires Calm(m, devices, steps) && n <= |steps|
    ensures Calm(m, devices, steps[..n])
  {
    forall i | 0 <= i < n
      ensures StillPriced(Run(m, devices, steps[..n][..i]), steps[..n][i])
    {
      assert steps[..n][..i] == steps[..i];
    }
  }

  /** The hypothesis is exact: a write leaves its row fresh if and only if it found it still priced as read. */
  lemma WriteIsFreshIff(t: Traced, devices: Devices, step: Step)
    requires Writes(t.m, step)
    ensures var id := t.m.sweeps[step.ticket].id;
            && id in TracedStep(t, devices, step).m.db.rows
            && (FreshRow(TracedStep(t, devices, step), id) <==> StillPriced(t.m, step))
  {
    var s, t' := t.m.sweeps[step.ticket], TracedStep(t, devices, step);
    assert t'.m.db.rows[s.id].amountBase == Some(step.price(s).amount);
    if t.m.db.rows[s.id].user in t.m.db.base { assert SnapshotOf(t'.m.db, s.id) == SnapshotOf(t.m.db, s.id); }
  }

  lemma TracedRunStep(t: Traced, devices: Devices, steps: seq<Step>, n: nat)
    requires n < |steps|
    ensures TracedRun(t, devices, steps[..n + 1]) == TracedStep(TracedRun(t, devices, steps[..n]), devices, steps[n])
  {
    assert steps[..n + 1][..n] == steps[..n];
  }

  ghost predicate AlwaysFresh(base: map<UserId, Currency>, devices: Devices, steps: seq<Step>) {
    forall n | 0 <= n <= |steps| :: Fresh(TracedRun(Traced(Initial(base), map[]), devices, steps[..n]))
  }

  lemma FreshAfterWrite(base: map<UserId, Currency>, devices: Devices, steps: seq<Step>, i: nat)
    requires AlwaysFresh(base, devices, steps) && i < |steps|
    ensures StillPriced(Run(Initial(base), devices, steps[..i]), steps[i])
  {
    var t0 := Traced(Initial(base), map[]);
    var t := TracedRun(t0, devices, steps[..i]);
    TracedRunIsRun(t0, devices, steps[..i]);
    TracedRunStep(t0, devices, steps, i);
    assert Fresh(TracedRun(t0, devices, steps[..i + 1]));
    if Writes(t.m, steps[i]) { WriteIsFreshIff(t, devices, steps[i]); }
  }

  /**
   * Over whole runs too: every amount is fresh at all times if and only if every sweep write finds
   * its row still priced as read.
   */
  lemma AlwaysFreshIff(base: map<UserId, Currency>, devices: Devices, steps: seq<Step>)
    ensures AlwaysFresh(base, devices, steps) <==> Calm(Initial(base), devices, steps)
  {
    if Calm(Initial(base), devices, steps) {
      forall n | 0 <= n <= |steps|
        ensures Fresh(TracedRun(Traced(Initial(base), map[]), devices, steps[..n]))
      {
        PrefixIsCalm(Initial(base), devices, steps, n);
        AmountBaseIsFresh(base, devices, steps[..n]);
      }
    }
    if AlwaysFresh(base, devices, steps) {
      forall i | 0 <= i < |steps|
        ensures StillPriced(Run(Initial(base), devices, steps[..i]), steps[i])
      {
        FreshAfterWrite(base, devices, steps, i);
      }
    }
  }

  /**
   * Read with the converter: a fresh amount priced from a rate table is what convert answers for
   * the row as it stands, on the day of the expense.
   */
  lemma FreshRowIsConversion(t: Traced, id: ExpenseId, fx: FxTable, d: Date)
    requires id in t.m.db.rows && t.m.db.rows[id].amountBase.Some? && FreshRow(t, id)
    requires t.prices[id] == PricedBy(fx) && OnDay(t.m.db.rows[id].cols.spentAt, d)
    ensures var row := t.m.db.rows[id];
            && row.user in t.m.db.base
            && row.currencyBase == Some(t.m.db.base[row.user])
            && Convert(fx, row.cols.amountOriginal, row.cols.currencyOriginal, t.m.db.base[row.user], d)
               == Value(row.amountBase.value)
  {
    DayOfTimestamp(t.m.db.rows[id].cols.spentAt, d);
  }

  // ----- from the schedule of a run -----------------------------------------------------------------

  /** The push that commits edits one of the columns the row's conversion is computed from. */
  ghost predicate EditLands(m: System, step: Step, id: ExpenseId) {
    && step.Commit? && step.ticket in m.pushes && id in m.db.rows
    && exists i :: EditAt(m, m.pushes[step.ticket].pending.valid, i, id)
  }

  ghost predicate EditAt(m: System, recs: seq<Record>, i: int, id: ExpenseId)
    requires id in m.db.rows
  {
    && 0 <= i < |recs| && recs[i].id == id
    && Applies(m.db.rows, recs[i]) && AmountBaseIsStale(m.db.rows[id].cols, recs[i].cols)
  }

  /** Or the owner's base currency changes. */
  ghost predicate Disturbs(m: System, step: Step, id: ExpenseId) {
    || EditLands(m, step, id)
    || (step.ChangeBase? && id in m.db.rows && step.user == m.db.rows[id].user)
  }

  /** The place of the read a pending sweep ticket came from. */
  ghost function ReadAt(m: System, devices: Devices, steps: seq<Step>, ticket: Ticket): Option<nat> {
    if steps == [] then None
    else
      var n := |steps| - 1;
      var step := steps[n];
      if EndsInRead(m, devices, steps, ticket) then Some(n)
      else if step.SweepWrite? && step.ticket == ticket then None
      else ReadAt(m, devices, steps[..n], ticket)
  }

  /** No step after the read and before the end disturbs the row that was read. */
  ghost predicate Untouched(m: System, devices: Devices, steps: seq<Step>, read_: nat) {
    && read_ < |steps| && steps[read_].SweepRead?
    && forall k | read_ < k < |steps| :: !Disturbs(Run(m, devices, steps[..k]), steps[k], steps[read_].id)
  }

  /** Between each sweep's read of a row and its write, no edit of it lands and its owner's base currency stays. */
  ghost predicate SweepsUndisturbed(m: System, devices: Devices, steps: seq<Step>) {
    forall j | 0 <= j < |steps| && steps[j].SweepWrite? && ReadAt(m, devices, steps[..j], steps[j].ticket).Some? ::
      Untouched(m, devices, steps[..j], ReadAt(m, devices, steps[..j], steps[j].ticket).value)
  }

  /** The snapshot is what the row's columns and its owner's base currency say now. */
  ghost predicate Current(db: Tables, s: Snapshot) {
    s.id in db.rows && db.rows[s.id].user in db.base && s == SnapshotOf(db, s.id)
  }

  lemma CommitKeepsCurrent(m: System, user: UserId, recs: seq<Record>, clock: Clock, s: Snapshot)
    requires Stamped(m.db) && DistinctIds(recs) && Current(m.db, s)
    requires forall i :: !EditAt(m, recs, i, s.id)
    ensures Current(CommitUpsert(m.db, user, recs, clock), s)
  {
    UpsertAdvances(m.db, user, recs, clock.now);
    if i :| 0 <= i < |recs| && recs[i].id == s.id {
      UpsertOutcome(m.db, user, recs, clock.now, i);
      assert !EditAt(m, recs, i, s.id);
    } else {
      UpsertTouchesOnlyItsIds(m.db, user, recs, clock.now, s.id);
    }
  }

  lemma StepKeepsCurrent(m: System, devices: Devices, step: Step, s: Snapshot)
    requires Inv(m) && Current(m.db, s) && !Disturbs(m, step, s.id)
    ensures Current(StepOf(m, devices, step).db, s)
  {
    if step.Commit? && step.ticket in m.pushes {
      CommitKeepsCurrent(m, m.pushes[step.ticket].user, m.pushes[step.ticket].pending.valid, step.clock, s);
    }
  }

  /** A pending sweep ticket holds the row read at that place, still current if nothing disturbed it since. */
  ghost predicate ReadIsKept(m: System, devices: Devices, steps: seq<Step>, ticket: Ticket) {
    var m', at := Run(m, devices, steps), ReadAt(m, devices, steps, ticket);
    ticket in m'.sweeps ==>
      && at.Some? && at.value < |steps| && steps[at.value].SweepRead?
      && m'.sweeps[ticket].id == steps[at.value].id
      && (Untouched(m, devices, steps, at.value) ==> Current(m'.db, m'.sweeps[ticket]))
  }

  lemma SameDisturbs(m: System, devices: Devices, steps: seq<Step>, n: nat, k: nat, id: ExpenseId)
    requires k < n <= |steps|
    ensures Disturbs(Run(m, devices, steps[..n][..k]), steps[..n][k], id)
            <==> Disturbs(Run(m, devices, steps[..k]), steps[k], id)
  {
    assert steps[..n][..k] == steps[..k];
  }

  lemma ShorterIsUntouched(m: System, devices: Devices, steps: seq<Step>, read_: nat)
    requires read_ < |steps| - 1 && Untouched(m, devices, steps, read_)
    ensures Untouched(m, devices, steps[..|steps| - 1], read_)
    ensures !Disturbs(Run(m, devices, steps[..|steps| - 1]), steps[|steps| - 1], steps[read_].id)
  {
    var n := |steps| - 1;
    forall k | read_ < k < n
      ensures !Disturbs(Run(m, devices, steps[..n][..k]), steps[..n][k], steps[..n][read_].id)
    {
      SameDisturbs(m, devices, steps, n, k, steps[read_].id);
    }
  }

  /** The last step of the run is an effective read under this ticket. */
  ghost predicate EndsInRead(m: System, devices: Devices, steps: seq<Step>, ticket: Ticket)
    requires steps != []
  {
    var step := steps[|steps| - 1];
    step.SweepRead? && step.ticket == ticket && Waiting(Run(m, devices, steps[..|steps| - 1]).db, None, step.id)
  }

  lemma NewReadIsKept(m: System, devices: Devices, steps: seq<Step>, ticket: Ticket)
    requires steps != [] && EndsInRead(m, devices, steps, ticket)
    ensures ReadIsKept(m, devices, steps, ticket)
  {
  }

  lemma ReadIsCarried(m: System, devices: Devices, steps: seq<Step>, ticket: Ticket)
    requires steps != [] && !EndsInRead(m, devices, steps, ticket)
    ensures var before, after := Run(m, devices, steps[..|steps| - 1]), Run(m, devices, steps);
            ticket in after.sweeps ==>
              && ticket in before.sweeps && after.sweeps[ticket] == before.sweeps[ticket]
              && ReadAt(m, devices, steps, ticket) == ReadAt(m, devices, steps[..|steps| - 1], ticket)
  {
  }

  lemma CarriedReadIsKept(m: System, devices: Devices, steps: seq<Step>, ticket: Ticket)
    requires steps != [] && !EndsInRead(m, devices, steps, ticket)
    requires Inv(Run(m, devices, steps[..|steps| - 1])) && ReadIsKept(m, devices, steps[..|steps| - 1], ticket)
    ensures ReadIsKept(m, devices, steps, ticket)
  {
    var n := |steps| - 1;
    ReadIsCarried(m, devices, steps, ticket);
    if ticket in Run(m, devices, steps).sweeps {
      var at := ReadAt(m, devices, steps, ticket).value;
      if Untouched(m, devices, steps, at) {
        ShorterIsUntouched(m, devices, steps, at);
        StepKeepsCurrent(Run(m, devices, steps[..n]), devices, steps[n], Run(m, devices, steps[..n]).sweeps[ticket]);
      }
    }
  }

  lemma {:induction false} PendingReadIsKept(m: System, devices: Devices, steps: seq<Step>, ticket: Ticket)
    requires Inv(m) && m.sweeps == map[]
    ensures ReadIsKept(m, devices, steps, ticket)
  {
    if steps != [] {
      if EndsInRead(m, devices, steps, ticket) {
        NewReadIsKept(m, devices, steps, ticket);
      } else {
        PendingReadIsKept(m, devices, steps[..|steps| - 1], ticket);
        RunAdvances(m, devices, steps[..|steps| - 1]);
        CarriedReadIsKept(m, devices, steps, ticket);
      }
    }
  }

  /** A run whose sweeps are undisturbed keeps every amount fresh. */
  lemma UndisturbedSweepsStayFresh(base: map<UserId, Currency>, devices: Devices, steps: seq<Step>)
    requires SweepsUndisturbed(Initial(base), devices, steps)
    ensures Calm(Initial(base), devices, steps)
    ensures var t := TracedRun(Traced(Initial(base), map[]), devices, steps);
            t.m == Run(Initial(base), devices, steps) && Fresh(t)
  {
    var m := Initial(base);
    forall j | 0 <= j < |steps|
      ensures StillPriced(Run(m, devices, steps[..j]), steps[j])
    {
      if Writes(Run(m, devices, steps[..j]), steps[j]) {
        PendingReadIsKept(m, devices, steps[..j], steps[j].ticket);
      }
    }
    AmountBaseIsFresh(base, devices, steps);
  }

  // ----- the race ---------------------------------------------------------------------------------------

  /** The row holds an amount that is not what these rates make of it as it stands. */
  ghost predicate WrongAmount(db: Tables, id: ExpenseId, price: Pricing) {
    && id in db.rows && db.rows[id].user in db.base && db.rows[id].amountBase.Some?
    && price(SnapshotOf(db, id)) != Value(db.rows[id].amountBase.value)
  }

  /**
   * Whatever happened between a sweep's read of a row and its write: the amount written is wrong
   * under the sweep's own rates if and only if these now make something else of the row.
   */
  lemma SweepRace(m: System, devices: Devices, sweep: Ticket, price: Pricing)
    requires Writes(m, SweepWrite(sweep, price)) && m.db.rows[m.sweeps[sweep].id].user in m.db.base
    ensures var s := m.sweeps[sweep];
            WrongAmount(StepOf(m, devices, SweepWrite(sweep, price)).db, s.id, price)
            <==> price(SnapshotOf(m.db, s.id)) != price(s)
  {
    var s, db' := m.sweeps[sweep], StepOf(m, devices, SweepWrite(sweep, price)).db;
    assert db'.rows[s.id].amountBase == Some(price(s).amount);
    assert SnapshotOf(db', s.id) == SnapshotOf(m.db, s.id);
  }

  /** The row as an edit leaves it. */
  function EditedSnapshot(db: Tables, edit: Record): Snapshot
    requires edit.id in db.rows && db.rows[edit.id].user in db.base
  {
    SnapshotOfRecord(edit, db.base[db.rows[edit.id].user])
  }

  function SnapshotOfRecord(rec: Record, currency: Currency): Snapshot {
    Snapshot(rec.id, rec.cols.amountOriginal, rec.cols.currencyOriginal, rec.cols.spentAt, currency)
  }

  /** An edit that lands, in any batch, leaves its row reading as edited. */
  lemma EditLandsAs(m: System, devices: Devices, push: Ticket, clock: Clock, edit: Record)
    requires Inv(m) && push in m.pushes && edit in m.pushes[push].pending.valid && Applies(m.db.rows, edit)
    requires edit.id in m.db.rows && m.db.rows[edit.id].user in m.db.base
    ensures var db' := StepOf(m, devices, Commit(push, clock)).db;
            && edit.id in db'.rows && db'.base == m.db.base && db'.rows[edit.id].user == m.db.rows[edit.id].user
            && SnapshotOf(db', edit.id) == EditedSnapshot(m.db, edit)
  {
    var p := m.pushes[push];
    var i :| 0 <= i < |p.pending.valid| && p.pending.valid[i] == edit;
    UpsertOutcome(m.db, p.user, p.pending.valid, clock.now, i);
    UpsertAdvances(m.db, p.user, p.pending.valid, clock.now);
  }

  /**
   * So a sweep that read the row before the edit and writes right after it leaves a wrong amount
   * when the two price apart.
   */
  lemma EditRace(m: System, devices: Devices, push: Ticket, clock: Clock, edit: Record, sweep: Ticket, price: Pricing)
    requires Inv(m) && push in m.pushes && edit in m.pushes[push].pending.valid && Applies(m.db.rows, edit)
    requires edit.id in m.db.rows && m.db.rows[edit.id].user in m.db.base
    requires sweep in m.sweeps && m.sweeps[sweep].id == edit.id && price(m.sweeps[sweep]).Value?
    requires price(EditedSnapshot(m.db, edit)) != price(m.sweeps[sweep])
    ensures var edited := StepOf(m, devices, Commit(push, clock));
            WrongAmount(StepOf(edited, devices, SweepWrite(sweep, price)).db, edit.id, price)
  {
    EditLandsAs(m, devices, push, clock, edit);
    SweepRace(StepOf(m, devices, Commit(push, clock)), devices, sweep, price);
  }

  /** A user inserts an expense and edits it; a sweep reads the row before the edit commits and writes it after. */
  function RaceSteps(user: UserId, first: Record, edit: Record, clock: Clock, price: Pricing): seq<Step> {
    [Validate(0, user, [WellFormed(first)]), Commit(0, clock), Validate(0, user, [WellFormed(edit)]),
     SweepRead(0, first.id), Commit(0, clock), SweepWrite(0, price)]
  }

  /** The row holds the first record, and the edit is validated and waiting. */
  ghost predicate EditPending(m: System, base: map<UserId, Currency>, user: UserId, first: Record, edit: Record,
                              now: Timestamp)
  {
    && Inv(m) && m.db.base == base
    && first.id in m.db.rows && InsertOutcome(m.db.rows[first.id], user, first, now)
    && 0 in m.pushes && m.pushes[0].pending.valid == [edit]
  }

  lemma FirstInserted(base: map<UserId, Currency>, devices: Devices, user: UserId, first: Record, clock: Clock)
    requires first.device in devices && devices[first.device] == user
    ensures var validated := StepOf(Initial(base), devices, Validate(0, user, [WellFormed(first)]));
            var m := StepOf(validated, devices, Commit(0, clock));
            && m.db.base == base && Inv(m)
            && first.id in m.db.rows && InsertOutcome(m.db.rows[first.id], user, first, clock.now)
  {
    var m := StepOf(Initial(base), devices, Validate(0, user, [WellFormed(first)]));
    SingleIsValid(map[], devices, user, first);
    StepAdvances(Initial(base), devices, Validate(0, user, [WellFormed(first)]));
    StepAdvances(m, devices, Commit(0, clock));
    UpsertAdvances(m.db, user, [first], clock.now);
    UpsertOutcome(m.db, user, [first], clock.now, 0);
  }

  lemma EditValidated(m: System, base: map<UserId, Currency>, devices: Devices, user: UserId, first: Record,
                      edit: Record, now: Timestamp)
    requires Inv(m) && m.db.base == base && edit.id == first.id
    requires first.id in m.db.rows && InsertOutcome(m.db.rows[first.id], user, first, now)
    requires edit.device in devices && devices[edit.device] == user
    ensures EditPending(StepOf(m, devices, Validate(0, user, [WellFormed(edit)])), base, user, first, edit, now)
  {
    SingleIsValid(m.db.rows, devices, user, edit);
    StepAdvances(m, devices, Validate(0, user, [WellFormed(edit)]));
  }

  lemma RaceStarts(base: map<UserId, Currency>, devices: Devices, user: UserId, first: Record, edit: Record,
                   clock: Clock, steps: seq<Step>)
    requires |steps| >= 3 && steps[0] == Validate(0, user, [WellFormed(first)]) && steps[1] == Commit(0, clock)
    requires steps[2] == Validate(0, user, [WellFormed(edit)]) && edit.id == first.id
    requires first.device in devices && devices[first.device] == user
    requires edit.device in devices && devices[edit.device] == user
    ensures EditPending(Run(Initial(base), devices, steps[..3]), base, user, first, edit, clock.now)
  {
    var m := Initial(base);
    RunStep(m, devices, steps, 0);
    RunStep(m, devices, steps, 1);
    RunStep(m, devices, steps, 2);
    FirstInserted(base, devices, user, first, clock);
    EditValidated(Run(m, devices, steps[..2]), base, devices, user, first, edit, clock.now);
  }

  lemma RaceEnds(m: System, devices: Devices, id: ExpenseId, clock: Clock, price: Pricing, steps: seq<Step>)
    requires |steps| == 6
    requires steps[3] == SweepRead(0, id) && steps[4] == Commit(0, clock) && steps[5] == SweepWrite(0, price)
    ensures var read_ := StepOf(Run(m, devices, steps[..3]), devices, SweepRead(0, id));
            Run(m, devices, steps) == StepOf(StepOf(read_, devices, Commit(0, clock)), devices, SweepWrite(0, price))
  {
    RunStep(m, devices, steps, 3);
    RunStep(m, devices, steps, 4);
    RunStep(m, devices, steps, 5);
    assert steps[..6] == steps;
  }

  lemma PendingRace(m: System, base: map<UserId, Currency>, devices: Devices, user: UserId, first: Record, edit: Record,
                    clock: Clock, price: Pricing)
    requires EditPending(m, base, user, first, edit, clock.now) && edit.id == first.id && first.cols.deletedAt.None?
    requires user in base && first.cols.clientRev < edit.cols.clientRev
    requires price(SnapshotOfRecord(first, base[user])).Value?
    requires price(SnapshotOfRecord(edit, base[user])) != price(SnapshotOfRecord(first, base[user]))
    ensures var read_ := StepOf(m, devices, SweepRead(0, first.id));
            var edited := StepOf(read_, devices, Commit(0, clock));
            WrongAmount(StepOf(edited, devices, SweepWrite(0, price)).db, first.id, price)
  {
    var read_ := StepOf(m, devices, SweepRead(0, first.id));
    assert read_.sweeps[0] == SnapshotOfRecord(first, base[user]);
    StepAdvances(m, devices, SweepRead(0, first.id));
    EditRace(read_, devices, 0, clock, edit, 0, price);
  }

  /** The race is reachable: for any two records the rates tell apart, this run ends with a wrong amount. */
  lemma RaceIsReachable(base: map<UserId, Currency>, devices: Devices, user: UserId, first: Record, edit: Record,
                        clock: Clock, price: Pricing)
    requires user in base && edit.id == first.id && first.cols.deletedAt.None?
    requires first.device in devices && devices[first.device] == user
    requires edit.device in devices && devices[edit.device] == user
    requires first.cols.clientRev < edit.cols.clientRev
    requires price(SnapshotOfRecord(first, base[user])).Value?
    requires price(SnapshotOfRecord(edit, base[user])) != price(SnapshotOfRecord(first, base[user]))
    ensures WrongAmount(Run(Initial(base), devices, RaceSteps(user, first, edit, clock, price)).db, first.id, price)
  {
    var m, steps := Initial(base), RaceSteps(user, first, edit, clock, price);
    RaceStarts(base, devices, user, first, edit, clock, steps);
    PendingRace(Run(m, devices, steps[..3]), base, devices, user, first, edit, clock, price);
    RaceEnds(m, devices, first.id, clock, price, steps);
  }

  /** With the converter itself: 10 dollars edited to 20 in a dollar account end with an amount_base of 10. */
  lemma RaceExample(first: Columns, clock: Clock)
    requires first.amountOriginal == 10.0 && first.currencyOriginal == USD && first.deletedAt.None?
             && first.clientRev == 1
    ensures var edit := first.(amountOriginal := 20.0, clientRev := 2);
            var price := PricedBy(map[]);
            var steps := RaceSteps(0, Record(0, 0, first), Record(0, 0, edit), clock, price);
            WrongAmount(Run(Initial(map[0 := USD]), map[0 := 0], steps).db, 0, price)
  {
    var edit := first.(amountOriginal := 20.0, clientRev := 2);
    RaceIsReachable(map[0 := USD], map[0 := 0], 0, Record(0, 0, first), Record(0, 0, edit), clock, PricedBy(map[]));
  }
}
