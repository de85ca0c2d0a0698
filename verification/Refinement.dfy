/**
 * The operations of Database are runs of the machine: a whole push is its two steps, and a sweep
 * that raises nowhere is the reads of its batch followed by the writes. What the machine's runs
 * keep therefore holds of any mixture of whole operations and interleaved halves.
 */
module Refinement {
  import opened Prelude
  import opened Converter
  import opened Expenses
  import opened PushValidation
  import opened Sweep
  import opened Machine
  import opened Database

  /** push_sync is validation followed by the upsert, with nothing in between. */
  lemma PushIsTwoSteps(m: System, devices: Devices, user: UserId, payload: seq<Raw>, clock: Clock, ticket: Ticket)
    requires ticket !in m.pushes
    ensures var (db', response) := Pushed(m.db, devices, user, payload, clock);
            Run(m, devices, [Validate(ticket, user, payload), Commit(ticket, clock)]) == m.(db := db')
  {
    var steps := [Validate(ticket, user, payload), Commit(ticket, clock)];
    var validated := StepOf(m, devices, steps[0]);
    assert steps[..1] == [steps[0]] && [steps[0]][..0] == [];
    assert Run(m, devices, []) == m;
    assert Run(m, devices, [steps[0]]) == validated;
    assert validated.pushes - {ticket} == m.pushes;
  }

  function Reads(batch: seq<ExpenseId>): seq<Step> {
    seq(|batch|, i requires 0 <= i < |batch| => SweepRead(i, batch[i]))
  }

  function Writes(n: nat, price: Pricing): seq<Step> {
    seq(n, i requires 0 <= i < n => SweepWrite(i, price))
  }

  /** From turn `from` on, each pending read is the snapshot at its place of the batch. */
  ghost predicate HasRead(m: System, selected: seq<Snapshot>, from: nat, until: nat) {
    until <= |selected| && forall i: nat | from <= i < until :: i in m.sweeps && m.sweeps[i] == selected[i]
  }

  lemma {:induction false} ReadsRun(m: System, devices: Devices, who: Option<UserId>, batch: seq<ExpenseId>, k: nat)
    requires FromBacklog(m.db, who, batch) && k <= |batch|
    ensures var m' := Run(m, devices, Reads(batch)[..k]);
            m'.db == m.db && m'.pushes == m.pushes && HasRead(m', Snapshots(m.db, batch), 0, k)
  {
    if k > 0 {
      ReadsRun(m, devices, who, batch, k - 1);
      assert Reads(batch)[..k][..k - 1] == Reads(batch)[..k - 1];
      assert Waiting(m.db, who, batch[k - 1]);
    }
  }

  lemma {:induction false} WritesRun(m: System, devices: Devices, price: Pricing, selected: seq<Snapshot>, k: nat)
    requires HasRead(m, selected, 0, |selected|) && k <= |selected|
    requires !SweepLoop(m.db, price, selected[..k]).raised
    ensures var m' := Run(m, devices, Writes(|selected|, price)[..k]);
            && m'.db == SweepLoop(m.db, price, selected[..k]).db && m'.pushes == m.pushes
            && HasRead(m', selected, k, |selected|)
  {
    if k > 0 {
      assert selected[..k][..k - 1] == selected[..k - 1];
      assert Writes(|selected|, price)[..k][..k - 1] == Writes(|selected|, price)[..k - 1];
      WritesRun(m, devices, price, selected, k - 1);
    }
  }

  /** recompute_amount_base is the reads of its batch followed by the writes, when no conversion raises. */
  lemma SweepIsARun(m: System, devices: Devices, price: Pricing, who: Option<UserId>, batch: seq<ExpenseId>)
    requires FromBacklog(m.db, who, batch) && !SweepLoop(m.db, price, Snapshots(m.db, batch)).raised
    ensures var m' := Run(m, devices, Reads(batch) + Writes(|batch|, price));
            m'.db == Swept(m.db, price, batch) && m'.pushes == m.pushes
  {
    var n, selected := |batch|, Snapshots(m.db, batch);
    ReadsRun(m, devices, who, batch, n);
    assert Reads(batch)[..n] == Reads(batch) && Writes(n, price)[..n] == Writes(n, price) && selected[..n] == selected;
    WritesRun(Run(m, devices, Reads(batch)), devices, price, selected, n);
    RunComposes(m, devices, Reads(batch), Writes(n, price));
  }

  /** null_amount_base_for_user is one step. */
  lemma NullSweepIsAStep(m: System, devices: Devices, user: UserId, stamps: map<ExpenseId, nat>)
    requires StampsOf(Enriched(m.db.rows, user), m.db.seqValue, stamps)
    ensures StepOf(m, devices, NullSweep(user, stamps)) == m.(db := NullAmountBase(m.db, user, stamps))
  {
  }

  /** A change of base currency is that and the new currency, so all the user's live rows wait for a sweep again. */
  lemma BaseChangeRearms(m: System, devices: Devices, user: UserId, currency: Currency, stamps: map<ExpenseId, nat>,
                         id: ExpenseId)
    requires user in m.db.base && StampsOf(Enriched(m.db.rows, user), m.db.seqValue, stamps)
    ensures var db' := StepOf(m, devices, ChangeBase(user, currency, stamps)).db;
            && db'.base == m.db.base[user := currency]
            && (id in m.db.rows && m.db.rows[id].user == user && m.db.rows[id].cols.deletedAt.None?
                ==> Waiting(db', Some(user), id))
            && (id in m.db.rows && m.db.rows[id].user != user ==> id in db'.rows && db'.rows[id] == m.db.rows[id])
  {
    NullAmountBaseExact(m.db, user, stamps);
  }
}
