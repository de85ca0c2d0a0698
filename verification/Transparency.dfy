/**
 * Enrichment is transparent: sweeps and null sweeps inserted into a run change only amount_base,
 * currency_base and server_seq (app/services/fx/recompute.py).
 */
module Transparency {
  import opened Prelude
  import opened Expenses
  import opened PushValidation
  import opened Machine

  predicate IsPush(step: Step) { step.Validate? || step.Commit? }

  /** The run with every enrichment step taken out. */
  function PushesOnly(steps: seq<Step>): seq<Step> {
    if steps == [] then []
    else
      var n := |steps| - 1;
      PushesOnly(steps[..n]) + if IsPush(steps[n]) then [steps[n]] else []
  }

  /** The rows agree but for the derived columns and the stamp. */
  ghost predicate SameClientRow(a: Row, b: Row) {
    a.user == b.user && a.device == b.device && a.cols == b.cols && a.createdAt == b.createdAt
  }

  ghost predicate SameClientRows(a: Rows, b: Rows) {
    a.Keys == b.Keys && forall id | id in a :: SameClientRow(a[id], b[id])
  }

  /** Rows as clients wrote them, usage counters and pending pushes agree. */
  ghost predicate SameView(a: System, b: System) {
    SameClientRows(a.db.rows, b.db.rows) && a.db.usage == b.db.usage && a.pushes == b.pushes
  }

  // ----- validation reads only what enrichment leaves alone --------------------------------------------

  lemma {:induction false} SameOwned(a: Rows, b: Rows, devices: Devices, user: UserId, parsed: seq<Record>)
    requires SameClientRows(a, b)
    ensures Owned(a, devices, user, parsed) == Owned(b, devices, user, parsed)
  {
    if parsed != [] { SameOwned(a, b, devices, user, parsed[..|parsed| - 1]); }
  }

  lemma {:induction false} SameRefused(a: Rows, b: Rows, devices: Devices, user: UserId, parsed: seq<Record>,
                                       rejects: map<ExpenseId, string>)
    requires SameClientRows(a, b)
    ensures Refused(a, devices, user, parsed, rejects) == Refused(b, devices, user, parsed, rejects)
  {
    if parsed != [] { SameRefused(a, b, devices, user, parsed[..|parsed| - 1], rejects); }
  }

  // ----- the upsert decides on what enrichment leaves alone ----------------------------------------------

  /** The returned rows agree but for their stamps. */
  ghost predicate SameReturned(a: seq<Returned>, b: seq<Returned>) {
    |a| == |b| && forall i | 0 <= i < |a| :: a[i].id == b[i].id && a[i].wasInserted == b[i].wasInserted
  }

  lemma SameUpsertOne(a: Tables, b: Tables, user: UserId, rec: Record, now: Timestamp)
    requires SameClientRows(a.rows, b.rows)
    ensures SameClientRows(UpsertOne(a, user, rec, now).rows, UpsertOne(b, user, rec, now).rows)
    ensures Applies(a.rows, rec) <==> Applies(b.rows, rec)
  {
    var a', b' := UpsertOne(a, user, rec, now).rows, UpsertOne(b, user, rec, now).rows;
    if rec.id in a.rows { assert SameClientRow(a.rows[rec.id], b.rows[rec.id]); }
    assert SameClientRow(a'[rec.id], b'[rec.id]);
  }

  lemma {:induction false} SameUpsert(a: Tables, b: Tables, user: UserId, recs: seq<Record>, now: Timestamp)
    requires SameClientRows(a.rows, b.rows)
    ensures SameClientRows(UpsertAll(a, user, recs, now).rows, UpsertAll(b, user, recs, now).rows)
    ensures SameReturned(Returning(a, user, recs, now), Returning(b, user, recs, now))
    decreases |recs|
  {
    if recs != [] {
      SameUpsertOne(a, b, user, recs[0], now);
      SameUpsert(UpsertOne(a, user, recs[0], now), UpsertOne(b, user, recs[0], now), user, recs[1..], now);
    }
  }

  lemma {:induction false} SameCount(a: seq<Returned>, b: seq<Returned>)
    requires SameReturned(a, b)
    ensures CountInserted(a) == CountInserted(b)
  {
    if a != [] { SameCount(a[1..], b[1..]); }
  }

  lemma {:induction false} SameApplied(a: seq<Returned>, b: seq<Returned>)
    requires SameReturned(a, b)
    ensures AppliedSeqs(a).Keys == AppliedSeqs(b).Keys
  {
    if a != [] { SameApplied(a[..|a| - 1], b[..|b| - 1]); }
  }

  // ----- runs ---------------------------------------------------------------------------------------------

  lemma SamePushStep(a: System, b: System, devices: Devices, step: Step)
    requires SameView(a, b) && IsPush(step)
    ensures SameView(StepOf(a, devices, step), StepOf(b, devices, step))
  {
    match step
    case Validate(_, user, payload) =>
      var d := Deduped(payload);
      SameOwned(a.db.rows, b.db.rows, devices, user, d.parsed);
      SameRefused(a.db.rows, b.db.rows, devices, user, d.parsed, d.rejects);
    case Commit(ticket, clock) =>
      if ticket in a.pushes {
        var user, recs := a.pushes[ticket].user, a.pushes[ticket].pending.valid;
        SameUpsert(a.db, b.db, user, recs, clock.now);
        SameCount(Returning(a.db, user, recs, clock.now), Returning(b.db, user, recs, clock.now));
      }
  }

  lemma EnrichmentStep(a: System, b: System, devices: Devices, step: Step)
    requires SameView(a, b) && !IsPush(step)
    ensures SameView(StepOf(a, devices, step), b)
  {
    var a' := StepOf(a, devices, step);
    assert a'.db.rows.Keys == a.db.rows.Keys;
    forall id | id in a.db.rows
      ensures SameClientRow(a'.db.rows[id], b.db.rows[id])
    {
      assert SameClientRow(a.db.rows[id], b.db.rows[id]);
    }
  }

  /** Without its enrichment steps a run leaves the same client rows, counters and pending pushes. */
  lemma {:induction false} EnrichmentIsTransparent(m: System, devices: Devices, steps: seq<Step>)
    ensures SameView(Run(m, devices, steps), Run(m, devices, PushesOnly(steps)))
  {
    if steps != [] {
      var n := |steps| - 1;
      var before, pushes := Run(m, devices, steps[..n]), PushesOnly(steps[..n]);
      EnrichmentIsTransparent(m, devices, steps[..n]);
      if IsPush(steps[n]) {
        assert PushesOnly(steps)[..|pushes|] == pushes;
        SamePushStep(before, Run(m, devices, pushes), devices, steps[n]);
      } else {
        assert PushesOnly(steps) == pushes;
        EnrichmentStep(before, Run(m, devices, pushes), devices, steps[n]);
      }
    }
  }

  // ----- statuses ------------------------------------------------------------------------------------------

  /** A result's status without its stamp. */
  datatype Verdict = WasApplied | WasStale | WasRejected(reason: string)

  function VerdictOf(id: ExpenseId, p: Pending, applied: map<ExpenseId, nat>): Verdict {
    match StatusOf(id, p.rejects, applied)
    case Applied(_) => WasApplied
    case StaleIgnored => WasStale
    case Rejected(reason) => WasRejected(reason)
  }

  /** What each commit of a run answers for an id, in order; an id the batch does not name gets its default. */
  ghost function Verdicts(m: System, devices: Devices, steps: seq<Step>, id: ExpenseId): seq<Verdict> {
    if steps == [] then []
    else
      var n := |steps| - 1;
      var before, step := Run(m, devices, steps[..n]), steps[n];
      Verdicts(m, devices, steps[..n], id)
      + if step.Commit? && step.ticket in before.pushes then [VerdictAt(before, step.ticket, step.clock, id)] else []
  }

  ghost function VerdictAt(m: System, ticket: Ticket, clock: Clock, id: ExpenseId): Verdict
    requires ticket in m.pushes
  {
    var p := m.pushes[ticket];
    VerdictOf(id, p.pending, AppliedSeqs(Returning(m.db, p.user, p.pending.valid, clock.now)))
  }

  lemma SameVerdict(a: System, b: System, ticket: Ticket, clock: Clock, id: ExpenseId)
    requires SameView(a, b) && ticket in a.pushes
    ensures VerdictAt(a, ticket, clock, id) == VerdictAt(b, ticket, clock, id)
  {
    var user, recs := a.pushes[ticket].user, a.pushes[ticket].pending.valid;
    SameUpsert(a.db, b.db, user, recs, clock.now);
    SameApplied(Returning(a.db, user, recs, clock.now), Returning(b.db, user, recs, clock.now));
  }

  /** Every push answers the same, with or without the enrichment steps around it. */
  lemma {:induction false} VerdictsAreTransparent(m: System, devices: Devices, steps: seq<Step>, id: ExpenseId)
    ensures Verdicts(m, devices, steps, id) == Verdicts(m, devices, PushesOnly(steps), id)
  {
    if steps != [] {
      var n := |steps| - 1;
      var before, pushes := Run(m, devices, steps[..n]), PushesOnly(steps[..n]);
      VerdictsAreTransparent(m, devices, steps[..n], id);
      if IsPush(steps[n]) {
        assert PushesOnly(steps)[..|pushes|] == pushes;
        EnrichmentIsTransparent(m, devices, steps[..n]);
        if steps[n].Commit? && steps[n].ticket in before.pushes {
          SameVerdict(before, Run(m, devices, pushes), steps[n].ticket, steps[n].clock, id);
        }
      } else {
        assert PushesOnly(steps) == pushes;
      }
    }
  }
}
