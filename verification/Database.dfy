/**
 * The write and read paths of the expenses table as operations on one object: push_sync and
 * pull_sync (app/api/v1/sync.py), recompute_amount_base and null_amount_base_for_user
 * (app/services/fx/recompute.py). Each SQL statement is one assignment.
 */
module Database {
  import opened Prelude
  import opened Converter
  import opened Expenses
  import opened PushValidation
  import opened PullPages
  import opened Sweep

  datatype PushResponse = PushResponse(results: seq<PushResult>, serverHighWater: nat)

  /** The whole effect of a push: the tables it leaves and the response it gives. */
  function Pushed(db: Tables, devices: Devices, user: UserId, payload: seq<Raw>, clock: Clock): (Tables, PushResponse) {
    var p := Validated(db.rows, devices, user, payload);
    Committed(db, user, p, clock)
  }

  /** The half after validation, which may find the tables changed since. */
  function Committed(db: Tables, user: UserId, p: Pending, clock: Clock): (Tables, PushResponse) {
    var db' := CommitUpsert(db, user, p.valid, clock);
    var applied := AppliedSeqs(Returning(db, user, p.valid, clock.now));
    (db', PushResponse(Results(p.order, p.rejects, applied), HighWater(db'.rows, user)))
  }

  class Store {
    var rows: Rows
    var seqValue: nat
    var usage: Usage
    var base: map<UserId, Currency>
    const devices: Devices

    function State(): Tables
      reads this
    {
      Tables(rows, seqValue, usage, base)
    }

    ghost predicate Valid()
      reads this
    {
      Stamped(State())
    }

    constructor (devices: Devices, base: map<UserId, Currency>)
      ensures Valid() && State() == Tables(map[], 0, map[], base) && this.devices == devices
    {
      this.devices := devices;
      this.base := base;
      rows, seqValue, usage := map[], 0, map[];
    }

    /** The loop over the raw records. */
    method DedupeBatch(payload: seq<Raw>)
      returns (rejects: map<ExpenseId, string>, parsed: seq<Record>, order: seq<ExpenseId>)
      ensures Dedupe(rejects, parsed, order) == Deduped(payload)
    {
      rejects, parsed, order := map[], [], [];
      for i := 0 to |payload|
        invariant Dedupe(rejects, parsed, order) == Deduped(payload[..i])
      {
        assert payload[..i + 1][..i] == payload[..i];
        match payload[i] {
          case Malformed(id, error) =>
            if id.Some? && id.value !in rejects && !HasId(parsed, id.value) {
              rejects := rejects[id.value := error];
              order := order + [id.value];
            }
          case WellFormed(rec) =>
            if HasId(parsed, rec.id) || rec.id in rejects {
              if rec.id !in rejects { rejects := rejects[rec.id := DUPLICATE]; }
            } else {
              parsed := parsed + [rec];
              order := order + [rec.id];
            }
        }
      }
      assert payload[..|payload|] == payload;
    }

    /** The two reads and the loop over the parsed records. */
    method ValidatePush(user: UserId, payload: seq<Raw>) returns (p: Pending)
      ensures p == Validated(rows, devices, user, payload)
    {
      var rejects, parsed, order := DedupeBatch(payload);
      ghost var dedupeRejects := rejects;
      var valid: seq<Record> := [];
      for i := 0 to |parsed|
        invariant valid == Owned(rows, devices, user, parsed[..i])
        invariant rejects == Refused(rows, devices, user, parsed[..i], dedupeRejects)
      {
        assert parsed[..i + 1][..i] == parsed[..i];
        var rec := parsed[i];
        if rec.device !in devices || devices[rec.device] != user {
          rejects := rejects[rec.id := NOT_OWNED];
          continue;
        }
        if rec.id in rows && rows[rec.id].user != user {
          rejects := rejects[rec.id := OTHER_USER];
          continue;
        }
        valid := valid + [rec];
      }
      assert parsed[..|parsed|] == parsed;
      return Pending(rejects, order, valid);
    }

    /** The stamps of the returned rows by id. */
    method SeqsById(returned: seq<Returned>) returns (applied: map<ExpenseId, nat>)
      ensures applied == AppliedSeqs(returned)
    {
      applied := map[];
      for i := 0 to |returned|
        invariant applied == AppliedSeqs(returned[..i])
      {
        assert returned[..i + 1][..i] == returned[..i];
        applied := applied[returned[i].id := returned[i].serverSeq];
      }
      assert returned[..|returned|] == returned;
    }

    /** The loop that turns rejects and applied into results. */
    method ListResults(order: seq<ExpenseId>, rejects: map<ExpenseId, string>, applied: map<ExpenseId, nat>)
      returns (results: seq<PushResult>)
      ensures results == Results(order, rejects, applied)
    {
      results := [];
      for i := 0 to |order|
        invariant results == Results(order, rejects, applied)[..i]
      {
        var id := order[i];
        if id in rejects {
          results := results + [PushResult(id, Rejected(rejects[id]))];
        } else if id in applied {
          results := results + [PushResult(id, Applied(applied[id]))];
        } else {
          results := results + [PushResult(id, StaleIgnored)];
        }
      }
    }

    /** The upsert, the count of inserted rows, the commit, and the response. */
    method CommitPush(user: UserId, p: Pending, clock: Clock) returns (response: PushResponse)
      requires Valid()
      modifies this
      ensures Valid() && (State(), response) == Committed(old(State()), user, p, clock)
    {
      var before := State();
      var applied: map<ExpenseId, nat> := map[];
      if p.valid != [] {
        var after := UpsertAll(before, user, p.valid, clock.now);
        var returned := Returning(before, user, p.valid, clock.now);
        UpsertAdvances(before, user, p.valid, clock.now);
        rows, seqValue := after.rows, after.seqValue;
        applied := SeqsById(returned);
        var newCount := CountInserted(returned);
        if newCount != 0 { usage := IncrementUsage(usage, user, clock.period, newCount); }
      }
      var results := ListResults(p.order, p.rejects, applied);
      response := PushResponse(results, HighWater(rows, user));
    }

    method PushSync(user: UserId, payload: seq<Raw>, clock: Clock) returns (response: PushResponse)
      requires Valid()
      modifies this
      ensures Valid() && (State(), response) == Pushed(old(State()), devices, user, payload, clock)
    {
      var p := ValidatePush(user, payload);
      response := CommitPush(user, p, clock);
    }

    /** limit is at least 1, as the endpoint's query parameter demands. */
    method PullSync(user: UserId, since: nat, limit: nat) returns (page: PullPage)
      requires Valid() && limit >= 1
      ensures page == Pulled(rows, user, since, limit)
      ensures since <= page.nextCursor && Listing(rows, user, since, page.nextCursor, page.records)
      ensures |page.records| <= limit && (!page.hasMore ==> After(rows, user, page.nextCursor) == {})
    {
      SelectedLists(rows, user, since, limit);
      SelectedSize(rows, user, since, limit);
      var records := Selected(rows, user, since, limit);
      var nextCursor := if records != [] then records[|records| - 1].row.serverSeq else since;
      page := PullPage(records, nextCursor, |records| == limit);
    }

    /**
     * One sweep over a batch the query returned; fx gives the rates found for each row. None is a
     * conversion that raised.
     */
    method RecomputeAmountBase(fx: ExpenseId -> FxTable, who: Option<UserId>, limit: Option<nat>, batch: seq<ExpenseId>)
      returns (r: Option<RecomputeResult>)
      requires Valid() && IsBatch(State(), who, EffectiveLimit(limit), batch)
      modifies this
      ensures Valid() && State() == Swept(old(State()), PricedAsFound(fx), batch)
      ensures r.None? <==> !(IdSet(batch) !! Raising(old(State()), PricedAsFound(fx), who))
      ensures r.Some? ==>
                && r.value.scanned == |batch| == Min(EffectiveLimit(limit), |Backlog(old(State()), who)|)
                && r.value.recomputed == |Filled(old(rows), rows)|
                && r.value.stillMissing == |IdSet(batch) * Stuck(old(State()), PricedAsFound(fx), who)|
                && Filled(old(rows), rows) == IdSet(batch) * Ready(old(State()), PricedAsFound(fx), who)
    {
      BatchIsFromBacklog(State(), who, EffectiveLimit(limit), batch);
      BatchRaisesIff(State(), PricedAsFound(fx), who, batch);
      if !SweepLoop(State(), PricedAsFound(fx), Snapshots(State(), batch)).raised {
        SweepCounts(State(), PricedAsFound(fx), who, batch);
      }
      r := UpdateSelected(PricedAsFound(fx), Snapshots(State(), batch));
    }

    /** UPDATE expenses SET amount_base, currency_base WHERE id. */
    method Update(s: Snapshot, amount: real)
      requires Valid()
      modifies `rows, `seqValue
      ensures Valid() && old(seqValue) <= seqValue && State() == UpdateById(old(State()), s, amount)
    {
      UpdateByIdStamped(State(), s, amount);
      var updated := UpdateById(State(), s, amount);
      rows, seqValue := updated.rows, updated.seqValue;
    }

    /** The loop over the selected rows; an exception rolls the updates back, not the sequence. */
    method UpdateSelected(price: Pricing, selected: seq<Snapshot>) returns (r: Option<RecomputeResult>)
      requires Valid()
      modifies `rows, `seqValue
      ensures Valid() && State() == Settle(old(State()), SweepLoop(old(State()), price, selected))
      ensures var run := SweepLoop(old(State()), price, selected);
              r == if run.raised then None
                   else Some(RecomputeResult(|selected|, run.recomputed, |selected| - run.recomputed))
    {
      var before := State();
      var recomputed := 0;
      for i := 0 to |selected|
        invariant Valid() && before.seqValue <= seqValue
        invariant SweepRun(State(), recomputed, false) == SweepLoop(before, price, selected[..i])
      {
        assert selected[..i + 1][..i] == selected[..i];
        var s := selected[i];
        match price(s) {
          case Missing =>
          case Raises =>
            SweepRaisesAt(before, price, selected, i);
            rows := before.rows;
            return None;
          case Value(amount) =>
            Update(s, amount);
            recomputed := recomputed + 1;
        }
      }
      assert selected[..|selected|] == selected;
      r := Some(RecomputeResult(|selected|, recomputed, |selected| - recomputed));
    }

    /** stamps is the order in which the trigger met the rows of the one UPDATE. */
    method NullAmountBaseForUser(user: UserId, stamps: map<ExpenseId, nat>) returns (touched: nat)
      requires Valid() && StampsOf(Enriched(rows, user), seqValue, stamps)
      modifies this
      ensures Valid() && State() == NullAmountBase(old(State()), user, stamps)
      ensures touched == |Enriched(old(rows), user)| && Enriched(rows, user) == {}
      ensures forall id | id in old(rows) && id !in Enriched(old(rows), user) :: id in rows && rows[id] == old(rows)[id]
    {
      NullAmountBaseAdvances(State(), user, stamps);
      touched := |Enriched(rows, user)|;
      var nulled := NullAmountBase(State(), user, stamps);
      rows, seqValue := nulled.rows, nulled.seqValue;
    }
  }

  // ----- the response of a push that nothing interleaves --------------------------------------------

  /** The ids of the results, in order, are those of the batch by first appearance, each once. */
  ghost predicate ListsByFirstAppearance(payload: seq<Raw>, results: seq<PushResult>) {
    && (forall k | 0 <= k < |results| :: FirstOf(payload, results[k].id).Some?)
    && (forall k, l | 0 <= k < l < |results| ::
          FirstOf(payload, results[k].id).Some? && FirstOf(payload, results[l].id).Some?
          && FirstOf(payload, results[k].id).value < FirstOf(payload, results[l].id).value)
    && (forall id | FirstOf(payload, id).Some? :: exists k :: 0 <= k < |results| && results[k].id == id)
  }

  lemma ResultsList(payload: seq<Raw>, results: seq<PushResult>)
    requires |results| == |Deduped(payload).order|
    requires forall k | 0 <= k < |results| :: results[k].id == Deduped(payload).order[k]
    ensures ListsByFirstAppearance(payload, results)
  {
    var order := Deduped(payload).order;
    forall k | 0 <= k < |results|
      ensures FirstOf(payload, results[k].id).Some?
    {
      DedupeExact(payload, order[k]);
      assert order[k] in order;
    }
    forall k, l | 0 <= k < l < |results|
      ensures FirstOf(payload, results[k].id).Some? && FirstOf(payload, results[l].id).Some?
      ensures FirstOf(payload, results[k].id).value < FirstOf(payload, results[l].id).value
    {
      OrderIsFirstAppearance(payload, k, l);
    }
    forall id | FirstOf(payload, id).Some?
      ensures exists k :: 0 <= k < |results| && results[k].id == id
    {
      DedupeExact(payload, id);
      var k :| 0 <= k < |order| && order[k] == id;
      assert results[k].id == id;
    }
  }

  /** The status is the one owed, and its stamp is covered by the mark unless another user owned the row. */
  ghost predicate OwedResult(seen: Rows, db: Tables, db': Tables, devices: Devices, user: UserId, payload: seq<Raw>,
                             r: PushResult, highWater: nat)
  {
    && FirstOf(payload, r.id).Some?
    && r.status == OwedStatus(seen, devices, user, payload, r.id, db, db')
    && (r.status.Applied? && (r.id in db.rows ==> db.rows[r.id].user == user) ==> r.status.serverSeq <= highWater)
  }

  lemma StatusIsOwed(seen: Rows, db: Tables, devices: Devices, user: UserId, payload: seq<Raw>, clock: Clock,
                     id: ExpenseId)
    requires Stamped(db) && FirstOf(payload, id).Some?
    ensures var p := Validated(seen, devices, user, payload);
            var db' := CommitUpsert(db, user, p.valid, clock);
            var status := StatusOf(id, p.rejects, AppliedSeqs(Returning(db, user, p.valid, clock.now)));
            OwedResult(seen, db, db', devices, user, payload, PushResult(id, status), HighWater(db'.rows, user))
  {
    StatusExact(seen, devices, user, payload, id, db, clock.now);
    StatusReadsRows(seen, devices, user, payload, id, db, clock);
    if id in db.rows ==> db.rows[id].user == user { OwedIsCovered(seen, db, devices, user, payload, clock, id); }
  }

  lemma StatusReadsRows(seen: Rows, devices: Devices, user: UserId, payload: seq<Raw>, id: ExpenseId, db: Tables,
                        clock: Clock)
    requires FirstOf(payload, id).Some?
    ensures var valid := Validated(seen, devices, user, payload).valid;
            OwedStatus(seen, devices, user, payload, id, db, UpsertAll(db, user, valid, clock.now))
            == OwedStatus(seen, devices, user, payload, id, db, CommitUpsert(db, user, valid, clock))
  {
  }

  /**
   * Whatever was committed between a push's validation (which saw the rows `seen`) and its upsert:
   * one result per distinct usable id, in first-appearance order, each with the status it is owed;
   * and the high-water mark is the user's greatest stamp, which covers every reported one but those
   * of rows that were another user's.
   */
  lemma CommitExact(seen: Rows, db: Tables, devices: Devices, user: UserId, payload: seq<Raw>, clock: Clock)
    requires Stamped(db)
    ensures var (db', response) := Committed(db, user, Validated(seen, devices, user, payload), clock);
            && ListsByFirstAppearance(payload, response.results)
            && IsGreatestStamp(db'.rows, user, response.serverHighWater)
            && forall k | 0 <= k < |response.results| ::
                 OwedResult(seen, db, db', devices, user, payload, response.results[k], response.serverHighWater)
  {
    var p := Validated(seen, devices, user, payload);
    var (db', response) := Committed(db, user, p, clock);
    ResultsList(payload, response.results);
    HighWaterIsGreatest(db'.rows, user);
    forall k | 0 <= k < |response.results|
      ensures OwedResult(seen, db, db', devices, user, payload, response.results[k], response.serverHighWater)
    {
      DedupeExact(payload, p.order[k]);
      StatusIsOwed(seen, db, devices, user, payload, clock, p.order[k]);
    }
  }

  /** A record owed APPLIED went through the upsert. */
  lemma OwedAppliedIsValid(seen: Rows, devices: Devices, user: UserId, payload: seq<Raw>, id: ExpenseId, db: Tables,
                           after: Tables)
    requires FirstOf(payload, id).Some? && OwedStatus(seen, devices, user, payload, id, db, after).Applied?
    ensures var first := payload[FirstOf(payload, id).value];
            && first.WellFormed? && first.rec.id == id && first.rec in Validated(seen, devices, user, payload).valid
    ensures id in after.rows
            && OwedStatus(seen, devices, user, payload, id, db, after).serverSeq == after.rows[id].serverSeq
  {
    ValidExact(seen, devices, user, payload, payload[FirstOf(payload, id).value].rec);
  }

  lemma OwedIsCovered(seen: Rows, db: Tables, devices: Devices, user: UserId, payload: seq<Raw>, clock: Clock,
                      id: ExpenseId)
    requires Stamped(db) && FirstOf(payload, id).Some? && (id in db.rows ==> db.rows[id].user == user)
    ensures var db' := CommitUpsert(db, user, Validated(seen, devices, user, payload).valid, clock);
            var status := OwedStatus(seen, devices, user, payload, id, db, db');
            status.Applied? ==> status.serverSeq <= HighWater(db'.rows, user)
  {
    var db' := CommitUpsert(db, user, Validated(seen, devices, user, payload).valid, clock);
    if OwedStatus(seen, devices, user, payload, id, db, db').Applied? {
      OwedAppliedIsValid(seen, devices, user, payload, id, db, db');
      UpsertedBelowHighWater(seen, db, devices, user, payload, clock, payload[FirstOf(payload, id).value].rec);
    }
  }

  lemma UpsertedBelowHighWater(seen: Rows, db: Tables, devices: Devices, user: UserId, payload: seq<Raw>, clock: Clock,
                               rec: Record)
    requires Stamped(db) && rec in Validated(seen, devices, user, payload).valid
    requires rec.id in db.rows ==> db.rows[rec.id].user == user
    ensures var db' := CommitUpsert(db, user, Validated(seen, devices, user, payload).valid, clock);
            rec.id in db'.rows && db'.rows[rec.id].serverSeq <= HighWater(db'.rows, user)
  {
    var valid := Validated(seen, devices, user, payload).valid;
    ValidIsDistinct(seen, devices, user, payload);
    var k :| 0 <= k < |valid| && valid[k] == rec;
    UpsertOutcome(db, user, valid, clock.now, k);
    HighWaterIsGreatest(CommitUpsert(db, user, valid, clock).rows, user);
  }

  /** When nothing comes in between, the high-water mark covers every reported stamp. */
  lemma PushExact(db: Tables, devices: Devices, user: UserId, payload: seq<Raw>, clock: Clock)
    requires Stamped(db)
    ensures var (db', response) := Pushed(db, devices, user, payload, clock);
            && ListsByFirstAppearance(payload, response.results)
            && IsGreatestStamp(db'.rows, user, response.serverHighWater)
            && forall k | 0 <= k < |response.results| ::
                 && FirstOf(payload, response.results[k].id).Some?
                 && response.results[k].status
                    == OwedStatus(db.rows, devices, user, payload, response.results[k].id, db, db')
                 && (response.results[k].status.Applied?
                     ==> response.results[k].status.serverSeq <= response.serverHighWater)
  {
    var (db', response) := Pushed(db, devices, user, payload, clock);
    CommitExact(db.rows, db, devices, user, payload, clock);
    forall k | 0 <= k < |response.results|
      ensures FirstOf(payload, response.results[k].id).Some?
      ensures response.results[k].status == OwedStatus(db.rows, devices, user, payload, response.results[k].id, db, db')
      ensures response.results[k].status.Applied? ==> response.results[k].status.serverSeq <= response.serverHighWater
    {
      assert OwedResult(db.rows, db, db', devices, user, payload, response.results[k], response.serverHighWater);
    }
  }

  ghost predicate SameRow(a: Rows, b: Rows, id: ExpenseId) {
    (id in a <==> id in b) && (id in a ==> a[id] == b[id])
  }

  /** The first copy of an id comes first, passes both checks, and is newer than what is stored. */
  ghost predicate FirstCopyLands(db: Tables, devices: Devices, user: UserId, payload: seq<Raw>, id: ExpenseId) {
    && FirstOf(payload, id).Some? && payload[FirstOf(payload, id).value].WellFormed?
    && var rec := payload[FirstOf(payload, id).value].rec;
       RejectReason(db.rows, devices, user, rec).None? && Applies(db.rows, rec)
  }

  /**
   * A push leaves an id's row alone if and only if the batch's first copy of it does not land. So
   * "rejected means not stored" is false, exactly for ids rejected as duplicates of a copy that lands.
   */
  lemma RowUntouchedIff(db: Tables, devices: Devices, user: UserId, payload: seq<Raw>, clock: Clock, id: ExpenseId)
    requires Stamped(db)
    ensures SameRow(db.rows, Pushed(db, devices, user, payload, clock).0.rows, id)
            <==> !FirstCopyLands(db, devices, user, payload, id)
  {
    var valid := Validated(db.rows, devices, user, payload).valid;
    ValidIsDistinct(db.rows, devices, user, payload);
    if i :| 0 <= i < |valid| && valid[i].id == id {
      ValidExact(db.rows, devices, user, payload, valid[i]);
      UpsertOutcome(db, user, valid, clock.now, i);
    } else {
      UpsertTouchesOnlyItsIds(db, user, valid, clock.now, id);
      if FirstCopyLands(db, devices, user, payload, id) {
        ValidExact(db.rows, devices, user, payload, payload[FirstOf(payload, id).value].rec);
        assert false;
      }
    }
  }

  /** An id rejected as a duplicate is stored all the same when its first copy lands. */
  lemma RejectedYetStored(db: Tables, devices: Devices, user: UserId, payload: seq<Raw>, clock: Clock, id: ExpenseId)
    requires Stamped(db) && FirstCopyLands(db, devices, user, payload, id)
             && CopyAfter(payload, id, FirstOf(payload, id).value)
    ensures var (db', response) := Pushed(db, devices, user, payload, clock);
            && PushResult(id, Rejected(DUPLICATE)) in response.results
            && id in db'.rows && db'.rows[id].cols == payload[FirstOf(payload, id).value].rec.cols
  {
    var rec := payload[FirstOf(payload, id).value].rec;
    var p, valid := Validated(db.rows, devices, user, payload), Validated(db.rows, devices, user, payload).valid;
    DedupeExact(payload, id);
    var k :| 0 <= k < |p.order| && p.order[k] == id;
    assert Pushed(db, devices, user, payload, clock).1.results[k].id == id;
    StatusExact(db.rows, devices, user, payload, id, db, clock.now);
    ValidIsDistinct(db.rows, devices, user, payload);
    ValidExact(db.rows, devices, user, payload, rec);
    var i :| 0 <= i < |valid| && valid[i] == rec;
    UpsertOutcome(db, user, valid, clock.now, i);
  }
}
