/**
 * app/api/v1/sync.py, push_sync before its upsert: the dedupe loop over the raw batch and the
 * ownership checks, as functions of the batch and of what the checks read.
 */
module PushValidation {
  import opened Prelude
  import opened Expenses

  /** A raw record: it validates, or it does not and has a usable id or none. */
  datatype Raw = WellFormed(rec: Record) | Malformed(id: Option<ExpenseId>, error: string)

  const DUPLICATE := "duplicate id in batch"
  const NOT_OWNED := "device_id not found or not owned by user"
  const OTHER_USER := "record id belongs to a different user"

  /** The id a result can be keyed on. */
  function Key(raw: Raw): Option<ExpenseId> {
    match raw
    case WellFormed(rec) => Some(rec.id)
    case Malformed(id, _) => id
  }

  // ----- the dedupe loop -----------------------------------------------------------------------

  /** rejects, parsed (an insertion-ordered dict keyed by the record's id) and order. */
  datatype Dedupe = Dedupe(rejects: map<ExpenseId, string>, parsed: seq<Record>, order: seq<ExpenseId>)

  predicate HasId(recs: seq<Record>, id: ExpenseId) { exists i | 0 <= i < |recs| :: recs[i].id == id }

  /** One turn of the loop. */
  function Take(d: Dedupe, raw: Raw): Dedupe {
    match raw
    case Malformed(None, _) => d
    case Malformed(Some(id), error) =>
      if id !in d.rejects && !HasId(d.parsed, id)
          then d.(rejects := d.rejects[id := error], order := d.order + [id]) else d
    case WellFormed(rec) =>
      if HasId(d.parsed, rec.id) || rec.id in d.rejects then
        if rec.id in d.rejects then d else d.(rejects := d.rejects[rec.id := DUPLICATE])
      else d.(parsed := d.parsed + [rec], order := d.order + [rec.id])
  }

  function Deduped(payload: seq<Raw>): Dedupe {
    if payload == [] then Dedupe(map[], [], [])
    else Take(Deduped(payload[..|payload| - 1]), payload[|payload| - 1])
  }

  // ----- the ownership checks ------------------------------------------------------------------

  type Devices = map<DeviceId, UserId>

  function RejectReason(rows: Rows, devices: Devices, user: UserId, rec: Record): Option<string> {
    if rec.device !in devices || devices[rec.device] != user then Some(NOT_OWNED)
    else if rec.id in rows && rows[rec.id].user != user then Some(OTHER_USER)
    else None
  }

  /** The records that pass, in order. */
  function Owned(rows: Rows, devices: Devices, user: UserId, parsed: seq<Record>): seq<Record> {
    if parsed == [] then []
    else
      var before, rec := Owned(rows, devices, user, parsed[..|parsed| - 1]), parsed[|parsed| - 1];
      if RejectReason(rows, devices, user, rec).None? then before + [rec] else before
  }

  /** The reasons of those that do not, over the ones the dedupe loop left. */
  function Refused(rows: Rows, devices: Devices, user: UserId, parsed: seq<Record>,
                   rejects: map<ExpenseId, string>): map<ExpenseId, string>
  {
    if parsed == [] then rejects
    else
      var before, rec := Refused(rows, devices, user, parsed[..|parsed| - 1], rejects), parsed[|parsed| - 1];
      match RejectReason(rows, devices, user, rec)
      case None => before
      case Some(reason) => before[rec.id := reason]
  }

  /** A validated batch, ready for the upsert. */
  datatype Pending = Pending(rejects: map<ExpenseId, string>, order: seq<ExpenseId>, valid: seq<Record>)

  function Validated(rows: Rows, devices: Devices, user: UserId, payload: seq<Raw>): Pending {
    var d := Deduped(payload);
    Pending(Refused(rows, devices, user, d.parsed, d.rejects), d.order, Owned(rows, devices, user, d.parsed))
  }

  // ----- the response ----------------------------------------------------------------------------

  datatype Status = Applied(serverSeq: nat) | StaleIgnored | Rejected(reason: string)

  datatype PushResult = PushResult(id: ExpenseId, status: Status)

  /** The dict {row.id: row.server_seq} of the returned rows. */
  function AppliedSeqs(returned: seq<Returned>): map<ExpenseId, nat> {
    if returned == [] then map[]
    else
      var last := returned[|returned| - 1];
      AppliedSeqs(returned[..|returned| - 1])[last.id := last.serverSeq]
  }

  function StatusOf(id: ExpenseId, rejects: map<ExpenseId, string>, applied: map<ExpenseId, nat>): Status {
    if id in rejects then Rejected(rejects[id])
    else if id in applied then Applied(applied[id])
    else StaleIgnored
  }

  function Results(order: seq<ExpenseId>, rejects: map<ExpenseId, string>,
                   applied: map<ExpenseId, nat>): seq<PushResult>
  {
    seq(|order|, i requires 0 <= i < |order| => PushResult(order[i], StatusOf(order[i], rejects, applied)))
  }

  // ----- what the dedupe loop means ----------------------------------------------------------------

  /** The index of the first item of the batch that carries this id. */
  function FirstOf(payload: seq<Raw>, id: ExpenseId): (i: Option<nat>)
    ensures i.Some? ==> i.value < |payload| && Key(payload[i.value]) == Some(id)
                        && forall j | 0 <= j < i.value :: Key(payload[j]) != Some(id)
    ensures i.None? ==> forall j | 0 <= j < |payload| :: Key(payload[j]) != Some(id)
  {
    if payload == [] then None
    else
      var n := |payload| - 1;
      var before := FirstOf(payload[..n], id);
      if before.Some? then before else if Key(payload[n]) == Some(id) then Some(n) else None
  }

  /** A well-formed copy of the id comes after item i. */
  ghost predicate CopyAfter(payload: seq<Raw>, id: ExpenseId, i: nat) {
    exists j | i < j < |payload| :: payload[j].WellFormed? && payload[j].rec.id == id
  }

  /** What the three collections say about one id, in terms of the batch alone. */
  ghost predicate DedupedAs(payload: seq<Raw>, d: Dedupe, id: ExpenseId) {
    match FirstOf(payload, id)
    case None => id !in d.order && id !in d.rejects && !HasId(d.parsed, id)
    case Some(i) =>
      && id in d.order
      && match payload[i]
         case Malformed(_, error) => !HasId(d.parsed, id) && id in d.rejects && d.rejects[id] == error
         case WellFormed(rec) =>
           && rec in d.parsed && (forall r | r in d.parsed && r.id == id :: r == rec)
           && (id in d.rejects <==> CopyAfter(payload, id, i))
           && (id in d.rejects ==> d.rejects[id] == DUPLICATE)
  }

  lemma CopyInPrefix(payload: seq<Raw>, id: ExpenseId, i: nat)
    requires i < |payload| - 1
    ensures var last := payload[|payload| - 1];
            CopyAfter(payload, id, i)
            <==> CopyAfter(payload[..|payload| - 1], id, i) || (last.WellFormed? && last.rec.id == id)
  {
    var n := |payload| - 1;
    if CopyAfter(payload[..n], id, i) {
      var j :| i < j < n && payload[..n][j].WellFormed? && payload[..n][j].rec.id == id;
      assert payload[j].WellFormed? && payload[j].rec.id == id;
    }
    if CopyAfter(payload, id, i) {
      var j :| i < j < |payload| && payload[j].WellFormed? && payload[j].rec.id == id;
      assert j < n ==> payload[..n][j] == payload[j];
    }
  }

  lemma MembersHaveIds(recs: seq<Record>, id: ExpenseId)
    ensures HasId(recs, id) <==> exists r :: r in recs && r.id == id
  {
    if HasId(recs, id) {
      var i :| 0 <= i < |recs| && recs[i].id == id;
      assert recs[i] in recs;
    }
  }

  lemma {:induction false} DedupeExact(payload: seq<Raw>, id: ExpenseId)
    ensures DedupedAs(payload, Deduped(payload), id)
  {
    if payload != [] {
      var n := |payload| - 1;
      var before := Deduped(payload[..n]);
      DedupeExact(payload[..n], id);
      MembersHaveIds(before.parsed, id);
      MembersHaveIds(Deduped(payload).parsed, id);
      var first := FirstOf(payload[..n], id);
      if first.Some? {
        CopyInPrefix(payload, id, first.value);
      }
    }
  }

  /** Results are listed by first appearance: order is strictly ascending in it, so it repeats no id. */
  lemma {:induction false} OrderIsFirstAppearance(payload: seq<Raw>, k: nat, l: nat)
    requires k < l < |Deduped(payload).order|
    ensures var order := Deduped(payload).order;
            var i, j := FirstOf(payload, order[k]), FirstOf(payload, order[l]);
            i.Some? && j.Some? && i.value < j.value
  {
    var n := |payload| - 1;
    var before, order := Deduped(payload[..n]).order, Deduped(payload).order;
    DedupeExact(payload[..n], order[k]);
    DedupeExact(payload[..n], order[l]);
    DedupeExact(payload, order[l]);
    if l < |before| {
      OrderIsFirstAppearance(payload[..n], k, l);
    } else {
      assert order[k] == before[k];
      assert order[k] in before;
    }
  }

  lemma {:induction false} ParsedIsDistinct(payload: seq<Raw>)
    ensures DistinctIds(Deduped(payload).parsed)
  {
    if payload != [] { ParsedIsDistinct(payload[..|payload| - 1]); }
  }

  // ----- what the ownership checks mean ---------------------------------------------------------------

  lemma {:induction false} OwnedExact(rows: Rows, devices: Devices, user: UserId, parsed: seq<Record>, rec: Record)
    ensures rec in Owned(rows, devices, user, parsed) <==> rec in parsed && RejectReason(rows, devices, user, rec).None?
  {
    if parsed != [] {
      var n := |parsed| - 1;
      OwnedExact(rows, devices, user, parsed[..n], rec);
      assert parsed == parsed[..n] + [parsed[n]];
    }
  }

  lemma {:induction false} OwnedIsDistinct(rows: Rows, devices: Devices, user: UserId, parsed: seq<Record>)
    requires DistinctIds(parsed)
    ensures DistinctIds(Owned(rows, devices, user, parsed))
  {
    if parsed != [] {
      var n := |parsed| - 1;
      OwnedIsDistinct(rows, devices, user, parsed[..n]);
      forall r | r in Owned(rows, devices, user, parsed[..n])
        ensures r.id != parsed[n].id
      {
        OwnedExact(rows, devices, user, parsed[..n], r);
      }
    }
  }

  ghost predicate SameEntry(a: map<ExpenseId, string>, b: map<ExpenseId, string>, id: ExpenseId) {
    (id in a <==> id in b) && (id in a ==> a[id] == b[id])
  }

  lemma {:induction false} RefusedElsewhere(rows: Rows, devices: Devices, user: UserId, parsed: seq<Record>,
                                            rejects: map<ExpenseId, string>, id: ExpenseId)
    requires forall i | 0 <= i < |parsed| :: parsed[i].id != id
    ensures SameEntry(Refused(rows, devices, user, parsed, rejects), rejects, id)
  {
    if parsed != [] {
      RefusedElsewhere(rows, devices, user, parsed[..|parsed| - 1], rejects, id);
    }
  }

  lemma {:induction false} RefusedExact(rows: Rows, devices: Devices, user: UserId, parsed: seq<Record>,
                                        rejects: map<ExpenseId, string>, i: nat)
    requires DistinctIds(parsed) && i < |parsed|
    ensures var refused := Refused(rows, devices, user, parsed, rejects);
            var reason := RejectReason(rows, devices, user, parsed[i]);
            if reason.Some? then parsed[i].id in refused && refused[parsed[i].id] == reason.value
            else SameEntry(refused, rejects, parsed[i].id)
  {
    var n := |parsed| - 1;
    if i == n {
      RefusedElsewhere(rows, devices, user, parsed[..n], rejects, parsed[n].id);
    } else {
      RefusedExact(rows, devices, user, parsed[..n], rejects, i);
    }
  }

  /** The batch handed to the upsert never names an id twice. */
  lemma ValidIsDistinct(rows: Rows, devices: Devices, user: UserId, payload: seq<Raw>)
    ensures DistinctIds(Validated(rows, devices, user, payload).valid)
  {
    ParsedIsDistinct(payload);
    OwnedIsDistinct(rows, devices, user, Deduped(payload).parsed);
  }

  /** A record is upserted exactly when it is the first of its id, well-formed, and passes both checks. */
  ghost predicate Admitted(rows: Rows, devices: Devices, user: UserId, payload: seq<Raw>, rec: Record) {
    && FirstOf(payload, rec.id).Some?
    && payload[FirstOf(payload, rec.id).value] == WellFormed(rec)
    && rec.device in devices && devices[rec.device] == user
    && (rec.id in rows ==> rows[rec.id].user == user)
  }

  lemma ValidExact(rows: Rows, devices: Devices, user: UserId, payload: seq<Raw>, rec: Record)
    ensures rec in Validated(rows, devices, user, payload).valid <==> Admitted(rows, devices, user, payload, rec)
  {
    var d := Deduped(payload);
    OwnedExact(rows, devices, user, d.parsed, rec);
    DedupeExact(payload, rec.id);
    MembersHaveIds(d.parsed, rec.id);
  }

  /** A lone record that passes the checks is the whole batch. */
  lemma SingleIsValid(rows: Rows, devices: Devices, user: UserId, rec: Record)
    requires RejectReason(rows, devices, user, rec).None?
    ensures Validated(rows, devices, user, [WellFormed(rec)]).valid == [rec]
  {
    var payload := [WellFormed(rec)];
    assert payload[..0] == [] && [rec][..0] == [];
    assert Deduped(payload).parsed == [] + [rec];
    assert Owned(rows, devices, user, [rec]) == [] + [rec];
  }

  // ----- result exactness --------------------------------------------------------------------------------

  lemma {:induction false} AppliedSeqsExact(returned: seq<Returned>, id: ExpenseId, applied: bool, stamp: nat,
                                            inserted: bool)
    requires ReturnedAs(returned, id, applied, stamp, inserted)
    ensures id in AppliedSeqs(returned) <==> applied
    ensures applied ==> AppliedSeqs(returned)[id] == stamp
  {
    if returned != [] {
      var n := |returned| - 1;
      assert returned == returned[..n] + [returned[n]];
      var still := Returned(id, stamp, inserted) in returned[..n];
      assert returned[n].id == id ==> applied && returned[n] == Returned(id, stamp, inserted) by {
        assert returned[n] in returned;
      }
      AppliedSeqsExact(returned[..n], id, still, stamp, inserted);
    }
  }

  /** The status a push owes an id of its batch: seen is what validation saw, db what the upsert found. */
  ghost function OwedStatus(seen: Rows, devices: Devices, user: UserId, payload: seq<Raw>, id: ExpenseId, db: Tables,
                            after: Tables): Status
    requires FirstOf(payload, id).Some?
  {
    var i := FirstOf(payload, id).value;
    match payload[i]
    case Malformed(_, error) => Rejected(error)
    case WellFormed(rec) =>
      if rec.device !in devices || devices[rec.device] != user then Rejected("device_id not found or not owned by user")
      else if id in seen && seen[id].user != user then Rejected("record id belongs to a different user")
      else if CopyAfter(payload, id, i) then Rejected("duplicate id in batch")
      else if Applies(db.rows, rec) && id in after.rows then Applied(after.rows[id].serverSeq)
      else StaleIgnored
  }

  /**
   * Every listed id gets the status it is owed, whatever was committed between validation and
   * upsert. An id with a later valid copy is rejected although its first copy is upserted.
   */
  lemma StatusExact(seen: Rows, devices: Devices, user: UserId, payload: seq<Raw>, id: ExpenseId, db: Tables,
                    now: Timestamp)
    requires Stamped(db) && FirstOf(payload, id).Some?
    ensures var p := Validated(seen, devices, user, payload);
            var after := UpsertAll(db, user, p.valid, now);
            StatusOf(id, p.rejects, AppliedSeqs(Returning(db, user, p.valid, now)))
            == OwedStatus(seen, devices, user, payload, id, db, after)
  {
    var d := Deduped(payload);
    var p := Validated(seen, devices, user, payload);
    var returned := Returning(db, user, p.valid, now);
    var i := FirstOf(payload, id).value;
    DedupeExact(payload, id);
    ParsedIsDistinct(payload);
    if payload[i].Malformed? {
      RefusedElsewhere(seen, devices, user, d.parsed, d.rejects, id);
    } else {
      var j :| 0 <= j < |d.parsed| && d.parsed[j] == payload[i].rec;
      RefusedExact(seen, devices, user, d.parsed, d.rejects, j);
    }
    if payload[i].WellFormed? && id !in p.rejects {
      var rec := payload[i].rec;
      ValidIsDistinct(seen, devices, user, payload);
      ValidExact(seen, devices, user, payload, rec);
      var k :| 0 <= k < |p.valid| && p.valid[k] == rec;
      ReturningExact(db, user, p.valid, now, k);
      AppliedSeqsExact(returned, id, Applies(db.rows, rec),
                       UpsertAll(db, user, p.valid, now).rows[id].serverSeq, id !in db.rows);
    }
  }
}
