/**
 * Which rows repeated sweeps are sure to fill (app/services/fx/recompute.py:40-77), whatever the
 * order of rows created together: what is needed of the rows missing a rate and of the rows whose
 * conversion raises, and when that is enough.
 */
module Drain {
  import opened Prelude
  import opened Converter
  import opened Expenses
  import opened FxIngest
  import opened Sweep

  /** Those of the ids whose rows were created no later than this one. */
  function NoNewer(db: Tables, ids: set<ExpenseId>, r: ExpenseId): set<ExpenseId>
    requires ids <= db.rows.Keys && r in db.rows
  {
    set id | id in ids && db.rows[id].createdAt <= db.rows[r].createdAt
  }

  function BacklogUpTo(db: Tables, who: Option<UserId>, r: ExpenseId): set<ExpenseId>
    requires r in db.rows
  {
    NoNewer(db, Backlog(db, who), r)
  }

  function ReadyUpTo(db: Tables, price: Pricing, who: Option<UserId>, r: ExpenseId): set<ExpenseId>
    requires r in db.rows
  {
    NoNewer(db, Ready(db, price, who), r)
  }

  function StuckUpTo(db: Tables, price: Pricing, who: Option<UserId>, r: ExpenseId): set<ExpenseId>
    requires r in db.rows
  {
    NoNewer(db, Stuck(db, price, who), r)
  }

  function StrictlyOlder(db: Tables, who: Option<UserId>, x: ExpenseId): set<ExpenseId>
    requires x in db.rows
  {
    set id | id in Backlog(db, who) && db.rows[id].createdAt < db.rows[x].createdAt
  }

  // ----- which rows the query may leave out ---------------------------------------------------------

  /** A batch that leaves a backlog row out is full, and holds only rows no newer. */
  lemma LeftOut(db: Tables, who: Option<UserId>, limit: nat, batch: seq<ExpenseId>, r: ExpenseId)
    requires IsBatch(db, who, limit, batch) && r in Backlog(db, who) && r !in batch
    ensures |IdSet(batch)| == limit
    ensures IdSet(batch) <= BacklogUpTo(db, who, r) - {r}
  {
    BatchIsFromBacklog(db, who, limit, batch);
    NoRepeatsSize(batch);
    SubsetSize(IdSet(batch), Backlog(db, who));
    assert r in Backlog(db, who) - IdSet(batch);
    forall id | id in IdSet(batch)
      ensures db.rows[id].createdAt <= db.rows[r].createdAt
    {
    }
  }

  /** A row with at least `limit` others no newer can be left out, ties broken against it. */
  lemma AvoidingBatch(db: Tables, who: Option<UserId>, limit: nat, r: ExpenseId) returns (batch: seq<ExpenseId>)
    requires r in Backlog(db, who) && |BacklogUpTo(db, who, r)| > limit
    ensures IsBatch(db, who, limit, batch) && r !in batch
  {
    var backlog, upTo := Backlog(db, who), BacklogUpTo(db, who, r);
    var others := backlog - {r};
    SubsetSize(upTo, backlog);
    SubsetSize({r}, backlog);
    batch := OldestFirst(db, others, limit);
    forall id | id in batch
      ensures db.rows[id].createdAt <= db.rows[r].createdAt
    {
      NewerNeedsAll(db, others, limit, batch, upTo - {r}, r, id);
    }
    forall id, other | id in batch && other in backlog && other !in batch
      ensures db.rows[id].createdAt <= db.rows[other].createdAt
    {
      var i :| 0 <= i < |batch| && batch[i] == id;
    }
  }

  /** If the batch holds a row newer than r, it holds every row no newer than r. */
  lemma OlderCameFirst(db: Tables, others: set<ExpenseId>, limit: nat, batch: seq<ExpenseId>, older: set<ExpenseId>,
                       r: ExpenseId, id: ExpenseId)
    requires others <= db.rows.Keys && r in db.rows && OldestOf(db, others, limit, batch) && id in batch
    requires older <= others && forall o | o in older :: db.rows[o].createdAt <= db.rows[r].createdAt
    requires db.rows[id].createdAt > db.rows[r].createdAt
    ensures older + {id} <= IdSet(batch) && |older + {id}| == |older| + 1
  {
    var i :| 0 <= i < |batch| && batch[i] == id;
    assert older <= IdSet(batch);
  }

  /** So with `limit` rows no newer than r the batch holds none that is newer. */
  lemma NewerNeedsAll(db: Tables, others: set<ExpenseId>, limit: nat, batch: seq<ExpenseId>, older: set<ExpenseId>,
                      r: ExpenseId, id: ExpenseId)
    requires others <= db.rows.Keys && r in db.rows && OldestOf(db, others, limit, batch) && id in batch
    requires older <= others && |older| >= limit
    requires forall o | o in older :: db.rows[o].createdAt <= db.rows[r].createdAt
    ensures db.rows[id].createdAt <= db.rows[r].createdAt
  {
    NoRepeatsSize(batch);
    if db.rows[id].createdAt > db.rows[r].createdAt {
      OlderCameFirst(db, others, limit, batch, older, r, id);
      SubsetSize(older + {id}, IdSet(batch));
    }
  }

  /**
   * A backlog row is in every batch the query may return if and only if at most `limit` rows,
   * itself among them, are no newer.
   */
  lemma InEveryBatchIff(db: Tables, who: Option<UserId>, limit: nat, r: ExpenseId)
    requires r in Backlog(db, who)
    ensures (forall batch | IsBatch(db, who, limit, batch) :: r in batch) <==> |BacklogUpTo(db, who, r)| <= limit
  {
    var upTo := BacklogUpTo(db, who, r);
    SubsetSize({r}, upTo);
    if |upTo| > limit {
      var batch := AvoidingBatch(db, who, limit, r);
    } else {
      forall batch | IsBatch(db, who, limit, batch)
        ensures r in batch
      {
        if r !in batch {
          LeftOut(db, who, limit, batch, r);
          SubsetSize(IdSet(batch), upTo - {r});
        }
      }
    }
  }

  /** A row with fewer than `limit` strictly older ones can be taken in, ties broken in its favour. */
  lemma IncludingBatch(db: Tables, who: Option<UserId>, limit: nat, x: ExpenseId) returns (batch: seq<ExpenseId>)
    requires x in Backlog(db, who) && |StrictlyOlder(db, who, x)| < limit
    ensures IsBatch(db, who, limit, batch) && x in batch
  {
    var backlog, older := Backlog(db, who), StrictlyOlder(db, who, x);
    var rest := backlog - older - {x};
    SubsetSize(older + {x}, backlog);
    assert rest == backlog - (older + {x});
    assert |older + {x}| == |older| + 1;
    var first := OldestFirst(db, older, |older|);
    var last := OldestFirst(db, rest, Min(limit, |backlog|) - |older| - 1);
    batch := first + [x] + last;
    WholeSet(db, older, first);
    JoinedIsBatch(db, who, limit, x, first, last);
  }

  lemma WholeSet(db: Tables, ids: set<ExpenseId>, batch: seq<ExpenseId>)
    requires ids <= db.rows.Keys && OldestOf(db, ids, |ids|, batch)
    ensures IdSet(batch) == ids
  {
    NoRepeatsSize(batch);
    SubsetSize(IdSet(batch), ids);
    assert ids == IdSet(batch) + (ids - IdSet(batch));
  }

  /** All strictly older rows first, then x, then the oldest of the rest. */
  ghost predicate Around(db: Tables, who: Option<UserId>, x: ExpenseId, first: seq<ExpenseId>, last: seq<ExpenseId>)
    requires x in Backlog(db, who)
  {
    var older := StrictlyOlder(db, who, x);
    && OldestOf(db, older, |older|, first) && IdSet(first) == older
    && OldestOf(db, Backlog(db, who) - older - {x}, |last|, last)
  }

  lemma JoinedPair(db: Tables, who: Option<UserId>, x: ExpenseId, first: seq<ExpenseId>, last: seq<ExpenseId>, i: nat,
                   j: nat)
    requires x in Backlog(db, who) && Around(db, who, x, first, last) && i < j < |first| + 1 + |last|
    ensures var batch := first + [x] + last;
            && batch[i] in Backlog(db, who) && batch[j] in Backlog(db, who) && batch[i] != batch[j]
            && db.rows[batch[i]].createdAt <= db.rows[batch[j]].createdAt
  {
    if i < |first| { assert first[i] in IdSet(first); }
    if j < |first| { assert first[j] in IdSet(first); }
  }

  lemma JoinedMember(db: Tables, who: Option<UserId>, x: ExpenseId, first: seq<ExpenseId>, last: seq<ExpenseId>, i: nat)
    requires x in Backlog(db, who) && Around(db, who, x, first, last) && i < |first| + 1 + |last|
    ensures (first + [x] + last)[i] in Backlog(db, who)
  {
  }

  lemma JoinedIsBatch(db: Tables, who: Option<UserId>, limit: nat, x: ExpenseId, first: seq<ExpenseId>,
                      last: seq<ExpenseId>)
    requires x in Backlog(db, who) && Around(db, who, x, first, last)
    requires |first| + 1 + |last| == Min(limit, |Backlog(db, who)|)
    ensures IsBatch(db, who, limit, first + [x] + last)
  {
    var batch, backlog := first + [x] + last, Backlog(db, who);
    forall i | 0 <= i < |batch|
      ensures batch[i] in backlog
    {
      JoinedMember(db, who, x, first, last, i);
    }
    forall i, j | 0 <= i < j < |batch|
      ensures batch[i] != batch[j] && db.rows[batch[i]].createdAt <= db.rows[batch[j]].createdAt
    {
      JoinedPair(db, who, x, first, last, i, j);
    }
    forall id, other | id in batch && other in backlog && other !in batch
      ensures db.rows[id].createdAt <= db.rows[other].createdAt
    {
      LeftOverIsNewer(db, who, x, first, last, id, other);
    }
  }

  lemma LeftOverIsNewer(db: Tables, who: Option<UserId>, x: ExpenseId, first: seq<ExpenseId>, last: seq<ExpenseId>,
                        id: ExpenseId, other: ExpenseId)
    requires x in Backlog(db, who) && Around(db, who, x, first, last)
    requires id in first + [x] + last && other in Backlog(db, who) && other !in first + [x] + last
    ensures db.rows[id].createdAt <= db.rows[other].createdAt
  {
    assert other !in IdSet(first) && other != x && other !in last;
    if id in last {
      var i :| 0 <= i < |last| && last[i] == id;
    } else if id in first {
      assert id in IdSet(first);
    }
  }

  /** A backlog row is in some batch the query may return if and only if fewer than `limit` rows are strictly older. */
  lemma InSomeBatchIff(db: Tables, who: Option<UserId>, limit: nat, x: ExpenseId)
    requires x in Backlog(db, who)
    ensures (exists batch :: IsBatch(db, who, limit, batch) && x in batch) <==> |StrictlyOlder(db, who, x)| < limit
  {
    if |StrictlyOlder(db, who, x)| < limit {
      var batch := IncludingBatch(db, who, limit, x);
    } else {
      forall batch | IsBatch(db, who, limit, batch)
        ensures x !in batch
      {
        TooManyOlder(db, who, limit, batch, x);
      }
    }
  }

  lemma TooManyOlder(db: Tables, who: Option<UserId>, limit: nat, batch: seq<ExpenseId>, x: ExpenseId)
    requires x in Backlog(db, who) && IsBatch(db, who, limit, batch) && |StrictlyOlder(db, who, x)| >= limit
    ensures x !in batch
  {
    NoRepeatsSize(batch);
    if x in batch {
      OlderAreIn(db, who, limit, batch, x);
      SubsetSize(StrictlyOlder(db, who, x) + {x}, IdSet(batch));
    }
  }

  lemma OlderAreIn(db: Tables, who: Option<UserId>, limit: nat, batch: seq<ExpenseId>, x: ExpenseId)
    requires x in Backlog(db, who) && IsBatch(db, who, limit, batch) && x in batch
    ensures StrictlyOlder(db, who, x) + {x} <= IdSet(batch)
    ensures |StrictlyOlder(db, who, x) + {x}| == |StrictlyOlder(db, who, x)| + 1
  {
    assert StrictlyOlder(db, who, x) <= IdSet(batch);
  }

  // ----- one sweep ----------------------------------------------------------------------------------

  /** The rows a sweep fills: those of its batch, unless one of them raises. */
  function Taken(db: Tables, price: Pricing, who: Option<UserId>, batch: seq<ExpenseId>): set<ExpenseId> {
    if IdSet(batch) !! Raising(db, price, who) then IdSet(batch) else {}
  }

  /** The same rows at the same creation times, and the same backlog but for the rows taken. */
  ghost predicate Compare(db: Tables, db': Tables, price: Pricing, who: Option<UserId>, taken: set<ExpenseId>) {
    && Stamped(db') && db'.rows.Keys == db.rows.Keys
    && (forall id | id in db.rows :: db'.rows[id].createdAt == db.rows[id].createdAt)
    && Ready(db', price, who) == Ready(db, price, who) - taken
    && Stuck(db', price, who) == Stuck(db, price, who)
    && Raising(db', price, who) == Raising(db, price, who)
  }

  lemma DrawsCompare(db: Tables, db': Tables, price: Pricing, who: Option<UserId>)
    requires Stamped(db) && OnlyDraws(db, db')
    ensures Compare(db, db', price, who, {})
  {
    forall id
      ensures id in Backlog(db', who) <==> id in Backlog(db, who)
      ensures id in Backlog(db, who) ==> ConversionOf(db', price, id) == ConversionOf(db, price, id)
    {
    }
  }

  lemma SweepCompares(db: Tables, price: Pricing, who: Option<UserId>, batch: seq<ExpenseId>)
    requires Stamped(db) && FromBacklog(db, who, batch)
    ensures Compare(db, Swept(db, price, batch), price, who, Taken(db, price, who, batch))
  {
    var db' := Swept(db, price, batch);
    SweepSets(db, price, who, batch);
    if IdSet(batch) !! Raising(db, price, who) {
      BatchRaisesIff(db, price, who, batch);
      SweepLoopAdvances(db, price, Snapshots(db, batch));
      forall id | id in db.rows
        ensures db'.rows[id].createdAt == db.rows[id].createdAt
      {
        assert Succeeds(db.rows[id], db'.rows[id]);
      }
    } else {
      DrawsCompare(db, db', price, who);
    }
  }

  /** A row that is not taken is left as it is. */
  lemma UntakenRow(db: Tables, price: Pricing, who: Option<UserId>, batch: seq<ExpenseId>, id: ExpenseId)
    requires Stamped(db) && FromBacklog(db, who, batch) && id in db.rows && id !in Taken(db, price, who, batch)
    ensures id in Swept(db, price, batch).rows && Swept(db, price, batch).rows[id] == db.rows[id]
    ensures Swept(db, price, batch).base == db.base
  {
    SweepLoopAdvances(db, price, Snapshots(db, batch));
    BatchRaisesIff(db, price, who, batch);
    if IdSet(batch) !! Raising(db, price, who) { SweepRow(db, price, who, batch, id); }
  }

  /** A convertible row that is taken is filled with what it converts to. */
  lemma TakenRow(db: Tables, price: Pricing, who: Option<UserId>, batch: seq<ExpenseId>, id: ExpenseId)
    requires Stamped(db) && FromBacklog(db, who, batch) && id in Ready(db, price, who)
             && id in Taken(db, price, who, batch)
    ensures id in Swept(db, price, batch).rows
    ensures Swept(db, price, batch).rows[id].amountBase == Some(ConversionOf(db, price, id).amount)
  {
    BatchRaisesIff(db, price, who, batch);
    SweepRow(db, price, who, batch, id);
  }

  lemma ComparedUpTo(db: Tables, db': Tables, price: Pricing, who: Option<UserId>, taken: set<ExpenseId>, r: ExpenseId)
    requires Compare(db, db', price, who, taken) && r in db.rows
    ensures ReadyUpTo(db', price, who, r) == ReadyUpTo(db, price, who, r) - taken
    ensures StuckUpTo(db', price, who, r) == StuckUpTo(db, price, who, r)
  {
  }

  // ----- what can keep a row waiting ----------------------------------------------------------------

  ghost predicate RaisingNoNewer(db: Tables, price: Pricing, who: Option<UserId>, r: ExpenseId)
    requires r in db.rows
  {
    exists x :: x in Raising(db, price, who) && db.rows[x].createdAt <= db.rows[r].createdAt
  }

  /** Some raising row has fewer than `limit` strictly older ones. */
  ghost predicate RaisingInReach(db: Tables, price: Pricing, who: Option<UserId>, limit: nat) {
    exists x :: x in Raising(db, price, who) && |StrictlyOlder(db, who, x)| < limit
  }

  ghost predicate MayWait(db: Tables, price: Pricing, who: Option<UserId>, limit: nat, r: ExpenseId)
    requires r in db.rows
  {
    || |StuckUpTo(db, price, who, r)| >= limit
    || RaisingNoNewer(db, price, who, r)
    || RaisingInReach(db, price, who, limit)
  }

  lemma StuckLeaveOut(db: Tables, price: Pricing, who: Option<UserId>, limit: nat, r: ExpenseId)
    requires r in Ready(db, price, who) && |StuckUpTo(db, price, who, r)| >= limit
    ensures |BacklogUpTo(db, who, r)| > limit
  {
    var stuck := StuckUpTo(db, price, who, r);
    assert r !in stuck;
    SubsetSize(stuck + {r}, BacklogUpTo(db, who, r));
  }

  /** A batch that leaves the row waiting. */
  lemma KeepingBatch(db: Tables, price: Pricing, who: Option<UserId>, limit: nat, r: ExpenseId)
    returns (batch: seq<ExpenseId>)
    requires r in Ready(db, price, who) && MayWait(db, price, who, limit, r)
    ensures IsBatch(db, who, limit, batch) && r !in Taken(db, price, who, batch)
  {
    if |StuckUpTo(db, price, who, r)| >= limit { StuckLeaveOut(db, price, who, limit, r); }
    if |BacklogUpTo(db, who, r)| > limit {
      batch := AvoidingBatch(db, who, limit, r);
    } else if RaisingNoNewer(db, price, who, r) {
      var x :| x in Raising(db, price, who) && db.rows[x].createdAt <= db.rows[r].createdAt;
      SubsetSize(BacklogUpTo(db, who, x), BacklogUpTo(db, who, r));
      InEveryBatchIff(db, who, limit, x);
      BatchExists(db, who, limit);
      batch :| IsBatch(db, who, limit, batch);
      assert x in IdSet(batch);
    } else {
      var x :| x in Raising(db, price, who) && |StrictlyOlder(db, who, x)| < limit;
      batch := IncludingBatch(db, who, limit, x);
      assert x in IdSet(batch);
    }
  }

  lemma StillMayWait(db: Tables, db': Tables, price: Pricing, who: Option<UserId>, limit: nat, taken: set<ExpenseId>,
                     r: ExpenseId)
    requires Compare(db, db', price, who, taken) && r in db.rows && MayWait(db, price, who, limit, r)
    ensures MayWait(db', price, who, limit, r)
  {
    ComparedUpTo(db, db', price, who, taken, r);
    if RaisingNoNewer(db, price, who, r) {
      var x :| x in Raising(db, price, who) && db.rows[x].createdAt <= db.rows[r].createdAt;
      assert x in Raising(db', price, who) && db'.rows[x].createdAt <= db'.rows[r].createdAt;
    }
    if RaisingInReach(db, price, who, limit) {
      var x :| x in Raising(db, price, who) && |StrictlyOlder(db, who, x)| < limit;
      BacklogShrinks(db, db', price, who, taken);
      SubsetSize(StrictlyOlder(db', who, x), StrictlyOlder(db, who, x));
      assert x in Raising(db', price, who) && |StrictlyOlder(db', who, x)| < limit;
    }
  }

  lemma BacklogShrinks(db: Tables, db': Tables, price: Pricing, who: Option<UserId>, taken: set<ExpenseId>)
    requires Compare(db, db', price, who, taken)
    ensures Backlog(db', who) <= Backlog(db, who)
  {
    BacklogSplits(db, price, who);
    BacklogSplits(db', price, who);
  }

  lemma ExtendSteps(run: seq<Tables>, price: Pricing, who: Option<UserId>, limit: nat, batch: seq<ExpenseId>)
    requires SweepSteps(run, price, who, limit) && IsBatch(run[|run| - 1], who, limit, batch)
    ensures SweepSteps(run + [Swept(run[|run| - 1], price, batch)], price, who, limit)
  {
    var longer := run + [Swept(run[|run| - 1], price, batch)];
    forall i | 0 < i < |longer|
      ensures SweepStep(longer[i - 1], longer[i], price, who, limit)
    {
      if i < |run| { assert SweepStep(run[i - 1], run[i], price, who, limit); }
    }
  }

  /**
   * A convertible row can wait through any number of sweeps when at least `limit` stuck rows, or any
   * raising row, are no newer than it, or when some raising row has fewer than `limit` strictly older.
   */
  lemma {:induction false} RowMayWait(db: Tables, price: Pricing, who: Option<UserId>, limit: nat, r: ExpenseId, k: nat)
    returns (run: seq<Tables>)
    requires Stamped(db) && r in Ready(db, price, who) && MayWait(db, price, who, limit, r)
    ensures SweepSteps(run, price, who, limit) && |run| == k + 1 && run[0] == db
    ensures Stamped(run[k]) && r in Ready(run[k], price, who) && MayWait(run[k], price, who, limit, r)
  {
    if k == 0 {
      run := [db];
    } else {
      var before := RowMayWait(db, price, who, limit, r, k - 1);
      var last := before[k - 1];
      var batch := KeepingBatch(last, price, who, limit, r);
      BatchIsFromBacklog(last, who, limit, batch);
      SweepCompares(last, price, who, batch);
      StillMayWait(last, Swept(last, price, batch), price, who, limit, Taken(last, price, who, batch), r);
      run := before + [Swept(last, price, batch)];
      ExtendSteps(before, price, who, limit, batch);
    }
  }

  /** Whatever batches the query returns, k sweeps fill this row. */
  ghost predicate AlwaysFilledBy(db: Tables, price: Pricing, who: Option<UserId>, limit: nat, r: ExpenseId, k: nat) {
    forall run | SweepSteps(run, price, who, limit) && run[0] == db && |run| == k + 1 :: r !in Ready(run[k], price, who)
  }

  ghost predicate SureToBeFilled(db: Tables, price: Pricing, who: Option<UserId>, limit: nat, r: ExpenseId) {
    exists k: nat :: AlwaysFilledBy(db, price, who, limit, r, k)
  }

  /**
   * For a row to be sure to be filled, fewer than `limit` stuck rows and no raising row may be no
   * newer than it, and every raising row needs `limit` strictly older ones.
   */
  lemma SureImplies(db: Tables, price: Pricing, who: Option<UserId>, limit: nat, r: ExpenseId)
    requires Stamped(db) && r in Ready(db, price, who) && SureToBeFilled(db, price, who, limit, r)
    ensures !MayWait(db, price, who, limit, r)
  {
    var k: nat :| AlwaysFilledBy(db, price, who, limit, r, k);
    if MayWait(db, price, who, limit, r) {
      var run := RowMayWait(db, price, who, limit, r, k);
    }
  }

  // ----- what is enough ------------------------------------------------------------------------------

  /** The row is strictly older than every raising one. */
  ghost predicate BeforeRaising(db: Tables, price: Pricing, who: Option<UserId>, id: ExpenseId)
    requires id in db.rows
  {
    forall x | x in Raising(db, price, who) :: db.rows[id].createdAt < db.rows[x].createdAt
  }

  /**
   * The backlog rows older than every raising one that no sweep fills while r waits: the stuck ones,
   * the convertible ones newer than r, and r.
   */
  ghost function Shield(db: Tables, price: Pricing, who: Option<UserId>, r: ExpenseId): set<ExpenseId>
    requires r in db.rows
  {
    set id | id in Backlog(db, who) && BeforeRaising(db, price, who, id)
        && (id == r || id !in ReadyUpTo(db, price, who, r))
  }

  /** No sweep can reach a raising row while r waits: there is none, or a whole batch stands before it. */
  ghost predicate Shielded(db: Tables, price: Pricing, who: Option<UserId>, limit: nat, r: ExpenseId)
    requires r in db.rows
  {
    Raising(db, price, who) == {} || |Shield(db, price, who, r)| >= limit
  }

  lemma ShieldHolds(db: Tables, price: Pricing, who: Option<UserId>, limit: nat, r: ExpenseId, batch: seq<ExpenseId>)
    requires r in db.rows && Shielded(db, price, who, limit, r) && IsBatch(db, who, limit, batch)
    ensures IdSet(batch) !! Raising(db, price, who)
  {
    forall x | x in Raising(db, price, who)
      ensures x !in batch
    {
      SubsetSize(Shield(db, price, who, r), StrictlyOlder(db, who, x));
      TooManyOlder(db, who, limit, batch, x);
    }
  }

  /** A sweep that leaves a convertible row out fills limit - u of those no newer, u being the stuck ones among them. */
  lemma LeftOutProgress(db: Tables, price: Pricing, who: Option<UserId>, limit: nat, batch: seq<ExpenseId>,
                        r: ExpenseId)
    requires IsBatch(db, who, limit, batch) && r in Ready(db, price, who) && r !in batch
    requires |StuckUpTo(db, price, who, r)| < limit && BeforeRaising(db, price, who, r)
    ensures |ReadyUpTo(db, price, who, r) - IdSet(batch)|
            <= |ReadyUpTo(db, price, who, r)| - (limit - |StuckUpTo(db, price, who, r)|)
  {
    var ready, stuck, taken := ReadyUpTo(db, price, who, r), StuckUpTo(db, price, who, r), IdSet(batch);
    LeftOut(db, who, limit, batch, r);
    UpToSplits(db, price, who, r);
    SubsetSize(taken, ready + stuck);
    CountTaken(ready, stuck, taken, limit);
    assert r in ready - taken;
    SubsetSize({r}, ready - taken);
  }

  lemma UpToSplits(db: Tables, price: Pricing, who: Option<UserId>, r: ExpenseId)
    requires r in db.rows && BeforeRaising(db, price, who, r)
    ensures BacklogUpTo(db, who, r) == ReadyUpTo(db, price, who, r) + StuckUpTo(db, price, who, r)
    ensures ReadyUpTo(db, price, who, r) !! StuckUpTo(db, price, who, r)
  {
    BacklogSplits(db, price, who);
  }

  lemma RaisingStays(db: Tables, db': Tables, price: Pricing, who: Option<UserId>, taken: set<ExpenseId>, id: ExpenseId)
    requires Compare(db, db', price, who, taken) && id in db.rows
    ensures BeforeRaising(db', price, who, id) <==> BeforeRaising(db, price, who, id)
  {
  }

  lemma ShieldMemberStays(db: Tables, db': Tables, price: Pricing, who: Option<UserId>, taken: set<ExpenseId>,
                          r: ExpenseId, id: ExpenseId)
    requires Compare(db, db', price, who, taken) && r in db.rows && taken <= BacklogUpTo(db, who, r) - {r}
    requires id in Shield(db, price, who, r)
    ensures id in Shield(db', price, who, r)
  {
    RaisingStays(db, db', price, who, taken, id);
    ComparedUpTo(db, db', price, who, taken, r);
    BacklogSplits(db, price, who);
    assert id !in Raising(db, price, who);
    assert id in Ready(db', price, who) || id in Stuck(db', price, who);
  }

  /** Leaving r out takes nothing of its shield. */
  lemma ShieldStays(db: Tables, db': Tables, price: Pricing, who: Option<UserId>, limit: nat, batch: seq<ExpenseId>,
                    r: ExpenseId)
    requires IsBatch(db, who, limit, batch) && r in Ready(db, price, who) && r !in batch
    requires Compare(db, db', price, who, IdSet(batch))
    ensures BeforeRaising(db, price, who, r) ==> BeforeRaising(db', price, who, r)
    ensures Shield(db, price, who, r) <= Shield(db', price, who, r)
  {
    LeftOut(db, who, limit, batch, r);
    RaisingStays(db, db', price, who, IdSet(batch), r);
    forall id | id in Shield(db, price, who, r)
      ensures id in Shield(db', price, who, r)
    {
      ShieldMemberStays(db, db', price, who, IdSet(batch), r, id);
    }
  }

  // ----- runs of sweeps -----------------------------------------------------------------------------

  /** The row holds the amount it converts to at the start of the run. */
  ghost predicate IsFilled(first: Tables, db: Tables, price: Pricing, r: ExpenseId)
    requires r in first.rows && first.rows[r].user in first.base
  {
    && r in db.rows && ConversionOf(first, price, r).Value?
    && db.rows[r].amountBase == Some(ConversionOf(first, price, r).amount)
  }

  /**
   * The row still waits behind its shield, with at most n convertible rows no newer and the stuck
   * ones as they were; or it is filled.
   */
  ghost predicate Progress(first: Tables, db: Tables, price: Pricing, who: Option<UserId>, limit: nat, r: ExpenseId,
                           n: int)
    requires r in first.rows && first.rows[r].user in first.base
  {
    && Stamped(db) && r in db.rows
    && if r in Ready(db, price, who) then
         && ConversionOf(db, price, r) == ConversionOf(first, price, r)
         && BeforeRaising(db, price, who, r) && Shielded(db, price, who, limit, r)
         && StuckUpTo(db, price, who, r) == StuckUpTo(first, price, who, r)
         && |ReadyUpTo(db, price, who, r)| <= n
       else IsFilled(first, db, price, r)
  }

  lemma WaitingRowProgress(first: Tables, db: Tables, price: Pricing, who: Option<UserId>, limit: nat, r: ExpenseId,
                           n: int, batch: seq<ExpenseId>)
    requires r in first.rows && first.rows[r].user in first.base
    requires Progress(first, db, price, who, limit, r, n) && r in Ready(db, price, who)
    requires |StuckUpTo(first, price, who, r)| < limit && IsBatch(db, who, limit, batch)
    ensures Progress(first, Swept(db, price, batch), price, who, limit, r,
                     n - (limit - |StuckUpTo(first, price, who, r)|))
  {
    var db' := Swept(db, price, batch);
    BatchIsFromBacklog(db, who, limit, batch);
    ShieldHolds(db, price, who, limit, r, batch);
    SweepCompares(db, price, who, batch);
    if r in batch {
      TakenRow(db, price, who, batch, r);
    } else {
      UntakenRow(db, price, who, batch, r);
      ComparedUpTo(db, db', price, who, IdSet(batch), r);
      LeftOutProgress(db, price, who, limit, batch, r);
      ShieldStays(db, db', price, who, limit, batch, r);
      SubsetSize(Shield(db, price, who, r), Shield(db', price, who, r));
    }
  }

  lemma FilledRowProgress(first: Tables, db: Tables, price: Pricing, who: Option<UserId>, limit: nat, r: ExpenseId,
                          batch: seq<ExpenseId>, m: int)
    requires r in first.rows && first.rows[r].user in first.base
    requires Stamped(db) && IsFilled(first, db, price, r) && IsBatch(db, who, limit, batch)
    ensures Progress(first, Swept(db, price, batch), price, who, limit, r, m)
  {
    BatchIsFromBacklog(db, who, limit, batch);
    SweepCompares(db, price, who, batch);
    UntakenRow(db, price, who, batch, r);
  }

  lemma StepProgress(first: Tables, db: Tables, db': Tables, price: Pricing, who: Option<UserId>, limit: nat,
                     r: ExpenseId, n: int)
    requires r in first.rows && first.rows[r].user in first.base
    requires Progress(first, db, price, who, limit, r, n) && SweepStep(db, db', price, who, limit)
    requires |StuckUpTo(first, price, who, r)| < limit
    ensures Progress(first, db', price, who, limit, r, n - (limit - |StuckUpTo(first, price, who, r)|))
  {
    var m := n - (limit - |StuckUpTo(first, price, who, r)|);
    var batch :| IsBatch(db, who, limit, batch) && db' == Swept(db, price, batch);
    if r in Ready(db, price, who) {
      WaitingRowProgress(first, db, price, who, limit, r, n, batch);
    } else {
      FilledRowProgress(first, db, price, who, limit, r, batch, m);
    }
  }

  lemma {:induction false} RunProgress(run: seq<Tables>, price: Pricing, who: Option<UserId>, limit: nat, r: ExpenseId,
                                       c: nat, u: nat, k: nat)
    requires SweepSteps(run, price, who, limit) && k < |run| && r in Ready(run[0], price, who)
    requires c == |ReadyUpTo(run[0], price, who, r)| && u == |StuckUpTo(run[0], price, who, r)| && u < limit
    requires BeforeRaising(run[0], price, who, r) && Shielded(run[0], price, who, limit, r)
    ensures Progress(run[0], run[k], price, who, limit, r, Left(c, k, limit - u))
  {
    if k > 0 {
      RunProgress(run, price, who, limit, r, c, u, k - 1);
      assert SweepStep(run[k - 1], run[k], price, who, limit);
      StepProgress(run[0], run[k - 1], run[k], price, who, limit, r, Left(c, k - 1, limit - u));
    }
  }

  /**
   * With rows and rates fixed: a convertible row older than every raising one and shielded from
   * them, with u < limit stuck rows no newer than it and c convertible ones, itself among them, is
   * filled by any k sweeps with k * (limit - u) >= c, however ties of created_at fall.
   */
  lemma RowFilledWithin(run: seq<Tables>, price: Pricing, who: Option<UserId>, limit: nat, r: ExpenseId)
    requires SweepSteps(run, price, who, limit) && r in Ready(run[0], price, who)
    requires |StuckUpTo(run[0], price, who, r)| < limit
    requires BeforeRaising(run[0], price, who, r) && Shielded(run[0], price, who, limit, r)
    requires (|run| - 1) * (limit - |StuckUpTo(run[0], price, who, r)|) >= |ReadyUpTo(run[0], price, who, r)|
    ensures r !in Ready(run[|run| - 1], price, who) && IsFilled(run[0], run[|run| - 1], price, r)
  {
    var last, k := run[|run| - 1], |run| - 1;
    var c, u := |ReadyUpTo(run[0], price, who, r)|, |StuckUpTo(run[0], price, who, r)|;
    RunProgress(run, price, who, limit, r, c, u, k);
    LeftIsDifference(c, k, limit - u);
    MembersCount(ReadyUpTo(last, price, who, r), r);
  }

  lemma MembersCount(ids: set<ExpenseId>, r: ExpenseId)
    ensures r in ids ==> |ids| > 0
  {
  }

  lemma FilledByAll(db: Tables, price: Pricing, who: Option<UserId>, limit: nat, r: ExpenseId, k: nat)
    requires r in Ready(db, price, who) && k >= |ReadyUpTo(db, price, who, r)|
    requires |StuckUpTo(db, price, who, r)| < limit
    requires BeforeRaising(db, price, who, r) && Shielded(db, price, who, limit, r)
    ensures AlwaysFilledBy(db, price, who, limit, r, k)
  {
    forall run | SweepSteps(run, price, who, limit) && run[0] == db && |run| == k + 1
      ensures r !in Ready(run[k], price, who)
    {
      AtLeast(k, limit - |StuckUpTo(db, price, who, r)|);
      RowFilledWithin(run, price, who, limit, r);
    }
  }

  lemma AtLeast(k: nat, gain: nat)
    requires gain >= 1
    ensures k * gain >= k
  {
  }

  /**
   * A shielded row, and so any row when nothing raises, is sure to be filled if and only if fewer
   * than `limit` stuck rows and no raising row are no newer than it.
   */
  lemma FilledEventuallyIff(db: Tables, price: Pricing, who: Option<UserId>, limit: nat, r: ExpenseId)
    requires Stamped(db) && r in Ready(db, price, who) && Shielded(db, price, who, limit, r)
    ensures SureToBeFilled(db, price, who, limit, r) <==>
            |StuckUpTo(db, price, who, r)| < limit && !RaisingNoNewer(db, price, who, r)
  {
    if |StuckUpTo(db, price, who, r)| < limit && !RaisingNoNewer(db, price, who, r) {
      FilledByAll(db, price, who, limit, r, |ReadyUpTo(db, price, who, r)|);
    }
    if SureToBeFilled(db, price, who, limit, r) { SureImplies(db, price, who, limit, r); }
  }

  /** Whatever batches the query returns, k sweeps fill every convertible row. */
  ghost predicate AlwaysDrainedBy(db: Tables, price: Pricing, who: Option<UserId>, limit: nat, k: nat) {
    forall run | SweepSteps(run, price, who, limit) && run[0] == db && |run| == k + 1 :: Ready(run[k], price, who) == {}
  }

  ghost predicate SureToDrain(db: Tables, price: Pricing, who: Option<UserId>, limit: nat) {
    exists k: nat :: AlwaysDrainedBy(db, price, who, limit, k)
  }

  /** Nothing is ever sure to drain that holds a row that may wait. */
  lemma DrainImplies(db: Tables, price: Pricing, who: Option<UserId>, limit: nat, r: ExpenseId)
    requires Stamped(db) && SureToDrain(db, price, who, limit) && r in Ready(db, price, who)
    ensures !MayWait(db, price, who, limit, r)
  {
    var k: nat :| AlwaysDrainedBy(db, price, who, limit, k);
    assert AlwaysFilledBy(db, price, who, limit, r, k);
    SureImplies(db, price, who, limit, r);
  }

  lemma {:induction false} ReadyShrinks(run: seq<Tables>, price: Pricing, who: Option<UserId>, limit: nat, k: nat)
    requires SweepSteps(run, price, who, limit) && k < |run|
    ensures Stamped(run[k]) && Ready(run[k], price, who) <= Ready(run[0], price, who)
  {
    if k > 0 {
      ReadyShrinks(run, price, who, limit, k - 1);
      assert SweepStep(run[k - 1], run[k], price, who, limit);
      var batch :| IsBatch(run[k - 1], who, limit, batch) && run[k] == Swept(run[k - 1], price, batch);
      BatchIsFromBacklog(run[k - 1], who, limit, batch);
      SweepCompares(run[k - 1], price, who, batch);
    }
  }

  /**
   * When every convertible row is shielded, and so when nothing raises, repeated sweeps are sure to
   * fill all of them if and only if fewer than `limit` stuck rows and no raising row are no newer
   * than any of them.
   */
  lemma DrainsEventuallyIff(db: Tables, price: Pricing, who: Option<UserId>, limit: nat)
    requires Stamped(db) && forall r | r in Ready(db, price, who) :: Shielded(db, price, who, limit, r)
    ensures SureToDrain(db, price, who, limit) <==>
            forall r | r in Ready(db, price, who) ::
              |StuckUpTo(db, price, who, r)| < limit && !RaisingNoNewer(db, price, who, r)
  {
    if SureToDrain(db, price, who, limit) {
      forall r | r in Ready(db, price, who)
        ensures |StuckUpTo(db, price, who, r)| < limit && !RaisingNoNewer(db, price, who, r)
      {
        DrainImplies(db, price, who, limit, r);
      }
    }
    if forall r | r in Ready(db, price, who) ::
         |StuckUpTo(db, price, who, r)| < limit && !RaisingNoNewer(db, price, who, r)
    {
      DrainedByAll(db, price, who, limit, |Ready(db, price, who)|);
    }
  }

  lemma DrainedByAll(db: Tables, price: Pricing, who: Option<UserId>, limit: nat, k: nat)
    requires k >= |Ready(db, price, who)|
    requires forall r | r in Ready(db, price, who) ::
               && |StuckUpTo(db, price, who, r)| < limit && !RaisingNoNewer(db, price, who, r)
               && Shielded(db, price, who, limit, r)
    ensures AlwaysDrainedBy(db, price, who, limit, k)
  {
    forall run | SweepSteps(run, price, who, limit) && run[0] == db && |run| == k + 1
      ensures Ready(run[k], price, who) == {}
    {
      ReadyShrinks(run, price, who, limit, k);
      forall r | r in Ready(db, price, who)
        ensures r !in Ready(run[k], price, who)
      {
        SubsetSize(ReadyUpTo(db, price, who, r), Ready(db, price, who));
        FilledByAll(db, price, who, limit, r, k);
      }
    }
  }

  // ----- a conversion that raises ---------------------------------------------------------------------

  lemma OlderRaisingStep(db: Tables, db': Tables, price: Pricing, who: Option<UserId>, limit: nat, x: ExpenseId,
                         r: ExpenseId)
    requires Stamped(db) && SweepStep(db, db', price, who, limit)
    requires x in Raising(db, price, who) && r in db.rows && db.rows[x].createdAt < db.rows[r].createdAt
    ensures Stamped(db') && x in Raising(db', price, who) && x in db'.rows && r in db'.rows
    ensures db'.rows[r] == db.rows[r] && db'.rows[x].createdAt == db.rows[x].createdAt
  {
    var batch :| IsBatch(db, who, limit, batch) && db' == Swept(db, price, batch);
    BatchIsFromBacklog(db, who, limit, batch);
    SweepCompares(db, price, who, batch);
    assert r in batch ==> x in IdSet(batch);
    UntakenRow(db, price, who, batch, r);
  }

  /**
   * While a row whose conversion raises is strictly older than another, no sweeps of any number or
   * limit ever change that other row: a batch that holds it holds the raising one too.
   */
  lemma {:induction false} OlderRaisingBlocks(run: seq<Tables>, price: Pricing, who: Option<UserId>, limit: nat,
                                              x: ExpenseId, r: ExpenseId, k: nat)
    requires SweepSteps(run, price, who, limit) && k < |run|
    requires x in Raising(run[0], price, who) && r in run[0].rows
    requires run[0].rows[x].createdAt < run[0].rows[r].createdAt
    ensures Stamped(run[k]) && x in Raising(run[k], price, who) && x in run[k].rows && r in run[k].rows
    ensures run[k].rows[r] == run[0].rows[r] && run[k].rows[x].createdAt == run[0].rows[x].createdAt
  {
    if k > 0 {
      OlderRaisingBlocks(run, price, who, limit, x, r, k - 1);
      assert SweepStep(run[k - 1], run[k], price, who, limit);
      OlderRaisingStep(run[k - 1], run[k], price, who, limit, x, r);
    }
  }

  lemma RaisingSweep(db: Tables, db': Tables, price: Pricing, who: Option<UserId>, limit: nat, x: ExpenseId)
    requires Stamped(db) && SweepStep(db, db', price, who, limit)
    requires x in Raising(db, price, who) && |BacklogUpTo(db, who, x)| <= limit
    ensures OnlyDraws(db, db')
  {
    var batch :| IsBatch(db, who, limit, batch) && db' == Swept(db, price, batch);
    InEveryBatchIff(db, who, limit, x);
    BatchIsFromBacklog(db, who, limit, batch);
    assert x in IdSet(batch);
    SweepSets(db, price, who, batch);
  }

  /** Neither the query nor the conversions read the sequence. */
  lemma SequenceIsUnread(db: Tables, db': Tables, price: Pricing, who: Option<UserId>, x: ExpenseId)
    requires x in Raising(db, price, who) && OnlyDraws(db, db')
    ensures x in Raising(db', price, who) && BacklogUpTo(db', who, x) == BacklogUpTo(db, who, x)
  {
  }

  /**
   * While a row whose conversion raises is among the `limit` oldest under every tie-breaking, sweeps
   * change nothing but the sequence, however many there are.
   */
  lemma {:induction false} RaisingRowBlocks(run: seq<Tables>, price: Pricing, who: Option<UserId>, limit: nat,
                                            x: ExpenseId, k: nat)
    requires SweepSteps(run, price, who, limit) && k < |run|
    requires x in Raising(run[0], price, who) && |BacklogUpTo(run[0], who, x)| <= limit
    ensures OnlyDraws(run[0], run[k]) && Stamped(run[k])
  {
    if k > 0 {
      RaisingRowBlocks(run, price, who, limit, x, k - 1);
      assert SweepStep(run[k - 1], run[k], price, who, limit);
      SequenceIsUnread(run[0], run[k - 1], price, who, x);
      RaisingSweep(run[k - 1], run[k], price, who, limit, x);
    }
  }

  // ----- examples --------------------------------------------------------------------------------------

  /** An expense in XXX, and a later one in dollars, of a user whose base currency is the dollar. */
  function TwoExpenses(cols: Columns): Tables {
    var older := Row(0, 0, cols.(currencyOriginal := "XXX", deletedAt := None), None, None, 0, 1);
    var newer := Row(0, 0, cols.(currencyOriginal := USD, deletedAt := None), None, None, 1, 2);
    Tables(map[0 := older, 1 := newer], 2, map[], map[0 := USD])
  }

  /** The rates after a payload that quotes XXX at 4e-9, which is stored as zero. */
  function ZeroRate(): FxTable {
    match Normalize(USD, map["XXX" := Finite(0.000000004)])
    case Table(rates) => Upserted(map[], rates, 0, "")
    case Invalid => map[]
  }

  /**
   * From then on the dollar expense, which converts to itself, is never filled, by any number of
   * sweeps with any limit.
   */
  lemma ZeroRateBlocks(cols: Columns, run: seq<Tables>, limit: nat, k: nat)
    requires cols.spentAt >= 0
    requires SweepSteps(run, PricedBy(ZeroRate()), None, limit) && k < |run| && run[0] == TwoExpenses(cols)
    ensures 1 in Ready(run[0], PricedBy(ZeroRate()), None)
    ensures 1 in run[k].rows && run[k].rows[1].amountBase == None
  {
    ZeroRateRaises(cols);
    OlderRaisingBlocks(run, PricedBy(ZeroRate()), None, limit, 0, 1, k);
  }

  lemma ZeroRateRaises(cols: Columns)
    requires cols.spentAt >= 0
    ensures var db, price := TwoExpenses(cols), PricedBy(ZeroRate());
            0 in Raising(db, price, None) && 1 in Ready(db, price, None)
  {
    var db, price := TwoExpenses(cols), PricedBy(ZeroRate());
    TinyRateExample(cols.amountOriginal, DateOf(cols.spentAt));
    assert price(SnapshotOf(db, 0)).Raises?;
  }

  /** Three convertible rows and then one that raises, all created at different times. */
  ghost predicate ThreeThenRaising(db: Tables, price: Pricing, a: ExpenseId, b: ExpenseId, r: ExpenseId, x: ExpenseId) {
    && Backlog(db, None) == {a, b, r, x} && Ready(db, price, None) == {a, b, r} && Raising(db, price, None) == {x}
    && db.rows[a].createdAt < db.rows[b].createdAt < db.rows[r].createdAt < db.rows[x].createdAt
  }

  lemma TwoOldest(db: Tables, price: Pricing, a: ExpenseId, b: ExpenseId, r: ExpenseId, x: ExpenseId)
    requires ThreeThenRaising(db, price, a, b, r, x)
    ensures |BacklogUpTo(db, None, a)| <= 2 && |BacklogUpTo(db, None, b)| <= 2
  {
    SubsetSize(BacklogUpTo(db, None, a), {a, b});
    SubsetSize(BacklogUpTo(db, None, b), {a, b});
  }

  lemma PairIsAll(ids: set<ExpenseId>, a: ExpenseId, b: ExpenseId)
    requires a in ids && b in ids && a != b && |ids| <= 2
    ensures ids == {a, b}
  {
    SubsetSize({a, b}, ids);
    assert ids == {a, b} + (ids - {a, b});
  }

  lemma FirstBatch(db: Tables, price: Pricing, a: ExpenseId, b: ExpenseId, r: ExpenseId, x: ExpenseId,
                   batch: seq<ExpenseId>)
    requires ThreeThenRaising(db, price, a, b, r, x) && IsBatch(db, None, 2, batch)
    ensures IdSet(batch) == {a, b}
  {
    NoRepeatsSize(batch);
    TwoOldest(db, price, a, b, r, x);
    InEveryBatchIff(db, None, 2, a);
    InEveryBatchIff(db, None, 2, b);
    PairIsAll(IdSet(batch), a, b);
  }

  lemma FirstSweep(db: Tables, db': Tables, price: Pricing, a: ExpenseId, b: ExpenseId, r: ExpenseId, x: ExpenseId)
    requires Stamped(db) && ThreeThenRaising(db, price, a, b, r, x) && SweepStep(db, db', price, None, 2)
    ensures Compare(db, db', price, None, {a, b})
  {
    var batch :| IsBatch(db, None, 2, batch) && db' == Swept(db, price, batch);
    BatchIsFromBacklog(db, None, 2, batch);
    FirstBatch(db, price, a, b, r, x, batch);
    SweepCompares(db, price, None, batch);
  }

  lemma NoneStuck(db: Tables, price: Pricing, a: ExpenseId, b: ExpenseId, r: ExpenseId, x: ExpenseId)
    requires ThreeThenRaising(db, price, a, b, r, x)
    ensures Stuck(db, price, None) == {}
  {
    BacklogSplits(db, price, None);
  }

  lemma AfterFirstSweep(db: Tables, db': Tables, price: Pricing, a: ExpenseId, b: ExpenseId, r: ExpenseId, x: ExpenseId)
    requires ThreeThenRaising(db, price, a, b, r, x) && Compare(db, db', price, None, {a, b})
    ensures Ready(db', price, None) == {r} && x in Raising(db', price, None) && x in db'.rows
    ensures |BacklogUpTo(db', None, x)| <= 2
  {
    NoneStuck(db, price, a, b, r, x);
    BacklogSplits(db', price, None);
    assert Ready(db', price, None) == {r};
    SubsetSize(BacklogUpTo(db', None, x), {r, x});
  }

  lemma RemainderIsNotExcluded(db: Tables, price: Pricing, a: ExpenseId, b: ExpenseId, r: ExpenseId, x: ExpenseId)
    requires ThreeThenRaising(db, price, a, b, r, x)
    ensures r in db.rows && !MayWait(db, price, None, 2, r)
  {
    NoneStuck(db, price, a, b, r, x);
    assert StuckUpTo(db, price, None, r) == {};
    assert StrictlyOlder(db, None, x) == {a, b, r};
    assert |{a, b, r}| == 3;
  }

  /**
   * So what SureImplies asks for is not enough: with a limit of two, no stuck row, and three
   * convertible rows older than one that raises, the third is never filled.
   */
  lemma RemainderBlocks(run: seq<Tables>, price: Pricing, a: ExpenseId, b: ExpenseId, r: ExpenseId, x: ExpenseId,
                        k: nat)
    requires SweepSteps(run, price, None, 2) && k < |run| && ThreeThenRaising(run[0], price, a, b, r, x)
    ensures r in run[0].rows && !MayWait(run[0], price, None, 2, r) && r in Ready(run[k], price, None)
  {
    RemainderIsNotExcluded(run[0], price, a, b, r, x);
    if k > 0 {
      assert SweepStep(run[0], run[1], price, None, 2);
      FirstSweep(run[0], run[1], price, a, b, r, x);
      AfterFirstSweep(run[0], run[1], price, a, b, r, x);
      LaterSteps(run, price, None, 2);
      RaisingRowBlocks(run[1..], price, None, 2, x, k - 1);
      DrawsCompare(run[1], run[1..][k - 1], price, None);
    }
  }

  lemma LaterSteps(run: seq<Tables>, price: Pricing, who: Option<UserId>, limit: nat)
    requires SweepSteps(run, price, who, limit) && |run| > 1 && Stamped(run[1])
    ensures SweepSteps(run[1..], price, who, limit)
  {
    forall i | 0 < i < |run[1..]|
      ensures SweepStep(run[1..][i - 1], run[1..][i], price, who, limit)
    {
      assert SweepStep(run[i], run[i + 1], price, who, limit);
    }
  }
}
