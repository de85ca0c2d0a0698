/**
 * app/api/v1/sync.py, pull_sync and _high_water: one user's rows past a cursor, ascending by
 * server_seq, one page at a time.
 */
module PullPages {
  import opened Prelude
  import opened Expenses

  /** One record of a page. */
  datatype Out = Out(id: ExpenseId, row: Row)

  datatype PullPage = PullPage(records: seq<Out>, nextCursor: nat, hasMore: bool)

  ghost predicate DistinctStamps(rows: Rows) {
    forall a, b | a in rows && b in rows && a != b :: rows[a].serverSeq != rows[b].serverSeq
  }

  /** The user's rows with server_seq > since. */
  function After(rows: Rows, user: UserId, since: nat): set<ExpenseId> {
    set id | id in rows && rows[id].user == user && since < rows[id].serverSeq
  }

  predicate IsNext(rows: Rows, user: UserId, since: nat, id: ExpenseId) {
    var ids := After(rows, user, since);
    id in ids && forall other | other in ids :: rows[id].serverSeq <= rows[other].serverSeq
  }

  lemma {:induction false} NextExists(rows: Rows, ids: set<ExpenseId>)
    requires ids != {} && ids <= rows.Keys
    ensures exists id :: id in ids && forall other | other in ids :: rows[id].serverSeq <= rows[other].serverSeq
  {
    var x := Pick(ids);
    if ids != {x} {
      NextExists(rows, ids - {x});
      var y :| y in ids - {x} && forall other | other in ids - {x} :: rows[y].serverSeq <= rows[other].serverSeq;
      var least := if rows[x].serverSeq <= rows[y].serverSeq then x else y;
      forall other | other in ids
        ensures rows[least].serverSeq <= rows[other].serverSeq
      {
        assert other == x || other in ids - {x};
      }
    } else {
      assert x in ids && forall other | other in ids :: rows[x].serverSeq <= rows[other].serverSeq;
    }
  }

  function NextAfter(rows: Rows, user: UserId, since: nat): (id: ExpenseId)
    requires DistinctStamps(rows) && After(rows, user, since) != {}
    ensures IsNext(rows, user, since, id)
  {
    NextExists(rows, After(rows, user, since));
    var id :| id in After(rows, user, since) && IsNext(rows, user, since, id);
    id
  }

  /** SELECT ... WHERE user_id = :user AND server_seq > :since ORDER BY server_seq LIMIT :limit. */
  function Selected(rows: Rows, user: UserId, since: nat, limit: nat): seq<Out>
    requires DistinctStamps(rows)
    decreases limit
  {
    if limit == 0 || After(rows, user, since) == {} then []
    else
      var id := NextAfter(rows, user, since);
      [Out(id, rows[id])] + Selected(rows, user, rows[id].serverSeq, limit - 1)
  }

  function LastSeq(records: seq<Out>, since: nat): nat {
    if records == [] then since else records[|records| - 1].row.serverSeq
  }

  function Pulled(rows: Rows, user: UserId, since: nat, limit: nat): PullPage
    requires DistinctStamps(rows)
  {
    var records := Selected(rows, user, since, limit);
    PullPage(records, LastSeq(records, since), |records| == limit)
  }

  /** max(server_seq) of the user's rows, or 0. */
  function HighWater(rows: Rows, user: UserId): nat {
    var stamps := set id | id in rows && rows[id].user == user :: rows[id].serverSeq as int;
    if stamps == {} then 0 else MaxOf(stamps)
  }

  /** The greatest stamp of the user's rows, or 0 when there are none. */
  ghost predicate IsGreatestStamp(rows: Rows, user: UserId, mark: nat) {
    && (forall id | id in rows && rows[id].user == user :: rows[id].serverSeq <= mark)
    && (mark == 0 || exists top :: top in rows && rows[top].user == user && rows[top].serverSeq == mark)
  }

  lemma HighWaterIsGreatest(rows: Rows, user: UserId)
    ensures IsGreatestStamp(rows, user, HighWater(rows, user))
  {
    var stamps := set id | id in rows && rows[id].user == user :: rows[id].serverSeq as int;
    forall id | id in rows && rows[id].user == user
      ensures rows[id].serverSeq as int in stamps
    {
    }
  }

  // ----- one page ---------------------------------------------------------------------------------

  /** The records are exactly the user's rows stamped in (since, until], in ascending order. */
  ghost predicate Listing(rows: Rows, user: UserId, since: nat, until: nat, records: seq<Out>) {
    && (forall k | 0 <= k < |records| ::
          && records[k].id in After(rows, user, since)
          && records[k].row == rows[records[k].id]
          && records[k].row.serverSeq <= until)
    && (forall k, l | 0 <= k < l < |records| :: records[k].row.serverSeq < records[l].row.serverSeq)
    && (forall id | id in After(rows, user, since) && rows[id].serverSeq <= until :: Out(id, rows[id]) in records)
  }

  lemma {:induction false} SelectedMember(rows: Rows, user: UserId, since: nat, limit: nat, k: nat)
    requires DistinctStamps(rows) && k < |Selected(rows, user, since, limit)|
    ensures var out := Selected(rows, user, since, limit)[k];
            out.id in After(rows, user, since) && out.row == rows[out.id]
    decreases limit
  {
    var id := NextAfter(rows, user, since);
    if k > 0 {
      SelectedMember(rows, user, rows[id].serverSeq, limit - 1, k - 1);
    }
  }

  lemma {:induction false} SelectedAscends(rows: Rows, user: UserId, since: nat, limit: nat, k: nat, l: nat)
    requires DistinctStamps(rows) && k < l < |Selected(rows, user, since, limit)|
    ensures Selected(rows, user, since, limit)[k].row.serverSeq < Selected(rows, user, since, limit)[l].row.serverSeq
    decreases limit
  {
    var id := NextAfter(rows, user, since);
    if k > 0 {
      SelectedAscends(rows, user, rows[id].serverSeq, limit - 1, k - 1, l - 1);
    } else {
      SelectedMember(rows, user, rows[id].serverSeq, limit - 1, l - 1);
    }
  }

  lemma {:induction false} SelectedComplete(rows: Rows, user: UserId, since: nat, limit: nat, id: ExpenseId)
    requires DistinctStamps(rows) && id in After(rows, user, since)
    ensures var records := Selected(rows, user, since, limit);
            || Out(id, rows[id]) in records
            || (|records| == limit && LastSeq(records, since) < rows[id].serverSeq)
    decreases limit
  {
    if limit > 0 {
      var next := NextAfter(rows, user, since);
      var stamp := rows[next].serverSeq;
      var rest := Selected(rows, user, stamp, limit - 1);
      assert LastSeq(Selected(rows, user, since, limit), since) == LastSeq(rest, stamp);
      if id != next {
        assert stamp <= rows[id].serverSeq;
        SelectedComplete(rows, user, stamp, limit - 1, id);
      }
    }
  }

  /** Each record is one of the user's rows past `since`, and they ascend. */
  lemma SelectedOrdered(rows: Rows, user: UserId, since: nat, limit: nat)
    requires DistinctStamps(rows)
    ensures var records := Selected(rows, user, since, limit);
            && (forall k | 0 <= k < |records| ::
                  records[k].id in After(rows, user, since) && records[k].row == rows[records[k].id])
            && (forall k, l | 0 <= k < l < |records| :: records[k].row.serverSeq < records[l].row.serverSeq)
  {
    var records := Selected(rows, user, since, limit);
    forall k | 0 <= k < |records|
      ensures records[k].id in After(rows, user, since) && records[k].row == rows[records[k].id]
    {
      SelectedMember(rows, user, since, limit, k);
    }
    forall k, l | 0 <= k < l < |records|
      ensures records[k].row.serverSeq < records[l].row.serverSeq
    {
      SelectedAscends(rows, user, since, limit, k, l);
    }
  }

  /** A page lists its stretch of stamps completely, and a short one reaches the end. */
  lemma SelectedLists(rows: Rows, user: UserId, since: nat, limit: nat)
    requires DistinctStamps(rows)
    ensures var records := Selected(rows, user, since, limit);
            && since <= LastSeq(records, since)
            && Listing(rows, user, since, LastSeq(records, since), records)
            && (|records| < limit ==> After(rows, user, LastSeq(records, since)) == {})
  {
    var records := Selected(rows, user, since, limit);
    var last := LastSeq(records, since);
    SelectedOrdered(rows, user, since, limit);
    forall id | id in After(rows, user, since)
      ensures Out(id, rows[id]) in records || (|records| == limit && last < rows[id].serverSeq)
    {
      SelectedComplete(rows, user, since, limit, id);
    }
  }

  lemma AfterShrinks(rows: Rows, user: UserId, since: nat)
    requires DistinctStamps(rows) && After(rows, user, since) != {}
    ensures var id := NextAfter(rows, user, since);
            After(rows, user, since) == {id} + After(rows, user, rows[id].serverSeq)
            && |After(rows, user, since)| == 1 + |After(rows, user, rows[id].serverSeq)|
  {
    var id := NextAfter(rows, user, since);
    var rest := After(rows, user, rows[id].serverSeq);
    forall other | other in After(rows, user, since)
      ensures other == id || other in rest
    {
      assert rows[id].serverSeq <= rows[other].serverSeq;
    }
    assert After(rows, user, since) == {id} + rest;
    assert id !in rest;
  }

  // ----- following next_cursor ------------------------------------------------------------------------

  lemma {:induction false} SelectedSize(rows: Rows, user: UserId, since: nat, limit: nat)
    requires DistinctStamps(rows)
    ensures |Selected(rows, user, since, limit)| == Min(limit, |After(rows, user, since)|)
    ensures |After(rows, user, since)|
            == |Selected(rows, user, since, limit)|
               + |After(rows, user, LastSeq(Selected(rows, user, since, limit), since))|
    decreases limit
  {
    var records := Selected(rows, user, since, limit);
    if limit != 0 && After(rows, user, since) != {} {
      var stamp := rows[NextAfter(rows, user, since)].serverSeq;
      AfterShrinks(rows, user, since);
      SelectedSize(rows, user, stamp, limit - 1);
      assert LastSeq(records, since) == LastSeq(Selected(rows, user, stamp, limit - 1), stamp);
    }
  }

  /** The pages a client gets by pulling until has_more is false, with no write in between. */
  function Pages(rows: Rows, user: UserId, since: nat, limit: nat): seq<seq<Out>>
    requires DistinctStamps(rows) && limit > 0
    decreases |After(rows, user, since)|
  {
    var page := Pulled(rows, user, since, limit);
    SelectedSize(rows, user, since, limit);
    if page.hasMore then [page.records] + Pages(rows, user, page.nextCursor, limit) else [page.records]
  }

  function Flatten(pages: seq<seq<Out>>): seq<Out> {
    if pages == [] then [] else pages[0] + Flatten(pages[1..])
  }

  lemma {:induction false} SelectedSplits(rows: Rows, user: UserId, since: nat, first: nat, second: nat)
    requires DistinctStamps(rows)
    ensures var head := Selected(rows, user, since, first);
            |head| == first ==>
              Selected(rows, user, since, first + second) == head + Selected(rows, user, LastSeq(head, since), second)
    decreases first
  {
    var head := Selected(rows, user, since, first);
    if first == 0 {
      assert head + Selected(rows, user, since, second) == Selected(rows, user, since, second);
    } else if After(rows, user, since) != {} {
      var id := NextAfter(rows, user, since);
      var stamp := rows[id].serverSeq;
      var tail := Selected(rows, user, stamp, first - 1);
      SelectedSplits(rows, user, stamp, first - 1, second);
      assert LastSeq(head, since) == LastSeq(tail, stamp);
      if |head| == first {
        var rest := Selected(rows, user, LastSeq(tail, stamp), second);
        assert [Out(id, rows[id])] + (tail + rest) == head + rest;
      }
    }
  }

  lemma {:induction false} SelectedBeyond(rows: Rows, user: UserId, since: nat, limit: nat, more: nat)
    requires DistinctStamps(rows) && |After(rows, user, since)| <= limit <= more
    ensures Selected(rows, user, since, limit) == Selected(rows, user, since, more)
    decreases limit
  {
    if After(rows, user, since) != {} {
      AfterShrinks(rows, user, since);
      SelectedBeyond(rows, user, rows[NextAfter(rows, user, since)].serverSeq, limit - 1, more - 1);
    }
  }

  /** pages is floor(n / limit) + 1. */
  ghost predicate QuotientPlusOne(n: nat, limit: nat, pages: nat) {
    pages > 0 && (pages - 1) * limit <= n < pages * limit
  }

  lemma OneMorePage(n: nat, limit: nat, pages: nat)
    requires n >= limit && QuotientPlusOne(n - limit, limit, pages)
    ensures QuotientPlusOne(n, limit, pages + 1)
  {
    assert (pages - 1) * limit == pages * limit - limit;
    assert (pages + 1) * limit == pages * limit + limit;
  }

  lemma {:induction false} PagesFlatten(rows: Rows, user: UserId, since: nat, limit: nat)
    requires DistinctStamps(rows) && limit > 0
    ensures Flatten(Pages(rows, user, since, limit)) == Selected(rows, user, since, |After(rows, user, since)|)
    decreases |After(rows, user, since)|
  {
    var n := |After(rows, user, since)|;
    var page := Pulled(rows, user, since, limit);
    SelectedSize(rows, user, since, limit);
    if page.hasMore {
      PagesFlatten(rows, user, page.nextCursor, limit);
      SelectedSplits(rows, user, since, limit, n - limit);
    } else {
      SelectedBeyond(rows, user, since, n, limit);
      assert page.records + [] == page.records;
    }
  }

  lemma {:induction false} PagesCount(rows: Rows, user: UserId, since: nat, limit: nat)
    requires DistinctStamps(rows) && limit > 0
    ensures QuotientPlusOne(|After(rows, user, since)|, limit, |Pages(rows, user, since, limit)|)
    decreases |After(rows, user, since)|
  {
    var n := |After(rows, user, since)|;
    var page := Pulled(rows, user, since, limit);
    SelectedSize(rows, user, since, limit);
    if page.hasMore {
      PagesCount(rows, user, page.nextCursor, limit);
      OneMorePage(n, limit, |Pages(rows, user, page.nextCursor, limit)|);
    }
  }

  /**
   * With no write in between, a client that follows next_cursor with any page size sees every row
   * past `since` exactly once, in strictly ascending order, in floor(n / limit) + 1 pages for n rows.
   */
  lemma PagingIsTheSortedList(rows: Rows, user: UserId, since: nat, limit: nat)
    requires DistinctStamps(rows) && limit > 0
    ensures var n := |After(rows, user, since)|;
            var seen := Flatten(Pages(rows, user, since, limit));
            && QuotientPlusOne(n, limit, |Pages(rows, user, since, limit)|)
            && |seen| == n
            && (forall k, l | 0 <= k < l < |seen| :: seen[k].row.serverSeq < seen[l].row.serverSeq)
            && (forall k | 0 <= k < |seen| :: seen[k].id in After(rows, user, since) && seen[k].row == rows[seen[k].id])
            && (forall id | id in After(rows, user, since) :: Out(id, rows[id]) in seen)
  {
    var n := |After(rows, user, since)|;
    PagesCount(rows, user, since, limit);
    PagesFlatten(rows, user, since, limit);
    SelectedSize(rows, user, since, n);
    SelectedLists(rows, user, since, n);
    forall id | id in After(rows, user, since)
      ensures Out(id, rows[id]) in Selected(rows, user, since, n)
    {
      SelectedSize(rows, user, since, n + 1);
      SelectedComplete(rows, user, since, n + 1, id);
      SelectedBeyond(rows, user, since, n, n + 1);
    }
  }
}
