/**
 * Every step of the machine is a transaction of CommitOrder: the values it draws, some of them for
 * rows it writes and some for none, and then its commit. So the histories there, in which any
 * number of transactions overlap, are made of the statements modelled here.
 */
module Transactions {
  import opened Expenses
  import opened PushValidation
  import opened Machine
  import opened Replica
  import C = CommitOrder

  /** The changed row that carries this stamp. */
  ghost predicate ChangedAt(db: Tables, db': Tables, stamp: nat, id: ExpenseId) {
    ChangedRow(db.rows, db'.rows, id) && db'.rows[id].serverSeq == stamp
  }

  ghost function DrawAt(db: Tables, db': Tables, txn: C.Txn, stamp: nat): C.Event {
    if id :| ChangedAt(db, db', stamp, id) then C.Write(txn, id, db'.rows[id]) else C.Burn
  }

  /** The values from db's on, up to this one, in order. */
  ghost function DrawsUpTo(db: Tables, db': Tables, txn: C.Txn, stamp: nat): seq<C.Event> {
    if stamp <= db.seqValue then [] else DrawsUpTo(db, db', txn, stamp - 1) + [DrawAt(db, db', txn, stamp)]
  }

  /** The step's writes and burns, and its commit. */
  ghost function TransactionOf(db: Tables, db': Tables, txn: C.Txn): seq<C.Event> {
    DrawsUpTo(db, db', txn, db'.seqValue) + [C.CommitTxn(txn)]
  }

  /** The server shows the tables, and no open transaction is this one or locks a row the step changes. */
  ghost predicate Free(s: C.Server, db: Tables, db': Tables, txn: C.Txn) {
    && s.rows == db.rows && s.seqValue == db.seqValue
    && forall id | id in s.pending :: s.pending[id].txn != txn && !ChangedRow(db.rows, db'.rows, id)
  }

  /** The images of the changed rows stamped so far. */
  ghost function ImagesUpTo(db: Tables, db': Tables, txn: C.Txn, stamp: nat): map<ExpenseId, C.Image> {
    map id | id in db'.rows && ChangedRow(db.rows, db'.rows, id) && db'.rows[id].serverSeq <= stamp ::
      C.Image(txn, db'.rows[id])
  }

  lemma NextImage(db: Tables, db': Tables, txn: C.Txn, stamp: nat, id: ExpenseId)
    requires Stamped(db') && stamp > 0 && ChangedAt(db, db', stamp, id)
    ensures ImagesUpTo(db, db', txn, stamp) == ImagesUpTo(db, db', txn, stamp - 1)[id := C.Image(txn, db'.rows[id])]
  {
  }

  lemma NoNextImage(db: Tables, db': Tables, txn: C.Txn, stamp: nat)
    requires stamp > 0 && forall id :: !ChangedAt(db, db', stamp, id)
    ensures ImagesUpTo(db, db', txn, stamp) == ImagesUpTo(db, db', txn, stamp - 1)
  {
    forall id | id in db'.rows && ChangedRow(db.rows, db'.rows, id)
      ensures db'.rows[id].serverSeq != stamp
    {
      assert !ChangedAt(db, db', stamp, id);
    }
  }

  lemma {:induction false} DrawsMakeImages(s: C.Server, db: Tables, db': Tables, txn: C.Txn, stamp: nat)
    requires Stamped(db') && Advances(db, db') && Free(s, db, db', txn) && db.seqValue <= stamp
    ensures C.HistoryFrom(s, DrawsUpTo(db, db', txn, stamp))
            == s.(seqValue := stamp, pending := s.pending + ImagesUpTo(db, db', txn, stamp))
  {
    if stamp == db.seqValue {
      assert ImagesUpTo(db, db', txn, stamp) == map[];
    } else {
      DrawsMakeImages(s, db, db', txn, stamp - 1);
      DrawHappens(s, db, db', txn, stamp);
      var draws, draw := DrawsUpTo(db, db', txn, stamp - 1), DrawAt(db, db', txn, stamp);
      assert (draws + [draw])[..|draws|] == draws;
    }
  }

  lemma DrawHappens(s: C.Server, db: Tables, db': Tables, txn: C.Txn, stamp: nat)
    requires Stamped(db') && Advances(db, db') && Free(s, db, db', txn) && db.seqValue < stamp
    ensures C.Happens(s.(seqValue := stamp - 1, pending := s.pending + ImagesUpTo(db, db', txn, stamp - 1)),
            DrawAt(db, db', txn, stamp))
            == s.(seqValue := stamp, pending := s.pending + ImagesUpTo(db, db', txn, stamp))
  {
    if id :| ChangedAt(db, db', stamp, id) {
      var chosen := DrawAt(db, db', txn, stamp).id;
      assert ChangedAt(db, db', stamp, chosen);
      WriteHappens(s, db, db', txn, stamp, chosen);
    } else {
      NoNextImage(db, db', txn, stamp);
    }
  }

  lemma WriteHappens(s: C.Server, db: Tables, db': Tables, txn: C.Txn, stamp: nat, id: ExpenseId)
    requires Stamped(db') && Advances(db, db') && Free(s, db, db', txn) && db.seqValue < stamp
    requires ChangedAt(db, db', stamp, id)
    ensures C.Happens(s.(seqValue := stamp - 1, pending := s.pending + ImagesUpTo(db, db', txn, stamp - 1)),
                      C.Write(txn, id, db'.rows[id]))
            == s.(seqValue := stamp, pending := s.pending + ImagesUpTo(db, db', txn, stamp))
  {
    var row, before := db'.rows[id], ImagesUpTo(db, db', txn, stamp - 1);
    NextImage(db, db', txn, stamp, id);
    assert row.(serverSeq := stamp) == row;
    if id in db.rows { assert Succeeds(db.rows[id], row); }
    UpdateOfSum(s.pending, before, id, C.Image(txn, row));
  }

  lemma UpdateOfSum(a: map<ExpenseId, C.Image>, b: map<ExpenseId, C.Image>, id: ExpenseId, image: C.Image)
    ensures (a + b)[id := image] == a + b[id := image]
  {
  }

  function ChangedRows(db: Tables, db': Tables): Rows {
    map id | id in db'.rows && (id in db.rows ==> db.rows[id] != db'.rows[id]) :: db'.rows[id]
  }

  lemma WrittenIsChanged(s: C.Server, db: Tables, db': Tables, txn: C.Txn)
    requires Stamped(db') && Free(s, db, db', txn)
    ensures var images := ImagesUpTo(db, db', txn, db'.seqValue);
            C.WrittenBy(s.(seqValue := db'.seqValue, pending := s.pending + images), txn) == ChangedRows(db, db')
  {
  }

  lemma OthersStayPending(s: C.Server, db: Tables, db': Tables, txn: C.Txn)
    requires Stamped(db') && Free(s, db, db', txn)
    ensures (s.pending + ImagesUpTo(db, db', txn, db'.seqValue)) - ChangedRows(db, db').Keys == s.pending
  {
  }

  lemma ChangedRowsComplete(db: Tables, db': Tables)
    requires forall id | id in db.rows :: id in db'.rows
    ensures db.rows + ChangedRows(db, db') == db'.rows
  {
  }

  lemma CommitMakesRows(s: C.Server, db: Tables, db': Tables, txn: C.Txn)
    requires Stamped(db') && Advances(db, db') && Free(s, db, db', txn)
    ensures var drawn := s.(seqValue := db'.seqValue, pending := s.pending + ImagesUpTo(db, db', txn, db'.seqValue));
            C.Happens(drawn, C.CommitTxn(txn)) == s.(seqValue := db'.seqValue, rows := db'.rows)
  {
    WrittenIsChanged(s, db, db', txn);
    OthersStayPending(s, db, db', txn);
    ChangedRowsComplete(db, db');
  }

  /** A change that keeps all rows and stamps what it changes anew is a transaction, and its commit is in order. */
  lemma AdvanceIsATransaction(s: C.Server, db: Tables, db': Tables, txn: C.Txn)
    requires Stamped(db) && Stamped(db') && Advances(db, db') && Free(s, db, db', txn)
    ensures C.HistoryFrom(s, TransactionOf(db, db', txn)) == s.(rows := db'.rows, seqValue := db'.seqValue)
    ensures C.InOrder(C.HistoryFrom(s, DrawsUpTo(db, db', txn, db'.seqValue)), C.CommitTxn(txn))
  {
    var draws := DrawsUpTo(db, db', txn, db'.seqValue);
    DrawsMakeImages(s, db, db', txn, db'.seqValue);
    CommitMakesRows(s, db, db', txn);
    assert (draws + [C.CommitTxn(txn)])[..|draws|] == draws;
  }

  /** So every step of the machine, upsert, sweep write, null sweep or base change, is such a transaction. */
  lemma StepIsATransaction(m: System, devices: Devices, step: Step, s: C.Server, txn: C.Txn)
    requires Inv(m) && Free(s, m.db, StepOf(m, devices, step).db, txn)
    ensures var db' := StepOf(m, devices, step).db;
            && C.HistoryFrom(s, TransactionOf(m.db, db', txn)) == s.(rows := db'.rows, seqValue := db'.seqValue)
            && C.InOrder(C.HistoryFrom(s, DrawsUpTo(m.db, db', txn, db'.seqValue)), C.CommitTxn(txn))
  {
    StepAdvances(m, devices, step);
    AdvanceIsATransaction(s, m.db, StepOf(m, devices, step).db, txn);
  }
}
