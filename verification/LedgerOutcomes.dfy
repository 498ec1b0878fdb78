/**
 What the three operations answer and leave, operation by operation, and why a call in
 the middle of a run ends: each case by the stored rows, standings and records.
 */
module LedgerOutcomes {
  import opened Wrappers
  import opened Ledger

  // ---------------------------------------------------------------- the three operations, alone

  /** No such account, or a deleted one. */
  predicate Missing(db: Db, account: nat) {
    account >= |db.books.rows| || account >= |db.standing| || db.standing[account] == Deleted
  }

  /** The account is there, and frozen or closed. */
  predicate Barred(db: Db, account: nat) {
    && account < |db.books.rows| && account < |db.standing|
    && (db.standing[account] == Frozen || db.standing[account] == Closed)
  }

  predicate Usable(db: Db, account: nat) {
    account < |db.books.rows| && account < |db.standing| && db.standing[account] == Active
  }

  /** The key's record is completed and an entry carries the key. */
  predicate Duplicate(db: Db, key: Key) {
    && key in db.records && db.records[key].status == Completed
    && exists i :: 0 <= i < |db.books.entries| && db.books.entries[i].key == key
  }

  /** A transfer, first reason first: why it is refused, or that it is booked. */
  lemma TransferOutcome(db: Db, key: Key, source: nat, target: nat, amount: int)
    ensures Execute(db, Transfer(key, source, target, amount)).1 ==
            if Duplicate(db, key) then Idempotent
            else if Missing(db, source) then Aborted(NotFound)
            else if Barred(db, source) then Aborted(NotActive)
            else if Missing(db, target) then Aborted(NotFound)
            else if Barred(db, target) then Aborted(NotActive)
            else if db.books.rows[source].balance < amount then Aborted(InsufficientFunds)
            else if source == target then Aborted(VersionConflict)
            else Committed
  {
    var op := Transfer(key, source, target, amount);
    assert Legs(op)[0] == Leg(source, Debit) && Legs(op)[1] == Leg(target, Credit);
    assert Usable(db, source) && Usable(db, target) ==>
             (Funded(db.books, op) <==> amount <= db.books.rows[source].balance);
  }

  /** What a transfer moves: the amount, from the source to the target, with one entry for each. */
  lemma TransferEffect(db: Db, key: Key, source: nat, target: nat, amount: int)
    requires Execute(db, Transfer(key, source, target, amount)).1 == Committed
    ensures source < |db.books.rows| && target < |db.books.rows| && source != target
    ensures var rows, entries := db.books.rows, db.books.entries;
            var paid, got := rows[source].balance - amount, rows[target].balance + amount;
            Execute(db, Transfer(key, source, target, amount)).0 == Db(
              Books(rows[source := Row(paid, rows[source].version + 1)][target := Row(got, rows[target].version + 1)],
                    entries + [Entry(key, source, Debit, amount, paid), Entry(key, target, Credit, amount, got)]),
              db.standing,
              if key in db.records then db.records else db.records[key := Record(TransferRecord, Pending)])
  {
    TransferOutcome(db, key, source, target, amount);
    PostTransfer(db.books, key, source, target, amount);
  }

  lemma PostTransfer(b: Books, key: Key, source: nat, target: nat, amount: int)
    requires source < |b.rows| && target < |b.rows| && source != target
    ensures InRange(b, Transfer(key, source, target, amount))
    ensures var paid, got := b.rows[source].balance - amount, b.rows[target].balance + amount;
            Post(b, Transfer(key, source, target, amount)) == Books(
              b.rows[source := Row(paid, b.rows[source].version + 1)][target := Row(got, b.rows[target].version + 1)],
              b.entries + [Entry(key, source, Debit, amount, paid), Entry(key, target, Credit, amount, got)])
  {
    var op := Transfer(key, source, target, amount);
    assert Legs(op)[0] == Leg(source, Debit) && Legs(op)[1] == Leg(target, Credit);
  }

  lemma DepositOutcome(db: Db, key: Key, account: nat, amount: int)
    ensures Execute(db, Deposit(key, account, amount)).1 ==
            if Duplicate(db, key) then Idempotent
            else if Missing(db, account) then Aborted(NotFound)
            else if Barred(db, account) then Aborted(NotActive)
            else Committed
  {
    assert Legs(Deposit(key, account, amount))[0] == Leg(account, Credit);
  }

  lemma DepositEffect(db: Db, key: Key, account: nat, amount: int)
    requires Execute(db, Deposit(key, account, amount)).1 == Committed
    ensures account < |db.books.rows|
    ensures var rows, got := db.books.rows, db.books.rows[account].balance + amount;
            Execute(db, Deposit(key, account, amount)).0 == Db(
              Books(rows[account := Row(got, rows[account].version + 1)],
                    db.books.entries + [Entry(key, account, Credit, amount, got)]),
              db.standing,
              if key in db.records then db.records else db.records[key := Record(DepositRecord, Completed)])
  {
    DepositOutcome(db, key, account, amount);
    assert Legs(Deposit(key, account, amount)) == [Leg(account, Credit)];
  }

  lemma WithdrawalOutcome(db: Db, key: Key, account: nat, amount: int)
    ensures Execute(db, Withdrawal(key, account, amount)).1 ==
            if Duplicate(db, key) then Idempotent
            else if Missing(db, account) then Aborted(NotFound)
            else if Barred(db, account) then Aborted(NotActive)
            else if db.books.rows[account].balance < amount then Aborted(InsufficientFunds)
            else Committed
  {
    assert Legs(Withdrawal(key, account, amount)) == [Leg(account, Debit)];
  }

  lemma WithdrawalEffect(db: Db, key: Key, account: nat, amount: int)
    requires Execute(db, Withdrawal(key, account, amount)).1 == Committed
    ensures account < |db.books.rows|
    ensures var rows, left := db.books.rows, db.books.rows[account].balance - amount;
            Execute(db, Withdrawal(key, account, amount)).0 == Db(
              Books(rows[account := Row(left, rows[account].version + 1)],
                    db.books.entries + [Entry(key, account, Debit, amount, left)]),
              db.standing,
              if key in db.records then db.records else db.records[key := Record(WithdrawalRecord, Completed)])
  {
    WithdrawalOutcome(db, key, account, amount);
    assert Legs(Withdrawal(key, account, amount)) == [Leg(account, Debit)];
  }

  /** What is not booked changes nothing. */
  lemma RefusedChangesNothing(db: Db, op: Op)
    requires Execute(db, op).1 != Committed
    ensures Execute(db, op).0 == db
  {
  }

  // ---------------------------------------------------------------- in the middle of a run

  /** The account that a call reads next. */
  function NextAccount(tx: Tx): nat
    requires |tx.snapshot| < 2
  {
    match tx.op
    case Transfer(_, source, target, _) => if tx.snapshot == [] then source else target
    case Deposit(_, account, _) => account
    case Withdrawal(_, account, _) => account
  }

  /** The read is the call's last, and the balance that was read first does not cover the debit. */
  predicate CannotPay(db: Db, tx: Tx)
    requires |tx.snapshot| < 2
  {
    match tx.op
    case Transfer(_, _, _, amount) => |tx.snapshot| == 1 && tx.snapshot[0].balance < amount
    case Withdrawal(_, account, amount) => account < |db.books.rows| && db.books.rows[account].balance < amount
    case Deposit(_, _, _) => false
  }

  /** The row that the next update is to write is not as it was read any more, for this transaction. */
  predicate HasMovedOn(db: Db, tx: Tx, leg: nat) {
    var account := if tx.op.Transfer? then (if leg == 0 then tx.op.source else tx.op.target) else tx.op.account;
    && leg < |tx.snapshot|
    && if account in tx.writes then tx.writes[account].version != tx.snapshot[leg].version
       else account < |db.books.rows| && db.books.rows[account].version != tx.snapshot[leg].version
  }

  lemma ReadEnds(db: Db, tx: Tx, error: Error)
    requires TxOk(db, tx) && tx.phase.ReadAccount?
    ensures |tx.snapshot| < 2
    ensures DoReadAccount(db, tx).phase == Finished(Aborted(error)) <==>
            match error
            case NotFound => Missing(db, NextAccount(tx))
            case NotActive => Barred(db, NextAccount(tx))
            case InsufficientFunds => Usable(db, NextAccount(tx)) && CannotPay(db, tx)
            case _ => false
  {
    var legs := Legs(tx.op);
    assert legs[|tx.snapshot|].account == NextAccount(tx);
    if Usable(db, NextAccount(tx)) {
      var read := tx.(snapshot := tx.snapshot + [db.books.rows[NextAccount(tx)]]);
      if |read.snapshot| == |legs| {
        assert SnapshotFunded(read) <==> !CannotPay(db, tx) by {
          assert tx.op.Transfer? ==> legs == [Leg(tx.op.source, Debit), Leg(tx.op.target, Credit)];
          assert tx.op.Withdrawal? ==> legs == [Leg(tx.op.account, Debit)];
          assert tx.op.Deposit? ==> legs == [Leg(tx.op.account, Credit)];
        }
      }
    }
  }

  lemma UpdateEnds(db: Db, tx: Tx, error: Error)
    requires TxOk(db, tx) && tx.phase.UpdateAccount?
    ensures DoUpdate(db, tx, tx.phase.leg).phase == Finished(Aborted(error))
       <==> error == VersionConflict && HasMovedOn(db, tx, tx.phase.leg)
  {
    var i := tx.phase.leg;
    assert tx.op.Transfer? ==> Legs(tx.op)[0].account == tx.op.source && Legs(tx.op)[1].account == tx.op.target;
    assert i < |tx.snapshot| && Legs(tx.op)[i].account < |db.books.rows|;
  }

  /**
   Why a call in any reachable world ends with an error, whatever ran before and beside it:
   for each error, exactly when the next statement throws it.
   */
  lemma StatementThrowsIff(w: World, t: TxId, error: Error)
    requires Inv(w) && t in w.txs && !w.txs[t].phase.Finished?
    ensures w.txs[t].phase.ReadAccount? ==> |w.txs[t].snapshot| < 2
    ensures var tx := w.txs[t];
            Step(w, Advance(t)).txs[t].phase == Finished(Aborted(error)) <==>
            match tx.phase
            case ReadAccount =>
              (match error
               case NotFound => Missing(w.db, NextAccount(tx))
               case NotActive => Barred(w.db, NextAccount(tx))
               case InsufficientFunds => Usable(w.db, NextAccount(tx)) && CannotPay(w.db, tx)
               case _ => false)
            case UpdateAccount(leg) => error == VersionConflict && HasMovedOn(w.db, tx, leg)
            case InsertRecord => error == DuplicateKey && tx.existing.None? && tx.op.key in w.db.records
            case _ => false
  {
    var tx := w.txs[t];
    assert TxOk(w.db, tx);
    match tx.phase
    case ReadAccount => ReadEnds(w.db, tx, error);
    case UpdateAccount(_) => UpdateEnds(w.db, tx, error);
    case _ =>
  }

  /** And when it ends as a duplicate. */
  lemma DuplicateFoundIff(w: World, t: TxId)
    requires t in w.txs && !w.txs[t].phase.Finished?
    ensures Step(w, Advance(t)).txs[t].phase == Finished(Idempotent)
       <==> w.txs[t].phase.ReadRecord? && Duplicate(w.db, w.txs[t].op.key)
  {
  }

  // ---------------------------------------------------------------- over whole runs

  /** Event `k` of the run is the one with which call `t` read account `j` of its operation, and it was active. */
  ghost predicate ReadAt(w: World, es: seq<Event>, t: TxId, op: Op, j: nat, row: Row, k: nat) {
    && k < |es| && es[k] == Advance(t) && j < |Legs(op)|
    && var db := Run(w, es[..k]).db;
       Usable(db, Legs(op)[j].account) && row == db.books.rows[Legs(op)[j].account]
  }

  ghost predicate WasRead(w: World, es: seq<Event>, t: TxId, op: Op, j: nat, row: Row) {
    exists k: nat :: ReadAt(w, es, t, op, j, row, k)
  }

  ghost predicate AllRead(w: World, es: seq<Event>, t: TxId, op: Op, rows: seq<Row>) {
    forall j :: 0 <= j < |rows| ==> WasRead(w, es, t, op, j, rows[j])
  }

  lemma WasReadLater(w: World, es: seq<Event>, e: Event, t: TxId, op: Op, j: nat, row: Row)
    requires WasRead(w, es, t, op, j, row)
    ensures WasRead(w, es + [e], t, op, j, row)
  {
    var k: nat :| ReadAt(w, es, t, op, j, row, k);
    assert (es + [e])[..k] == es[..k];
    assert ReadAt(w, es + [e], t, op, j, row, k);
  }

  /** What one step does to what a call has read: nothing, or it reads the next account. */
  ghost predicate ReadsMore(w: World, e: Event, t: TxId, tx: Tx, next: Tx) {
    && next.op == tx.op
    && (next.phase == Finished(Committed) ==> tx.phase == next.phase || tx.phase == Ready)
    && (tx.phase == Ready || tx.phase == Finished(Committed) ==> next.snapshot == tx.snapshot)
    && (next.snapshot == tx.snapshot
        || (e == Advance(t) && |tx.snapshot| < |Legs(tx.op)| && Usable(w.db, Legs(tx.op)[|tx.snapshot|].account)
            && next.snapshot == tx.snapshot + [w.db.books.rows[Legs(tx.op)[|tx.snapshot|].account]]))
  }

  lemma StepReadsMore(w: World, e: Event, t: TxId)
    requires t in Step(w, e).txs
    ensures t in w.txs ==> ReadsMore(w, e, t, w.txs[t], Step(w, e).txs[t])
    ensures t !in w.txs ==> Step(w, e).txs[t].snapshot == [] && Step(w, e).txs[t].phase == ReadRecord
  {
  }

  lemma ReadNow(w: World, es: seq<Event>, t: TxId, op: Op, j: nat, row: Row)
    requires j < |Legs(op)| && Usable(Run(w, es).db, Legs(op)[j].account)
    requires row == Run(w, es).db.books.rows[Legs(op)[j].account]
    ensures WasRead(w, es + [Advance(t)], t, op, j, row)
  {
    assert (es + [Advance(t)])[..|es|] == es;
    assert ReadAt(w, es + [Advance(t)], t, op, j, row, |es|);
  }

  lemma StepKeepsRead(w: World, es: seq<Event>, e: Event, t: TxId, tx: Tx, next: Tx)
    requires AllRead(w, es, t, tx.op, tx.snapshot) && ReadsMore(Run(w, es), e, t, tx, next)
    ensures AllRead(w, es + [e], t, next.op, next.snapshot)
  {
    forall j | 0 <= j < |next.snapshot| ensures WasRead(w, es + [e], t, next.op, j, next.snapshot[j]) {
      if j < |tx.snapshot| {
        WasReadLater(w, es, e, t, tx.op, j, tx.snapshot[j]);
      } else {
        ReadNow(w, es, t, tx.op, j, next.snapshot[j]);
      }
    }
  }

  lemma {:induction false} RunReads(w: World, es: seq<Event>, t: TxId)
    requires Initial(w) && t in Run(w, es).txs
    ensures AllRead(w, es, t, Run(w, es).txs[t].op, Run(w, es).txs[t].snapshot)
  {
    var before, e := es[..|es| - 1], es[|es| - 1];
    assert es == before + [e];
    StepReadsMore(Run(w, before), e, t);
    if t in Run(w, before).txs {
      RunReads(w, before, t);
      StepKeepsRead(w, before, e, t, Run(w, before).txs[t], Run(w, es).txs[t]);
    }
  }

  lemma {:induction false} CommittedHasRead(w: World, es: seq<Event>, t: TxId)
    requires Initial(w) && t in Run(w, es).txs && Run(w, es).txs[t].phase == Finished(Committed)
    ensures |Run(w, es).txs[t].snapshot| == |Legs(Run(w, es).txs[t].op)|
  {
    var before, e := es[..|es| - 1], es[|es| - 1];
    StepReadsMore(Run(w, before), e, t);
    var tx := Run(w, before).txs[t];
    if tx.phase == Ready {
      RunKeepsInv(w, before);
      assert TxOk(Run(w, before).db, tx);
    } else {
      CommittedHasRead(w, before, t);
    }
  }

  /**
   In every run, a call that committed found each of its accounts active, and read its row as
   it then was: nothing is paid from or into an account that was frozen, closed, deleted or
   unknown when the call came to it.
   */
  lemma CommittedAccountsWereActive(w: World, es: seq<Event>, t: TxId, j: nat)
    requires Initial(w) && t in Run(w, es).txs && Run(w, es).txs[t].phase == Finished(Committed)
    requires j < |Legs(Run(w, es).txs[t].op)|
    ensures exists row :: WasRead(w, es, t, Run(w, es).txs[t].op, j, row)
  {
    RunReads(w, es, t);
    CommittedHasRead(w, es, t);
    assert WasRead(w, es, t, Run(w, es).txs[t].op, j, Run(w, es).txs[t].snapshot[j]);
  }
}
