/**
 The ledger's three money-moving operations.

 `Execute` says what one operation does when it runs alone; the class
 `LedgerStore.Session` is the repository's code, statement by statement, proved
 against it.  `World` and `Step` let any number of such operations interleave at
 their awaits, on a read-committed database with row locks.
 */
module Ledger {
  import opened Wrappers

  // An idempotency key is only ever compared for equality.
  type Key = nat
  type TxId = nat

  /** The part of an account row that the ledger writes. Money is in minor units. */
  datatype Row = Row(balance: int, version: int)

  /** The part of an account row that only the environment writes. */
  datatype Standing = Active | Frozen | Closed | Deleted

  datatype Kind = Debit | Credit

  datatype Entry = Entry(key: Key, account: nat, kind: Kind, amount: int, balanceAfter: int)

  datatype Category = TransferRecord | DepositRecord | WithdrawalRecord

  datatype Status = Pending | Processing | Completed | Failed | Reversed

  datatype Record = Record(category: Category, status: Status)

  datatype Op =
    | Transfer(key: Key, source: nat, target: nat, amount: int)
    | Deposit(key: Key, account: nat, amount: int)
    | Withdrawal(key: Key, account: nat, amount: int)

  datatype Error = NotFound | NotActive | InsufficientFunds | VersionConflict | DuplicateKey | Crashed

  datatype Outcome = Committed | Idempotent | Aborted(error: Error)

  /** Balances, versions and entries: what the ledger is accountable for. */
  datatype Books = Books(rows: seq<Row>, entries: seq<Entry>)

  /** An account is an index into `rows` and `standing`; an index past the end is unknown. */
  datatype Db = Db(books: Books, standing: seq<Standing>, records: map<Key, Record>)

  // ---------------------------------------------------------------- operations

  datatype Leg = Leg(account: nat, kind: Kind)

  /** The accounts an operation touches, in the order it reads, updates and books them. */
  function Legs(op: Op): seq<Leg> {
    match op
    case Transfer(_, source, target, _) => [Leg(source, Debit), Leg(target, Credit)]
    case Deposit(_, account, _) => [Leg(account, Credit)]
    case Withdrawal(_, account, _) => [Leg(account, Debit)]
  }

  function Signed(kind: Kind, amount: int): int {
    if kind == Debit then -amount else amount
  }

  function NewRecord(op: Op): Record {
    match op
    case Transfer(_, _, _, _) => Record(TransferRecord, Pending)
    case Deposit(_, _, _) => Record(DepositRecord, Completed)
    case Withdrawal(_, _, _) => Record(WithdrawalRecord, Completed)
  }

  predicate HasEntries(entries: seq<Entry>, key: Key) {
    exists i :: 0 <= i < |entries| && entries[i].key == key
  }

  /** The duplicate test that opens all three operations. */
  predicate Settled(db: Db, key: Key) {
    key in db.records && db.records[key].status == Completed && HasEntries(db.books.entries, key)
  }

  function AccountError(db: Db, account: nat): Option<Error> {
    if account >= |db.books.rows| || account >= |db.standing| || db.standing[account] == Deleted then Some(NotFound)
    else if db.standing[account] != Active then Some(NotActive)
    else None
  }

  predicate InRange(b: Books, op: Op) {
    forall j :: 0 <= j < |Legs(op)| ==> Legs(op)[j].account < |b.rows|
  }

  predicate DistinctLegs(op: Op) {
    op.Transfer? ==> op.source != op.target
  }

  /** Every debited account holds at least the amount. */
  predicate Funded(b: Books, op: Op)
    requires InRange(b, op)
  {
    forall j :: 0 <= j < |Legs(op)| && Legs(op)[j].kind == Debit ==> op.amount <= b.rows[Legs(op)[j].account].balance
  }

  /** Books one leg on the balance that is there now. */
  function PostLeg(b: Books, op: Op, leg: Leg): Books
    requires leg.account < |b.rows|
  {
    var row := b.rows[leg.account];
    var after := row.balance + Signed(leg.kind, op.amount);
    Books(b.rows[leg.account := Row(after, row.version + 1)],
          b.entries + [Entry(op.key, leg.account, leg.kind, op.amount, after)])
  }

  /** Books a whole operation, one leg after the other. */
  function Post(b: Books, op: Op): Books
    requires InRange(b, op)
  {
    var legs := Legs(op);
    var first := PostLeg(b, op, legs[0]);
    if |legs| == 1 then first else PostLeg(first, op, legs[1])
  }

  /** What one operation does to the database when nothing else runs. */
  function Execute(db: Db, op: Op): (Db, Outcome) {
    var legs := Legs(op);
    if Settled(db, op.key) then (db, Idempotent)
    else if AccountError(db, legs[0].account).Some? then (db, Aborted(AccountError(db, legs[0].account).value))
    else if AccountError(db, legs[|legs| - 1].account).Some? then
      (db, Aborted(AccountError(db, legs[|legs| - 1].account).value))
    else if !Funded(db.books, op) then (db, Aborted(InsufficientFunds))
    else if !DistinctLegs(op) then (db, Aborted(VersionConflict))
    else (Db(Post(db.books, op), db.standing, WithRecord(db.records, op)), Committed)
  }

  function WithRecord(records: map<Key, Record>, op: Op): map<Key, Record> {
    if op.key in records then records else records[op.key := NewRecord(op)]
  }

  // ---------------------------------------------------------------- interleaved transactions

  datatype Phase =
    | ReadRecord
    | ReadAccount
    | UpdateAccount(leg: nat)
    | InsertRecord
    | InsertEntry
    | Ready
    | Finished(outcome: Outcome)

  /** One running call: its locals and its uncommitted writes. */
  datatype Tx = Tx(
    op: Op,
    phase: Phase,
    existing: Option<Record>,
    snapshot: seq<Row>,
    writes: map<nat, Row>,
    created: bool,
    entries: seq<Entry>)

  /** `log` lists the operations in commit order. */
  datatype World = World(db: Db, txs: map<TxId, Tx>, log: seq<Op>)

  datatype Event =
    | Begin(tx: TxId, op: Op)
    | Advance(tx: TxId)
    | Crash(tx: TxId)
    | SetStanding(account: nat, standing: Standing)
    | CreatePending(key: Key)
    | SetStatus(key: Key, status: Status)

  function Fail(tx: Tx, error: Error): Tx {
    tx.(phase := Finished(Aborted(error)), writes := map[], created := false, entries := [])
  }

  predicate RowHeldByOther(w: World, t: TxId, account: nat) {
    exists u :: u in w.txs && u != t && account in w.txs[u].writes
  }

  predicate KeyHeldByOther(w: World, t: TxId, key: Key) {
    exists u :: u in w.txs && u != t && w.txs[u].created && w.txs[u].op.key == key
  }

  /** A row as transaction `tx` sees it: its own write, else the committed row. */
  function Visible(db: Db, tx: Tx, account: nat): Row
    requires account < |db.books.rows|
  {
    if account in tx.writes then tx.writes[account] else db.books.rows[account]
  }

  predicate SnapshotFunded(tx: Tx)
    requires |tx.snapshot| == |Legs(tx.op)|
  {
    forall j :: 0 <= j < |Legs(tx.op)| && Legs(tx.op)[j].kind == Debit ==> tx.op.amount <= tx.snapshot[j].balance
  }

  function DoReadRecord(db: Db, tx: Tx): Tx {
    if Settled(db, tx.op.key) then tx.(phase := Finished(Idempotent))
    else tx.(phase := ReadAccount,
             existing := if tx.op.key in db.records then Some(db.records[tx.op.key]) else None)
  }

  function DoReadAccount(db: Db, tx: Tx): Tx {
    var legs := Legs(tx.op);
    if |tx.snapshot| >= |legs| then tx else
    var account := legs[|tx.snapshot|].account;
    if AccountError(db, account).Some? then Fail(tx, AccountError(db, account).value) else
    var read := tx.(snapshot := tx.snapshot + [db.books.rows[account]]);
    if |read.snapshot| < |legs| then read
    else if !SnapshotFunded(read) then Fail(read, InsufficientFunds)
    else read.(phase := UpdateAccount(0))
  }

  /** `updateMany` with `version: expected`; the caller has found the row free. */
  function DoUpdate(db: Db, tx: Tx, i: nat): Tx {
    var legs := Legs(tx.op);
    if i >= |legs| || i >= |tx.snapshot| || legs[i].account >= |db.books.rows| then tx else
    var account := legs[i].account;
    var row := Visible(db, tx, account);
    if row.version != tx.snapshot[i].version then Fail(tx, VersionConflict)
    else tx.(
      writes := tx.writes[account := Row(tx.snapshot[i].balance + Signed(legs[i].kind, tx.op.amount), row.version + 1)],
      phase := if i + 1 < |legs| then UpdateAccount(i + 1) else InsertRecord)
  }

  /** Reuses the record that was read, else creates one; the key is unique. */
  function DoInsertRecord(db: Db, tx: Tx, keyHeld: bool): Tx {
    if tx.existing.Some? then tx.(phase := InsertEntry)
    else if tx.op.key in db.records then Fail(tx, DuplicateKey)
    else if keyHeld then tx
    else tx.(created := true, phase := InsertEntry)
  }

  function DoInsertEntry(tx: Tx): Tx {
    var legs := Legs(tx.op);
    var j := |tx.entries|;
    if j >= |legs| || j >= |tx.snapshot| then tx
    else tx.(entries := tx.entries + [EntryOf(tx, j)], phase := if j + 1 < |legs| then InsertEntry else Ready)
  }

  /** The entry for leg j, with the balance computed from the snapshot. */
  function EntryOf(tx: Tx, j: nat): Entry
    requires j < |Legs(tx.op)| && j < |tx.snapshot|
  {
    var leg := Legs(tx.op)[j];
    Entry(tx.op.key, leg.account, leg.kind, tx.op.amount, tx.snapshot[j].balance + Signed(leg.kind, tx.op.amount))
  }

  /** The row that statement `i` would write still has the version that was read. */
  predicate Matches(db: Db, tx: Tx, i: nat) {
    && i < |Legs(tx.op)| && i < |tx.snapshot| && Legs(tx.op)[i].account < |db.books.rows|
    && Visible(db, tx, Legs(tx.op)[i].account).version == tx.snapshot[i].version
  }

  /**
   The next statement of transaction `t`, short of its commit.  An update whose row still
   has the expected version waits while another transaction holds the row; any other
   finds no row to write, and is told so at once.
   */
  function NextTx(w: World, t: TxId): Tx
    requires t in w.txs
  {
    var tx := w.txs[t];
    match tx.phase
    case ReadRecord => DoReadRecord(w.db, tx)
    case ReadAccount => DoReadAccount(w.db, tx)
    case UpdateAccount(i) =>
      if Matches(w.db, tx, i) && RowHeldByOther(w, t, Legs(tx.op)[i].account) then tx else DoUpdate(w.db, tx, i)
    case InsertRecord => DoInsertRecord(w.db, tx, KeyHeldByOther(w, t, tx.op.key))
    case InsertEntry => DoInsertEntry(tx)
    case Ready => tx
    case Finished(_) => tx
  }

  function Merge(rows: seq<Row>, writes: map<nat, Row>): seq<Row> {
    seq(|rows|, i requires 0 <= i < |rows| => if i in writes then writes[i] else rows[i])
  }

  /** Makes the writes of a Ready transaction visible. */
  function Commit(w: World, t: TxId): World
    requires t in w.txs
  {
    var tx := w.txs[t];
    World(
      Db(Books(Merge(w.db.books.rows, tx.writes), w.db.books.entries + tx.entries),
         w.db.standing,
         if tx.created then w.db.records[tx.op.key := NewRecord(tx.op)] else w.db.records),
      w.txs[t := tx.(phase := Finished(Committed), writes := map[], created := false, entries := [])],
      w.log + [tx.op])
  }

  function Step(w: World, e: Event): World {
    match e
    case Begin(t, op) =>
      if t in w.txs then w else w.(txs := w.txs[t := Tx(op, ReadRecord, None, [], map[], false, [])])
    case Advance(t) =>
      if t !in w.txs then w
      else if w.txs[t].phase.Ready? then Commit(w, t)
      else w.(txs := w.txs[t := NextTx(w, t)])
    case Crash(t) =>
      if t !in w.txs || w.txs[t].phase.Finished? then w
      else w.(txs := w.txs[t := Fail(w.txs[t], Crashed)])
    case SetStanding(a, s) =>
      if a >= |w.db.standing| then w else w.(db := w.db.(standing := w.db.standing[a := s]))
    case CreatePending(k) =>
      if k in w.db.records || (exists u :: u in w.txs && w.txs[u].created && w.txs[u].op.key == k) then w
      else w.(db := w.db.(records := w.db.records[k := Record(TransferRecord, Pending)]))
    case SetStatus(k, s) =>
      // Only transfers are ever re-marked: by the payment service, on its own records.
      if k in w.db.records && w.db.records[k].category == TransferRecord
      then w.(db := w.db.(records := w.db.records[k := Record(TransferRecord, s)]))
      else w
  }

  function Run(w: World, es: seq<Event>): World
    decreases |es|
  {
    if es == [] then w else Step(Run(w, es[..|es| - 1]), es[|es| - 1])
  }

  // ---------------------------------------------------------------- the invariant

  /** How many of its legs a transaction has written. */
  function Updated(tx: Tx): nat {
    match tx.phase
    case UpdateAccount(i) => i
    case InsertRecord => |Legs(tx.op)|
    case InsertEntry => |Legs(tx.op)|
    case Ready => |Legs(tx.op)|
    case _ => 0
  }

  predicate Booking(tx: Tx) {
    tx.phase.InsertEntry? || tx.phase.Ready?
  }

  predicate Writing(tx: Tx) {
    tx.phase.UpdateAccount? || tx.phase.InsertRecord? || Booking(tx)
  }

  /** Equal versions mean equal balances; an older version means the row has moved on. */
  predicate SnapshotOk(row: Row, read: Row) {
    read.version <= row.version && (read.version == row.version ==> read == row)
  }

  ghost predicate ReadsOk(rows: seq<Row>, tx: Tx) {
    && |tx.snapshot| <= |Legs(tx.op)|
    && (forall j :: 0 <= j < |tx.snapshot| ==>
          Legs(tx.op)[j].account < |rows| && SnapshotOk(rows[Legs(tx.op)[j].account], tx.snapshot[j]))
  }

  ghost predicate SnapshotsOk(rows: seq<Row>, tx: Tx) {
    && ReadsOk(rows, tx)
    && (tx.phase.ReadRecord? ==> tx.snapshot == [])
    && (tx.phase.ReadAccount? ==> |tx.snapshot| < |Legs(tx.op)|)
    && (Writing(tx) ==> |tx.snapshot| == |Legs(tx.op)| && SnapshotFunded(tx))
    && (tx.phase.UpdateAccount? ==> tx.phase.leg < |Legs(tx.op)|)
  }

  /** The accounts of the legs written so far. */
  function WrittenAccounts(tx: Tx): set<nat> {
    var legs := Legs(tx.op);
    if Updated(tx) == 0 then {}
    else if Updated(tx) == 1 || |legs| == 1 then {legs[0].account}
    else {legs[0].account, legs[1].account}
  }

  /** What is written is held: the committed row is still the one that was read. */
  ghost predicate LegWritten(rows: seq<Row>, tx: Tx, j: nat)
    requires SnapshotsOk(rows, tx) && j < |Legs(tx.op)|
  {
    var leg := Legs(tx.op)[j];
    && j < |tx.snapshot| && leg.account in tx.writes
    && rows[leg.account] == tx.snapshot[j]
    && tx.writes[leg.account]
       == Row(tx.snapshot[j].balance + Signed(leg.kind, tx.op.amount), tx.snapshot[j].version + 1)
  }

  ghost predicate WritesOk(rows: seq<Row>, tx: Tx)
    requires SnapshotsOk(rows, tx)
  {
    && tx.writes.Keys == WrittenAccounts(tx)
    && (forall j :: 0 <= j < Updated(tx) ==> LegWritten(rows, tx, j))
    && (Updated(tx) == 2 ==> DistinctLegs(tx.op))
  }

  ghost predicate EntriesOk(tx: Tx) {
    && |tx.entries| <= |tx.snapshot| <= |Legs(tx.op)|
    && (forall j :: 0 <= j < |tx.entries| ==> tx.entries[j] == EntryOf(tx, j))
    && (!Booking(tx) ==> tx.entries == [])
    && (tx.phase.InsertEntry? ==> |tx.entries| < |Legs(tx.op)|)
    && (tx.phase.Ready? ==> |tx.entries| == |Legs(tx.op)|)
  }

  ghost predicate RecordOk(db: Db, tx: Tx) {
    && (tx.created ==> Booking(tx) && tx.existing.None? && tx.op.key !in db.records)
    && (Booking(tx) ==> tx.created || tx.existing.Some?)
    && (tx.existing.Some? ==> tx.op.key in db.records)
  }

  ghost predicate TxOk(db: Db, tx: Tx) {
    SnapshotsOk(db.books.rows, tx) && WritesOk(db.books.rows, tx) && EntriesOk(tx) && RecordOk(db, tx)
  }

  ghost predicate Exclusive(txs: map<TxId, Tx>) {
    forall t, u :: t in txs && u in txs && t != u ==>
      && txs[t].writes.Keys !! txs[u].writes.Keys
      && !(txs[t].created && txs[u].created && txs[t].op.key == txs[u].op.key)
  }

  ghost predicate Inv(w: World) {
    (forall t :: t in w.txs ==> TxOk(w.db, w.txs[t])) && Exclusive(w.txs)
  }

  lemma FailedTxOk(db: Db, tx: Tx, error: Error)
    requires ReadsOk(db.books.rows, tx) && (tx.existing.Some? ==> tx.op.key in db.records)
    ensures TxOk(db, Fail(tx, error))
  {
    assert SnapshotsOk(db.books.rows, Fail(tx, error));
  }

  lemma ReadRecordKeepsTx(db: Db, tx: Tx)
    requires TxOk(db, tx) && tx.phase.ReadRecord?
    ensures TxOk(db, DoReadRecord(db, tx))
  {
    assert SnapshotsOk(db.books.rows, DoReadRecord(db, tx));
  }

  /** Once all rows are written, only the phase changes for them. */
  lemma LaterPhaseKeeps(rows: seq<Row>, tx: Tx, next: Tx)
    requires SnapshotsOk(rows, tx) && WritesOk(rows, tx)
    requires tx.phase.InsertRecord? || Booking(tx)
    requires next.phase.InsertRecord? || Booking(next)
    requires next.op == tx.op && next.snapshot == tx.snapshot && next.writes == tx.writes
    ensures SnapshotsOk(rows, next) && WritesOk(rows, next)
  {
    assert ReadsOk(rows, next);
    forall j | 0 <= j < Updated(next) ensures LegWritten(rows, next, j) {
      assert LegWritten(rows, tx, j);
    }
  }

  lemma InsertRecordKeepsTx(db: Db, tx: Tx, keyHeld: bool)
    requires TxOk(db, tx) && tx.phase.InsertRecord?
    ensures TxOk(db, DoInsertRecord(db, tx, keyHeld))
  {
    if tx.existing.None? && tx.op.key in db.records {
      FailedTxOk(db, tx, DuplicateKey);
    } else {
      LaterPhaseKeeps(db.books.rows, tx, DoInsertRecord(db, tx, keyHeld));
    }
  }

  lemma ReadKeepsReads(rows: seq<Row>, tx: Tx)
    requires ReadsOk(rows, tx) && |tx.snapshot| < |Legs(tx.op)|
    requires Legs(tx.op)[|tx.snapshot|].account < |rows|
    ensures ReadsOk(rows, tx.(snapshot := tx.snapshot + [rows[Legs(tx.op)[|tx.snapshot|].account]]))
  {
  }

  lemma ReadAccountKeepsTx(db: Db, tx: Tx)
    requires TxOk(db, tx) && tx.phase.ReadAccount?
    ensures TxOk(db, DoReadAccount(db, tx))
  {
    var account := Legs(tx.op)[|tx.snapshot|].account;
    if AccountError(db, account).Some? {
      FailedTxOk(db, tx, AccountError(db, account).value);
    } else {
      ReadKeepsReads(db.books.rows, tx);
      var read := tx.(snapshot := tx.snapshot + [db.books.rows[account]]);
      if |read.snapshot| == |Legs(tx.op)| && !SnapshotFunded(read) {
        FailedTxOk(db, read, InsufficientFunds);
      } else {
        assert SnapshotsOk(db.books.rows, DoReadAccount(db, tx));
      }
    }
  }

  /** The next leg is written on a row that is not yet written. */
  ghost predicate Writes(rows: seq<Row>, tx: Tx, next: Tx)
    requires SnapshotsOk(rows, tx) && tx.phase.UpdateAccount?
  {
    var i := tx.phase.leg;
    var leg := Legs(tx.op)[i];
    && leg.account !in tx.writes && rows[leg.account] == tx.snapshot[i]
    && next.op == tx.op && next.snapshot == tx.snapshot
    && next.phase == (if i + 1 < |Legs(tx.op)| then UpdateAccount(i + 1) else InsertRecord)
    && next.writes == tx.writes[leg.account :=
         Row(tx.snapshot[i].balance + Signed(leg.kind, tx.op.amount), tx.snapshot[i].version + 1)]
  }

  lemma WriteKeepsLegs(rows: seq<Row>, tx: Tx, next: Tx, j: nat)
    requires SnapshotsOk(rows, tx) && WritesOk(rows, tx) && tx.phase.UpdateAccount? && Writes(rows, tx, next)
    requires SnapshotsOk(rows, next) && j <= tx.phase.leg
    ensures LegWritten(rows, next, j)
  {
    if j < tx.phase.leg {
      assert LegWritten(rows, tx, j);
    }
  }

  lemma WriteKeepsWrites(rows: seq<Row>, tx: Tx, next: Tx)
    requires SnapshotsOk(rows, tx) && WritesOk(rows, tx) && tx.phase.UpdateAccount? && Writes(rows, tx, next)
    ensures SnapshotsOk(rows, next) && WritesOk(rows, next)
  {
    assert ReadsOk(rows, next);
    assert Updated(next) == tx.phase.leg + 1;
    forall j | 0 <= j < Updated(next) ensures LegWritten(rows, next, j) {
      WriteKeepsLegs(rows, tx, next, j);
    }
  }

  lemma UpdateKeepsTx(db: Db, tx: Tx)
    requires TxOk(db, tx) && tx.phase.UpdateAccount?
    ensures TxOk(db, DoUpdate(db, tx, tx.phase.leg))
  {
    var i := tx.phase.leg;
    var account := Legs(tx.op)[i].account;
    if Visible(db, tx, account).version != tx.snapshot[i].version {
      FailedTxOk(db, tx, VersionConflict);
    } else {
      if i == 1 {
        assert LegWritten(db.books.rows, tx, 0);
      }
      assert account !in tx.writes;
      WriteKeepsWrites(db.books.rows, tx, DoUpdate(db, tx, i));
    }
  }

  lemma EntryKeepsEntries(tx: Tx)
    requires EntriesOk(tx) && tx.phase.InsertEntry? && |tx.snapshot| == |Legs(tx.op)|
    ensures EntriesOk(DoInsertEntry(tx))
  {
    var next := DoInsertEntry(tx);
    forall j | 0 <= j < |next.entries| ensures next.entries[j] == EntryOf(next, j) {
      if j < |tx.entries| {
        assert next.entries[j] == tx.entries[j];
      }
    }
  }

  lemma InsertEntryKeepsTx(db: Db, tx: Tx)
    requires TxOk(db, tx) && tx.phase.InsertEntry?
    ensures TxOk(db, DoInsertEntry(tx))
  {
    LaterPhaseKeeps(db.books.rows, tx, DoInsertEntry(tx));
    EntryKeepsEntries(tx);
  }

  lemma LocalStepTx(w: World, t: TxId)
    requires Inv(w) && t in w.txs
    ensures TxOk(w.db, NextTx(w, t))
  {
    var tx := w.txs[t];
    assert TxOk(w.db, tx);
    match tx.phase
    case ReadRecord => ReadRecordKeepsTx(w.db, tx);
    case ReadAccount => ReadAccountKeepsTx(w.db, tx);
    case UpdateAccount(i) => UpdateKeepsTx(w.db, tx);
    case InsertRecord => InsertRecordKeepsTx(w.db, tx, KeyHeldByOther(w, t, tx.op.key));
    case InsertEntry => InsertEntryKeepsTx(w.db, tx);
    case Ready =>
    case Finished(_) =>
  }

  /** One statement adds at most one row to the writes, and only a row nobody else holds. */
  lemma LocalStepRows(w: World, t: TxId, u: TxId)
    requires Exclusive(w.txs) && t in w.txs && u in w.txs && t != u
    ensures NextTx(w, t).writes.Keys !! w.txs[u].writes.Keys
  {
    var tx, next := w.txs[t], NextTx(w, t);
    assert tx.writes.Keys !! w.txs[u].writes.Keys;
    if tx.phase.UpdateAccount? && next.writes != tx.writes && !next.phase.Finished? {
      var account := Legs(tx.op)[tx.phase.leg].account;
      assert Matches(w.db, tx, tx.phase.leg) && !RowHeldByOther(w, t, account);
      assert next.writes.Keys == tx.writes.Keys + {account};
    }
  }

  /** A record is created only when nobody else is creating it. */
  lemma LocalStepKey(w: World, t: TxId, u: TxId)
    requires Exclusive(w.txs) && t in w.txs && u in w.txs && t != u
    ensures !(NextTx(w, t).created && w.txs[u].created && NextTx(w, t).op.key == w.txs[u].op.key)
  {
    var tx, next := w.txs[t], NextTx(w, t);
    assert next.op == tx.op;
    assert next.created && !tx.created ==> !KeyHeldByOther(w, t, tx.op.key);
  }

  /** `next` holds what `txs[t]` held, or less, or what nobody else holds. */
  ghost predicate Apart(txs: map<TxId, Tx>, t: TxId, next: Tx) {
    forall u :: u in txs && u != t ==>
      next.writes.Keys !! txs[u].writes.Keys && !(next.created && txs[u].created && next.op.key == txs[u].op.key)
  }

  lemma ReplaceKeepsExclusive(txs: map<TxId, Tx>, t: TxId, next: Tx)
    requires Exclusive(txs) && Apart(txs, t, next)
    ensures Exclusive(txs[t := next])
  {
  }

  lemma LessIsApart(txs: map<TxId, Tx>, t: TxId, next: Tx)
    requires next.writes == map[] && !next.created
    ensures Apart(txs, t, next)
  {
  }

  lemma ReplaceKeepsInv(w: World, t: TxId, next: Tx)
    requires Inv(w) && TxOk(w.db, next) && Apart(w.txs, t, next)
    ensures Inv(w.(txs := w.txs[t := next]))
  {
    ReplaceKeepsExclusive(w.txs, t, next);
  }

  lemma LocalStepKeepsInv(w: World, t: TxId)
    requires Inv(w) && t in w.txs
    ensures Inv(w.(txs := w.txs[t := NextTx(w, t)]))
  {
    LocalStepTx(w, t);
    var next := NextTx(w, t);
    forall u | u in w.txs && u != t
      ensures next.writes.Keys !! w.txs[u].writes.Keys
      ensures !(next.created && w.txs[u].created && next.op.key == w.txs[u].op.key)
    {
      LocalStepRows(w, t, u);
      LocalStepKey(w, t, u);
    }
    ReplaceKeepsInv(w, t, next);
  }

  // ---------------------------------------------------------------- commits

  /** A write is one version ahead of the row that is still committed. */
  lemma WrittenIsNewer(rows: seq<Row>, tx: Tx, a: nat)
    requires SnapshotsOk(rows, tx) && WritesOk(rows, tx) && a in tx.writes
    ensures a < |rows| && tx.writes[a].version == rows[a].version + 1
  {
    assert a in WrittenAccounts(tx);
    assert LegWritten(rows, tx, 0);
    if Updated(tx) == 2 {
      assert LegWritten(rows, tx, 1);
    }
  }

  /** What another transaction has read may be overwritten; what it has written may not. */
  lemma CommitKeepsReads(rows: seq<Row>, tx: Tx, other: Tx)
    requires SnapshotsOk(rows, tx) && WritesOk(rows, tx) && ReadsOk(rows, other)
    ensures ReadsOk(Merge(rows, tx.writes), other)
  {
    forall j | 0 <= j < |other.snapshot|
      ensures SnapshotOk(Merge(rows, tx.writes)[Legs(other.op)[j].account], other.snapshot[j])
    {
      var a := Legs(other.op)[j].account;
      if a in tx.writes {
        WrittenIsNewer(rows, tx, a);
      }
    }
  }

  lemma CommitKeepsWrites(rows: seq<Row>, tx: Tx, other: Tx)
    requires SnapshotsOk(rows, other) && WritesOk(rows, other) && tx.writes.Keys !! other.writes.Keys
    requires SnapshotsOk(Merge(rows, tx.writes), other)
    ensures WritesOk(Merge(rows, tx.writes), other)
  {
    forall j | 0 <= j < Updated(other) ensures LegWritten(Merge(rows, tx.writes), other, j) {
      assert LegWritten(rows, other, j);
      assert Legs(other.op)[j].account in other.writes.Keys;
    }
  }

  lemma CommitKeepsOther(w: World, t: TxId, u: TxId)
    requires Inv(w) && t in w.txs && u in w.txs && t != u && w.txs[t].phase.Ready?
    ensures TxOk(Commit(w, t).db, w.txs[u])
  {
    var tx, other := w.txs[t], w.txs[u];
    assert TxOk(w.db, tx) && TxOk(w.db, other);
    assert tx.writes.Keys !! other.writes.Keys;
    assert !(tx.created && other.created && tx.op.key == other.op.key);
    CommitKeepsReads(w.db.books.rows, tx, other);
    CommitKeepsWrites(w.db.books.rows, tx, other);
  }

  lemma CommittedTxOk(w: World, t: TxId)
    requires t in w.txs && TxOk(w.db, w.txs[t]) && w.txs[t].phase.Ready?
    ensures TxOk(Commit(w, t).db, Commit(w, t).txs[t])
  {
    var next := Commit(w, t);
    CommitKeepsReads(w.db.books.rows, w.txs[t], w.txs[t]);
    assert ReadsOk(next.db.books.rows, next.txs[t]);
    assert SnapshotsOk(next.db.books.rows, next.txs[t]);
  }

  lemma CommitKeepsInv(w: World, t: TxId)
    requires Inv(w) && t in w.txs && w.txs[t].phase.Ready?
    ensures Inv(Commit(w, t))
  {
    var next := Commit(w, t);
    CommittedTxOk(w, t);
    forall u | u in w.txs && u != t ensures TxOk(next.db, w.txs[u]) {
      CommitKeepsOther(w, t, u);
    }
    LessIsApart(w.txs, t, next.txs[t]);
    ReplaceKeepsExclusive(w.txs, t, next.txs[t]);
  }

  lemma ReadyIsCovered(b: Books, tx: Tx)
    requires SnapshotsOk(b.rows, tx) && WritesOk(b.rows, tx) && tx.phase.Ready?
    ensures InRange(b, tx.op) && Funded(b, tx.op) && DistinctLegs(tx.op)
  {
    assert SnapshotFunded(tx);
    forall j | 0 <= j < |Legs(tx.op)|
      ensures Legs(tx.op)[j].account < |b.rows|
      ensures Legs(tx.op)[j].kind == Debit ==> tx.op.amount <= b.rows[Legs(tx.op)[j].account].balance
    {
      assert LegWritten(b.rows, tx, j);
    }
  }

  lemma RowsArePosted(b: Books, tx: Tx)
    requires SnapshotsOk(b.rows, tx) && WritesOk(b.rows, tx) && tx.phase.Ready?
    requires InRange(b, tx.op) && DistinctLegs(tx.op)
    ensures Merge(b.rows, tx.writes) == Post(b, tx.op).rows
  {
    var merged, posted := Merge(b.rows, tx.writes), Post(b, tx.op).rows;
    assert LegWritten(b.rows, tx, 0);
    if |Legs(tx.op)| == 2 {
      assert LegWritten(b.rows, tx, 1);
    }
    assert |merged| == |posted| == |b.rows|;
    forall a | 0 <= a < |b.rows| ensures merged[a] == posted[a] {
    }
  }

  /** The entries a posting adds: one a leg, with the balance its row is left at. */
  lemma PostedEntries(b: Books, op: Op)
    requires InRange(b, op) && DistinctLegs(op)
    ensures forall j :: 0 <= j < |Legs(op)| ==> Legs(op)[j].account < |b.rows|
    ensures Post(b, op).entries == b.entries + if |Legs(op)| == 1 then [EntryFor(b, op, 0)]
                                               else [EntryFor(b, op, 0), EntryFor(b, op, 1)]
  {
    var one := b.entries + [EntryFor(b, op, 0)];
    assert PostLeg(b, op, Legs(op)[0]).entries == one;
    if |Legs(op)| == 2 {
      assert one + [EntryFor(b, op, 1)] == b.entries + [EntryFor(b, op, 0), EntryFor(b, op, 1)];
    }
  }

  function EntryFor(b: Books, op: Op, j: nat): Entry
    requires j < |Legs(op)| && Legs(op)[j].account < |b.rows|
  {
    var leg := Legs(op)[j];
    Entry(op.key, leg.account, leg.kind, op.amount, b.rows[leg.account].balance + Signed(leg.kind, op.amount))
  }

  lemma EntriesArePosted(b: Books, tx: Tx)
    requires SnapshotsOk(b.rows, tx) && WritesOk(b.rows, tx) && EntriesOk(tx) && tx.phase.Ready?
    requires InRange(b, tx.op) && DistinctLegs(tx.op)
    ensures b.entries + tx.entries == Post(b, tx.op).entries
  {
    PostedEntries(b, tx.op);
    forall j | 0 <= j < |Legs(tx.op)| ensures tx.entries[j] == EntryFor(b, tx.op, j) {
      assert LegWritten(b.rows, tx, j);
    }
    assert tx.entries == if |Legs(tx.op)| == 1 then [EntryFor(b, tx.op, 0)]
                         else [EntryFor(b, tx.op, 0), EntryFor(b, tx.op, 1)];
  }

  /**
   The heart of serializability: whatever ran in between, a commit books its
   operation on the balances committed just before it, and those cover it.
   */
  lemma CommitIsPost(w: World, t: TxId)
    requires Inv(w) && t in w.txs && w.txs[t].phase.Ready?
    ensures var op := w.txs[t].op;
            && InRange(w.db.books, op) && Funded(w.db.books, op) && DistinctLegs(op)
            && Commit(w, t).db.books == Post(w.db.books, op)
  {
    var tx := w.txs[t];
    assert TxOk(w.db, tx);
    ReadyIsCovered(w.db.books, tx);
    RowsArePosted(w.db.books, tx);
    EntriesArePosted(w.db.books, tx);
  }

  // ---------------------------------------------------------------- every step, every run

  lemma OtherTablesKeepTx(db: Db, db': Db, tx: Tx)
    requires TxOk(db, tx) && db'.books == db.books && db.records.Keys <= db'.records.Keys
    requires tx.created ==> tx.op.key !in db'.records
    ensures TxOk(db', tx)
  {
  }

  /** The environment changes standings and records, but never a key that is being created. */
  lemma EnvironmentKeepsInv(w: World, db': Db)
    requires Inv(w) && db'.books == w.db.books && w.db.records.Keys <= db'.records.Keys
    requires forall t :: t in w.txs && w.txs[t].created ==>
               w.txs[t].op.key in w.db.records || w.txs[t].op.key !in db'.records
    ensures Inv(w.(db := db'))
  {
    forall t | t in w.txs ensures TxOk(db', w.txs[t]) {
      assert TxOk(w.db, w.txs[t]);
      OtherTablesKeepTx(w.db, db', w.txs[t]);
    }
  }

  lemma BeginKeepsInv(w: World, t: TxId, op: Op)
    requires Inv(w)
    ensures Inv(Step(w, Begin(t, op)))
  {
    if t !in w.txs {
      var tx := Tx(op, ReadRecord, None, [], map[], false, []);
      assert SnapshotsOk(w.db.books.rows, tx);
      LessIsApart(w.txs, t, tx);
      ReplaceKeepsInv(w, t, tx);
    }
  }

  lemma CrashKeepsInv(w: World, t: TxId)
    requires Inv(w)
    ensures Inv(Step(w, Crash(t)))
  {
    if t in w.txs && !w.txs[t].phase.Finished? {
      assert TxOk(w.db, w.txs[t]);
      FailedTxOk(w.db, w.txs[t], Crashed);
      LessIsApart(w.txs, t, Fail(w.txs[t], Crashed));
      ReplaceKeepsInv(w, t, Fail(w.txs[t], Crashed));
    }
  }

  lemma StepKeepsInv(w: World, e: Event)
    requires Inv(w)
    ensures Inv(Step(w, e))
  {
    match e
    case Begin(t, op) => BeginKeepsInv(w, t, op);
    case Advance(t) =>
      if t in w.txs {
        if w.txs[t].phase.Ready? {
          CommitKeepsInv(w, t);
        } else {
          LocalStepKeepsInv(w, t);
        }
      }
    case Crash(t) => CrashKeepsInv(w, t);
    case SetStanding(_, _) => EnvironmentKeepsInv(w, Step(w, e).db);
    case CreatePending(k) => EnvironmentKeepsInv(w, Step(w, e).db);
    case SetStatus(k, s) => EnvironmentKeepsInv(w, Step(w, e).db);
  }

  /** No call has begun and nothing has been logged; the tables hold anything. */
  predicate Initial(w: World) {
    w.txs == map[] && w.log == []
  }

  lemma {:induction false} RunKeepsInv(w: World, es: seq<Event>)
    requires Inv(w)
    ensures Inv(Run(w, es))
  {
    if es != [] {
      RunKeepsInv(w, es[..|es| - 1]);
      StepKeepsInv(Run(w, es[..|es| - 1]), es[|es| - 1]);
    }
  }

  predicate AllInRange(b: Books, ops: seq<Op>) {
    forall i :: 0 <= i < |ops| ==> InRange(b, ops[i])
  }
}
