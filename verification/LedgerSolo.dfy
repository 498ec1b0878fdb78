/**
 The interleaving model run with nobody in between is the sequential code: the
 same outcome, the same error, the same tables.
 */
module LedgerSolo {
  import opened Wrappers
  import opened Ledger

  // ---------------------------------------------------------------- one call by itself

  /** What one statement of an undisturbed call does, short of its commit. */
  function NextAlone(db: Db, tx: Tx): Tx {
    match tx.phase
    case ReadRecord => DoReadRecord(db, tx)
    case ReadAccount => DoReadAccount(db, tx)
    case UpdateAccount(i) => DoUpdate(db, tx, i)
    case InsertRecord => DoInsertRecord(db, tx, false)
    case InsertEntry => DoInsertEntry(tx)
    case Ready => tx
    case Finished(_) => tx
  }

  /** What `n` statements do: the call stops when it is ready to commit or has ended. */
  function Sequel(db: Db, tx: Tx, n: nat): Tx
    decreases n
  {
    if n == 0 || tx.phase.Ready? || tx.phase.Finished? then tx else Sequel(db, NextAlone(db, tx), n - 1)
  }

  predicate Comes(db: Db, tx: Tx, n: nat, last: Tx) {
    last == Sequel(db, tx, n)
  }

  /** What a call that commits leaves. */
  function Booked(db: Db, op: Op): Db
    requires InRange(db.books, op)
  {
    Db(Post(db.books, op), db.standing, WithRecord(db.records, op))
  }

  /** The call has ended, or is ready to commit, as `Execute` says. */
  ghost predicate Right(db: Db, op: Op, end: Tx) {
    if end.phase.Finished? then Execute(db, op) == (db, end.phase.outcome)
    else
      && end.phase.Ready? && end.op == op && end.created == (op.key !in db.records)
      && InRange(db.books, op) && Execute(db, op) == (Booked(db, op), Committed)
  }

  /** A committed sequential run: the record and the entries are all that is left to write. */
  ghost predicate Commits(db: Db, op: Op) {
    InRange(db.books, op) && Execute(db, op) == (Booked(db, op), Committed)
  }

  lemma EntriesEnd(db: Db, tx: Tx, n: nat)
    requires tx.phase.InsertEntry? && |tx.snapshot| == |Legs(tx.op)| && n + |tx.entries| >= |Legs(tx.op)| > |tx.entries|
    requires tx.created == (tx.op.key !in db.records) && Commits(db, tx.op)
    ensures Right(db, tx.op, Sequel(db, tx, n))
    decreases n
  {
    var next := NextAlone(db, tx);
    if next.phase.InsertEntry? {
      EntriesEnd(db, next, n - 1);
    } else {
      assert Sequel(db, next, n - 1) == next;
    }
  }

  /** The record that was found when the call began is the one that is there. */
  predicate FoundRecord(db: Db, tx: Tx) {
    tx.existing == if tx.op.key in db.records then Some(db.records[tx.op.key]) else None
  }

  lemma RecordEnds(db: Db, tx: Tx, n: nat)
    requires tx.phase.InsertRecord? && |tx.snapshot| == |Legs(tx.op)| && n >= 3
    requires FoundRecord(db, tx) && !tx.created && tx.entries == [] && Commits(db, tx.op)
    ensures Right(db, tx.op, Sequel(db, tx, n))
  {
    EntriesEnd(db, NextAlone(db, tx), n - 1);
  }

  /** The accounts are in range and were read as they are. */
  predicate ReadRows(db: Db, tx: Tx) {
    && |tx.snapshot| == |Legs(tx.op)| && InRange(db.books, tx.op)
    && forall j :: 0 <= j < |Legs(tx.op)| ==> tx.snapshot[j] == db.books.rows[Legs(tx.op)[j].account]
  }

  /** The call has passed every check on what it read. */
  ghost predicate Admitted(db: Db, tx: Tx) {
    && ReadRows(db, tx) && FoundRecord(db, tx) && !tx.created && tx.entries == []
    && Execute(db, tx.op) ==
       if DistinctLegs(tx.op) then (Booked(db, tx.op), Committed) else (db, Aborted(VersionConflict))
  }

  lemma FirstUpdate(db: Db, tx: Tx)
    requires tx.phase == UpdateAccount(0) && ReadRows(db, tx) && tx.writes == map[]
    ensures DoUpdate(db, tx, 0) == tx.(
      writes := map[Legs(tx.op)[0].account := Row(
                      tx.snapshot[0].balance + Signed(Legs(tx.op)[0].kind, tx.op.amount), tx.snapshot[0].version + 1)],
      phase := if tx.op.Transfer? then UpdateAccount(1) else InsertRecord)
  {
  }

  /** What the second update finds: its own transaction's write, if the two accounts are one. */
  lemma SecondUpdate(db: Db, tx: Tx)
    requires tx.phase == UpdateAccount(1) && tx.op.Transfer? && ReadRows(db, tx)
    requires tx.writes.Keys == {tx.op.source} && tx.writes[tx.op.source].version == tx.snapshot[0].version + 1
    ensures var next := DoUpdate(db, tx, 1);
            && next.op == tx.op && next.existing == tx.existing && next.snapshot == tx.snapshot
            && (DistinctLegs(tx.op) ==> next.created == tx.created && next.entries == tx.entries)
            && next.phase == if DistinctLegs(tx.op) then InsertRecord else Finished(Aborted(VersionConflict))
  {
    assert Legs(tx.op)[0].account == tx.op.source && Legs(tx.op)[1].account == tx.op.target;
    assert tx.snapshot[0] == db.books.rows[tx.op.source] && tx.snapshot[1] == db.books.rows[tx.op.target];
  }

  lemma SecondUpdateEnds(db: Db, tx: Tx, n: nat)
    requires tx.phase == UpdateAccount(1) && tx.op.Transfer? && Admitted(db, tx) && n >= 4
    requires tx.writes.Keys == {tx.op.source} && tx.writes[tx.op.source].version == tx.snapshot[0].version + 1
    ensures Right(db, tx.op, Sequel(db, tx, n))
  {
    SecondUpdate(db, tx);
    if DistinctLegs(tx.op) {
      RecordEnds(db, NextAlone(db, tx), n - 1);
    }
  }

  lemma FirstUpdateEnds(db: Db, tx: Tx, n: nat)
    requires tx.phase == UpdateAccount(0) && tx.writes == map[] && Admitted(db, tx) && n >= 5
    ensures Right(db, tx.op, Sequel(db, tx, n))
  {
    FirstUpdate(db, tx);
    if tx.op.Transfer? {
      SecondUpdateEnds(db, NextAlone(db, tx), n - 1);
    } else {
      RecordEnds(db, NextAlone(db, tx), n - 1);
    }
  }

  /** The rows read so far are those of the first accounts, which exist and are active. */
  predicate ReadSoFar(db: Db, tx: Tx) {
    tx.snapshot == [] ||
    (|tx.snapshot| == 1 && AccountError(db, Legs(tx.op)[0].account).None?
     && tx.snapshot[0] == db.books.rows[Legs(tx.op)[0].account])
  }

  /** The call has read its record, and no duplicate was found. */
  ghost predicate Reading(db: Db, tx: Tx) {
    && tx.phase.ReadAccount? && FoundRecord(db, tx) && !Settled(db, tx.op.key) && ReadSoFar(db, tx)
    && tx.writes == map[] && !tx.created && tx.entries == []
  }

  /** The last account read decides as `Execute` does. */
  lemma LastReadDecides(db: Db, tx: Tx)
    requires Reading(db, tx) && |tx.snapshot| == |Legs(tx.op)| - 1
    ensures var next := DoReadAccount(db, tx);
            && next.op == tx.op
            && if next.phase.Finished? then Execute(db, tx.op) == (db, next.phase.outcome)
               else next.phase == UpdateAccount(0) && next.writes == map[] && Admitted(db, next)
  {
    var legs := Legs(tx.op);
    var last := legs[|legs| - 1].account;
    if AccountError(db, last).None? {
      var read := tx.snapshot + [db.books.rows[last]];
      assert InRange(db.books, tx.op);
      assert forall j :: 0 <= j < |legs| ==> read[j] == db.books.rows[legs[j].account];
      assert Funded(db.books, tx.op) == SnapshotFunded(tx.(snapshot := read));
    }
  }

  lemma LastReadEnds(db: Db, tx: Tx, n: nat)
    requires Reading(db, tx) && |tx.snapshot| == |Legs(tx.op)| - 1 && n >= 6
    ensures Right(db, tx.op, Sequel(db, tx, n))
  {
    LastReadDecides(db, tx);
    var next := NextAlone(db, tx);
    if !next.phase.Finished? {
      FirstUpdateEnds(db, next, n - 1);
    }
  }

  /** The first of two account reads. */
  lemma FirstReadDecides(db: Db, tx: Tx)
    requires Reading(db, tx) && tx.snapshot == [] && |Legs(tx.op)| == 2
    ensures var next := DoReadAccount(db, tx);
            && next.op == tx.op
            && if next.phase.Finished? then Execute(db, tx.op) == (db, next.phase.outcome)
               else Reading(db, next) && |next.snapshot| == 1
  {
  }

  lemma ReadsEnd(db: Db, tx: Tx, n: nat)
    requires Reading(db, tx) && tx.snapshot == [] && n >= 7
    ensures Right(db, tx.op, Sequel(db, tx, n))
  {
    if |Legs(tx.op)| == 1 {
      LastReadEnds(db, tx, n);
    } else {
      FirstReadDecides(db, tx);
      var next := NextAlone(db, tx);
      if !next.phase.Finished? {
        LastReadEnds(db, next, n - 1);
      }
    }
  }

  function Begun(op: Op): Tx {
    Tx(op, ReadRecord, None, [], map[], false, [])
  }

  /** Eight statements bring a call that nobody disturbs where `Execute` says. */
  lemma CallEnds(db: Db, op: Op, n: nat)
    requires n >= 8
    ensures Right(db, op, Sequel(db, Begun(op), n))
  {
    var next := NextAlone(db, Begun(op));
    if !next.phase.Finished? {
      ReadsEnd(db, next, n - 1);
    }
  }

  // ---------------------------------------------------------------- in a world where nobody else runs

  /** No running call: every call so far has ended. */
  ghost predicate Quiescent(w: World) {
    Inv(w) && forall t :: t in w.txs ==> w.txs[t].phase.Finished?
  }

  /** The worlds that the statements of one call lead through. */
  ghost predicate Path(path: seq<World>, t: TxId) {
    path != [] && forall i :: 0 <= i < |path| - 1 ==> path[i + 1] == Step(path[i], Advance(t))
  }

  lemma PathPrepend(w: World, t: TxId, rest: seq<World>)
    requires Path(rest, t) && rest[0] == Step(w, Advance(t))
    ensures Path([w] + rest, t)
  {
    var path := [w] + rest;
    forall i | 0 <= i < |path| - 1 ensures path[i + 1] == Step(path[i], Advance(t)) {
      if i > 0 {
        assert path[i] == rest[i - 1] && path[i + 1] == rest[i];
        assert rest[i - 1 + 1] == Step(rest[i - 1], Advance(t));
      }
    }
  }

  lemma PathAppend(path: seq<World>, t: TxId)
    requires Path(path, t)
    ensures Path(path + [Step(path[|path| - 1], Advance(t))], t)
  {
    var longer := path + [Step(path[|path| - 1], Advance(t))];
    forall i | 0 <= i < |longer| - 1 ensures longer[i + 1] == Step(longer[i], Advance(t)) {
      assert longer[i] == path[i];
      if i < |path| - 1 {
        assert longer[i + 1] == path[i + 1];
      }
    }
  }

  /** `w` has this call, in state `tx`, and nobody else holds anything. */
  ghost predicate Solo(w: World, t: TxId, tx: Tx) {
    && Inv(w) && t in w.txs && w.txs[t] == tx
    && (forall u :: u in w.txs && u != t ==> w.txs[u].writes == map[] && !w.txs[u].created)
  }

  lemma NobodyHolds(w: World, t: TxId, tx: Tx)
    requires Solo(w, t, tx)
    ensures forall account :: !RowHeldByOther(w, t, account)
    ensures forall key :: !KeyHeldByOther(w, t, key)
  {
  }

  lemma AdvanceAlone(w: World, t: TxId, tx: Tx)
    requires Solo(w, t, tx) && !tx.phase.Ready?
    ensures Solo(Step(w, Advance(t)), t, NextAlone(w.db, tx)) && Step(w, Advance(t)).db == w.db
  {
    assert NextTx(w, t) == NextAlone(w.db, tx) by {
      NobodyHolds(w, t, tx);
    }
    LocalStepKeepsInv(w, t);
  }

  /** The path has led the call to this state, and nothing else has changed. */
  ghost predicate Leads(path: seq<World>, t: TxId, db: Db, tx: Tx) {
    Path(path, t) && Solo(path[|path| - 1], t, tx) && path[|path| - 1].db == db
  }

  lemma LeadsOn(w: World, t: TxId, rest: seq<World>, db: Db, tx: Tx)
    requires Leads(rest, t, db, tx) && rest[0] == Step(w, Advance(t))
    ensures Leads([w] + rest, t, db, tx)
  {
    PathPrepend(w, t, rest);
    assert ([w] + rest)[|rest|] == rest[|rest| - 1];
  }

  /** One statement, and what it means for the statements after it. */
  lemma OneStatement(w: World, t: TxId, tx: Tx, n: nat, last: Tx) returns (next: World, tx': Tx)
    requires Solo(w, t, tx) && !tx.phase.Ready? && !tx.phase.Finished? && Comes(w.db, tx, n + 1, last)
    ensures Solo(next, t, tx') && next.db == w.db && Comes(w.db, tx', n, last)
    ensures forall rest :: Leads(rest, t, w.db, last) && rest[0] == next ==> Leads([w] + rest, t, w.db, last)
  {
    AdvanceAlone(w, t, tx);
    next, tx' := Step(w, Advance(t)), NextAlone(w.db, tx);
    forall rest | Leads(rest, t, w.db, last) && rest[0] == next ensures Leads([w] + rest, t, w.db, last) {
      LeadsOn(w, t, rest, w.db, last);
    }
  }

  lemma Stops(db: Db, tx: Tx, n: nat, last: Tx)
    requires Comes(db, tx, n, last) && (n == 0 || tx.phase.Ready? || tx.phase.Finished?)
    ensures last == tx
  {
  }

  /** The world follows the call. */
  lemma {:induction false} SoloFollows(w: World, t: TxId, tx: Tx, n: nat, last: Tx) returns (path: seq<World>)
    requires Solo(w, t, tx) && Comes(w.db, tx, n, last)
    ensures path != [] && path[0] == w && |path| <= n + 1 && Leads(path, t, w.db, last)
    decreases n
  {
    if n == 0 || tx.phase.Ready? || tx.phase.Finished? {
      Stops(w.db, tx, n, last);
      path := [w];
    } else {
      var next, tx' := OneStatement(w, t, tx, n - 1, last);
      path := SoloFollows(next, t, tx', n - 1, last);
      path := [w] + path;
    }
  }

  lemma BeginsSolo(w: World, t: TxId, op: Op)
    requires Quiescent(w) && t !in w.txs
    ensures Solo(Step(w, Begin(t, op)), t, Begun(op)) && Step(w, Begin(t, op)).db == w.db
  {
    var next := Step(w, Begin(t, op));
    BeginKeepsInv(w, t, op);
    forall u | u in next.txs && u != t ensures next.txs[u].writes == map[] && !next.txs[u].created {
      assert TxOk(w.db, w.txs[u]);
      assert w.txs[u].writes.Keys == {};
    }
  }

  /** The call is over: these are the tables and the outcome. */
  ghost predicate Ends(w: World, t: TxId, db: Db, outcome: Outcome) {
    w.db == db && t in w.txs && w.txs[t].phase == Finished(outcome)
  }

  lemma CommitsAlone(w: World, t: TxId, tx: Tx, op: Op)
    requires Solo(w, t, tx) && tx.phase.Ready? && Right(w.db, op, tx)
    ensures Ends(Step(w, Advance(t)), t, Execute(w.db, op).0, Execute(w.db, op).1)
  {
    CommitIsPost(w, t);
    assert Commit(w, t).db == Booked(w.db, op);
  }

  /** A call that nobody interrupts ends, within nine statements, exactly as `Execute` says. */
  lemma SoloRun(w: World, t: TxId, op: Op) returns (path: seq<World>)
    requires Quiescent(w) && t !in w.txs
    ensures Path(path, t) && path[0] == Step(w, Begin(t, op)) && |path| <= 10
    ensures Ends(path[|path| - 1], t, Execute(w.db, op).0, Execute(w.db, op).1)
  {
    var statements := 8;
    BeginsSolo(w, t, op);
    CallEnds(w.db, op, statements);
    path := SoloFollows(Step(w, Begin(t, op)), t, Begun(op), statements, Sequel(w.db, Begun(op), statements));
    var last := path[|path| - 1];
    if last.txs[t].phase.Ready? {
      CommitsAlone(last, t, last.txs[t], op);
      PathAppend(path, t);
      path := path + [Step(last, Advance(t))];
    }
  }
}
