/**
 The repository's three operations as they are written: one interactive transaction
 each, an await before every statement, rows written and errors thrown in sequence.

 A schedule says what other calls and the environment do during each await.  Each
 operation is proved to be one call of the machine in module Ledger: what it leaves in
 the database and what it answers are the machine's, on the trace that its own statements
 and the schedule make up, one statement after each await and more awaits only while the
 statement is blocked.
 */
module LedgerStore {
  import opened Wrappers
  import opened Ledger
  import opened LedgerWaits
  import opened LedgerOutcomes

  /** An event of another call, or of the environment. */
  predicate Elsewhere(e: Event, t: TxId) {
    match e
    case Begin(u, _) => u != t
    case Advance(u) => u != t
    case Crash(u) => u != t
    case _ => true
  }

  /** All that other calls can notice of a transaction. */
  predicate SameLocks(a: Tx, b: Tx) {
    a.op == b.op && a.writes == b.writes && a.created == b.created
  }

  lemma SameRowsHeld(w: World, t: TxId, a: Tx, b: Tx, u: TxId, account: nat)
    requires SameLocks(a, b) && u != t
    ensures RowHeldByOther(With(w, t, a), u, account) <==> RowHeldByOther(With(w, t, b), u, account)
  {
    var wa, wb := With(w, t, a), With(w, t, b);
    assert forall x :: x in wa.txs <==> x in wb.txs;
    assert forall x :: x in wa.txs ==> wa.txs[x].writes == wb.txs[x].writes;
  }

  lemma SameKeysHeld(w: World, t: TxId, a: Tx, b: Tx, u: TxId, key: Key)
    requires SameLocks(a, b) && u != t
    ensures KeyHeldByOther(With(w, t, a), u, key) <==> KeyHeldByOther(With(w, t, b), u, key)
  {
    var wa, wb := With(w, t, a), With(w, t, b);
    assert forall x :: x in wa.txs <==> x in wb.txs;
    assert forall x :: x in wa.txs ==> wa.txs[x].created == wb.txs[x].created && wa.txs[x].op == wb.txs[x].op;
  }

  lemma SameNext(w: World, t: TxId, a: Tx, b: Tx, u: TxId)
    requires SameLocks(a, b) && u != t && u in w.txs
    ensures NextTx(With(w, t, a), u) == NextTx(With(w, t, b), u)
  {
    var tx := w.txs[u];
    if tx.phase.UpdateAccount? && tx.phase.leg < |Legs(tx.op)| {
      SameRowsHeld(w, t, a, b, u, Legs(tx.op)[tx.phase.leg].account);
    }
    SameKeysHeld(w, t, a, b, u, tx.op.key);
  }

  lemma SamePending(w: World, t: TxId, a: Tx, b: Tx, key: Key)
    requires SameLocks(a, b)
    ensures Step(With(w, t, a), CreatePending(key)).db == Step(With(w, t, b), CreatePending(key)).db
  {
    var wa, wb := With(w, t, a), With(w, t, b);
    assert forall x :: x in wa.txs <==> x in wb.txs;
    assert forall x :: x in wa.txs ==> wa.txs[x].created == wb.txs[x].created && wa.txs[x].op == wb.txs[x].op;
  }

  /** A world with the call in one state or in another, and otherwise the same. */
  ghost predicate SameBut(wa: World, wb: World, t: TxId, a: Tx, b: Tx) {
    && wa.db == wb.db && wa.log == wb.log && wa.txs == wa.txs[t := a]
    && wb.txs == wa.txs[t := b]
  }

  lemma AdvanceElsewhere(w: World, t: TxId, a: Tx, b: Tx, u: TxId)
    requires t !in w.txs && SameLocks(a, b) && u != t
    ensures SameBut(Step(With(w, t, a), Advance(u)), Step(With(w, t, b), Advance(u)), t, a, b)
  {
    if u in w.txs {
      SameNext(w, t, a, b, u);
    }
  }

  lemma BeginOrCrashElsewhere(w: World, t: TxId, a: Tx, b: Tx, e: Event)
    requires t !in w.txs && (e.Begin? || e.Crash?) && e.tx != t
    ensures SameBut(Step(With(w, t, a), e), Step(With(w, t, b), e), t, a, b)
  {
  }

  lemma EnvironmentElsewhere(w: World, t: TxId, a: Tx, b: Tx, e: Event)
    requires t !in w.txs && SameLocks(a, b) && !e.Begin? && !e.Advance? && !e.Crash?
    ensures SameBut(Step(With(w, t, a), e), Step(With(w, t, b), e), t, a, b)
  {
    if e.CreatePending? {
      SamePending(w, t, a, b, e.key);
    }
    assert With(w, t, b).txs == With(w, t, a).txs[t := b];
  }

  /** What happens elsewhere depends on a transaction only through its locks, and leaves it alone. */
  lemma StepElsewhere(w: World, t: TxId, a: Tx, b: Tx, e: Event)
    requires t !in w.txs && SameLocks(a, b) && Elsewhere(e, t)
    ensures var wa, wb := Step(With(w, t, a), e), Step(With(w, t, b), e);
            wb == With(World(wa.db, wa.txs - {t}, wa.log), t, b)
  {
    match e
    case Begin(_, _) => BeginOrCrashElsewhere(w, t, a, b, e);
    case Advance(u) => AdvanceElsewhere(w, t, a, b, u);
    case Crash(_) => BeginOrCrashElsewhere(w, t, a, b, e);
    case _ => EnvironmentElsewhere(w, t, a, b, e);
    SameButWith(Step(With(w, t, a), e), Step(With(w, t, b), e), t, a, b);
  }

  lemma SameButWith(wa: World, wb: World, t: TxId, a: Tx, b: Tx)
    requires SameBut(wa, wb, t, a, b)
    ensures wb == With(World(wa.db, wa.txs - {t}, wa.log), t, b)
  {
    assert (wa.txs - {t})[t := b] == wa.txs[t := b];
  }

  lemma SameRowCount(w: World, e: Event)
    ensures |Step(w, e).db.books.rows| == |w.db.books.rows|
  {
  }

  lemma NextTxOp(w: World, t: TxId)
    requires t in w.txs
    ensures NextTx(w, t).op == w.txs[t].op
  {
  }

  // ---------------------------------------------------------------- what a call lives through

  /** What happens elsewhere while statement `k` of a call awaits for the `n`-th time. */
  type Schedule = nat -> nat -> seq<Event>

  ghost predicate Foreign(s: Schedule, t: TxId) {
    forall k, n, i :: 0 <= i < |s(k)(n)| ==> Elsewhere(s(k)(n)[i], t)
  }

  /** What happens while statement `k` awaits `n` times. */
  function Awaited(s: Schedule, k: nat, n: nat): seq<Event> {
    if n == 0 then [] else Awaited(s, k, n - 1) + s(k)(n - 1)
  }

  /** The trace of a call whose statement `k` awaited `waits[k]` times and then was made. */
  function Told(s: Schedule, t: TxId, op: Op, waits: seq<nat>): seq<Event>
    decreases |waits|
  {
    if waits == [] then [Begin(t, op)]
    else
      var k := |waits| - 1;
      Told(s, t, op, waits[..k]) + Awaited(s, k, waits[k]) + [Advance(t)]
  }

  /** After each await but the last of these, statement `k` was blocked. */
  ghost predicate Looked(blocked: seq<Event> -> bool, before: seq<Event>, s: Schedule, k: nat, n: nat) {
    forall m :: 1 <= m < n ==> blocked(before + Awaited(s, k, m))
  }

  /** Each statement awaited at least once, again only while it was blocked, and went on as soon as it was not. */
  ghost predicate Heeds(blocked: seq<Event> -> bool, s: Schedule, t: TxId, op: Op, patience: nat, waits: seq<nat>)
    decreases |waits|
  {
    waits == [] || (
      var k := |waits| - 1;
      var before := Told(s, t, op, waits[..k]);
      && Heeds(blocked, s, t, op, patience, waits[..k])
      && 1 <= waits[k] <= patience + 1
      && Looked(blocked, before, s, k, waits[k])
      && !blocked(before + Awaited(s, k, waits[k])))
  }

  /** The trace so far: the statements made, and the awaits of the one to come. */
  ghost predicate Follows(blocked: seq<Event> -> bool, s: Schedule, t: TxId, op: Op, patience: nat,
                          waits: seq<nat>, looks: nat, trace: seq<Event>)
  {
    && Heeds(blocked, s, t, op, patience, waits) && looks <= patience + 1
    && Looked(blocked, Told(s, t, op, waits), s, |waits|, looks)
    && trace == Told(s, t, op, waits) + Awaited(s, |waits|, looks)
  }

  lemma FollowsBegin(blocked: seq<Event> -> bool, s: Schedule, t: TxId, op: Op, patience: nat)
    ensures Follows(blocked, s, t, op, patience, [], 0, [Begin(t, op)])
  {
    assert Told(s, t, op, []) + Awaited(s, 0, 0) == [Begin(t, op)];
  }

  lemma FollowsAwait(blocked: seq<Event> -> bool, s: Schedule, t: TxId, op: Op, patience: nat,
                     waits: seq<nat>, looks: nat, trace: seq<Event>)
    requires Follows(blocked, s, t, op, patience, waits, looks, trace) && looks <= patience
    requires looks > 0 ==> blocked(trace)
    ensures Follows(blocked, s, t, op, patience, waits, looks + 1, trace + s(|waits|)(looks))
  {
    var told := Told(s, t, op, waits);
    assert told + Awaited(s, |waits|, looks + 1) == trace + s(|waits|)(looks);
  }

  lemma FollowsAdvance(blocked: seq<Event> -> bool, s: Schedule, t: TxId, op: Op, patience: nat,
                       waits: seq<nat>, looks: nat, trace: seq<Event>)
    requires Follows(blocked, s, t, op, patience, waits, looks, trace) && looks >= 1 && !blocked(trace)
    ensures Follows(blocked, s, t, op, patience, waits + [looks], 0, trace + [Advance(t)])
  {
    var more := waits + [looks];
    assert more[..|waits|] == waits;
    assert Told(s, t, op, more) == trace + [Advance(t)];
    assert Told(s, t, op, more) + Awaited(s, |more|, 0) == trace + [Advance(t)];
  }

  /**
   The schedule decides: of two ways to live through the same one, one is the beginning of
   the other.
   */
  lemma {:induction false} HeedsUnique(blocked: seq<Event> -> bool, s: Schedule, t: TxId, op: Op, patience: nat,
                                       a: seq<nat>, b: seq<nat>)
    requires Heeds(blocked, s, t, op, patience, a) && Heeds(blocked, s, t, op, patience, b) && |a| <= |b|
    ensures a == b[..|a|]
  {
    HeedsAgree(blocked, s, t, op, patience, a, b, |a|);
    assert a[..|a|] == a;
  }

  lemma {:induction false} HeedsAgree(blocked: seq<Event> -> bool, s: Schedule, t: TxId, op: Op, patience: nat,
                                      a: seq<nat>, b: seq<nat>, n: nat)
    requires Heeds(blocked, s, t, op, patience, a) && Heeds(blocked, s, t, op, patience, b) && n <= |a| && n <= |b|
    ensures a[..n] == b[..n]
  {
    if n > 0 {
      HeedsAgree(blocked, s, t, op, patience, a, b, n - 1);
      HeedsSoFar(blocked, s, t, op, patience, a, n);
      HeedsSoFar(blocked, s, t, op, patience, b, n);
      SameOneMore(blocked, s, t, op, patience, a[..n], b[..n], a[..n - 1], b[..n - 1]);
    }
  }

  lemma {:induction false} HeedsSoFar(blocked: seq<Event> -> bool, s: Schedule, t: TxId, op: Op, patience: nat,
                                      waits: seq<nat>, n: nat)
    requires Heeds(blocked, s, t, op, patience, waits) && n <= |waits|
    ensures Heeds(blocked, s, t, op, patience, waits[..n])
    decreases |waits|
  {
    if n < |waits| {
      var before := waits[..|waits| - 1];
      HeedsSoFar(blocked, s, t, op, patience, before, n);
      assert before[..n] == waits[..n];
    } else {
      assert waits[..n] == waits;
    }
  }

  lemma SameOneMore(blocked: seq<Event> -> bool, s: Schedule, t: TxId, op: Op, patience: nat,
                    a: seq<nat>, b: seq<nat>, a': seq<nat>, b': seq<nat>)
    requires Heeds(blocked, s, t, op, patience, a) && Heeds(blocked, s, t, op, patience, b)
    requires |a| == |b| > 0 && a' == a[..|a| - 1] && b' == b[..|b| - 1] && a' == b'
    ensures a == b
  {
    SameLastWait(blocked, s, t, op, patience, a, b);
    assert a == a' + [a[|a| - 1]] && b == b' + [b[|b| - 1]];
  }

  lemma SameLastWait(blocked: seq<Event> -> bool, s: Schedule, t: TxId, op: Op, patience: nat,
                     a: seq<nat>, b: seq<nat>)
    requires Heeds(blocked, s, t, op, patience, a) && Heeds(blocked, s, t, op, patience, b)
    requires |a| == |b| > 0 && a[..|a| - 1] == b[..|a| - 1]
    ensures a[|a| - 1] == b[|a| - 1]
  {
    var k := |a| - 1;
    SameWait(blocked, Told(s, t, op, a[..k]), s, k, a[k], b[k]);
  }

  lemma SameWait(blocked: seq<Event> -> bool, before: seq<Event>, s: Schedule, k: nat, m: nat, n: nat)
    requires 1 <= m && Looked(blocked, before, s, k, m) && !blocked(before + Awaited(s, k, m))
    requires 1 <= n && Looked(blocked, before, s, k, n) && !blocked(before + Awaited(s, k, n))
    ensures m == n
  {
  }

  /** The row, version and balance of the update that the call has come to. */
  predicate IsUpdate(tx: Tx, account: nat, version: int, balance: int)
    requires tx.phase.UpdateAccount?
  {
    var i := tx.phase.leg;
    && i < |Legs(tx.op)| && i < |tx.snapshot| && account == Legs(tx.op)[i].account
    && version == tx.snapshot[i].version
    && balance == tx.snapshot[i].balance + Signed(Legs(tx.op)[i].kind, tx.op.amount)
  }

  /** The call after a successful update. */
  function Written(tx: Tx, account: nat, version: int, balance: int): Tx
    requires tx.phase.UpdateAccount?
  {
    tx.(writes := tx.writes[account := Row(balance, version + 1)],
        phase := if tx.phase.leg + 1 < |Legs(tx.op)| then UpdateAccount(tx.phase.leg + 1) else InsertRecord)
  }

  /** A missing or inactive account ends the operation. */
  lemma ReadFails(db: Db, tx: Tx)
    requires tx.phase.ReadAccount? && |tx.snapshot| < |Legs(tx.op)|
    requires AccountError(db, Legs(tx.op)[|tx.snapshot|].account).Some?
    ensures FailsWith(DoReadAccount(db, tx), AccountError(db, Legs(tx.op)[|tx.snapshot|].account).value)
  {
  }

  /** The first of two accounts is read; the operation goes on to the second. */
  lemma ReadsFirst(db: Db, tx: Tx)
    requires tx.phase.ReadAccount? && tx.op.Transfer? && tx.snapshot == [] && AccountError(db, tx.op.source).None?
    ensures DoReadAccount(db, tx) == tx.(snapshot := [db.books.rows[tx.op.source]])
  {
    assert Legs(tx.op)[0].account == tx.op.source;
  }

  /** The second is read, and the first must cover the amount. */
  lemma ReadsSecond(db: Db, tx: Tx)
    requires tx.phase.ReadAccount? && tx.op.Transfer? && |tx.snapshot| == 1 && AccountError(db, tx.op.target).None?
    ensures var read := tx.(snapshot := [tx.snapshot[0], db.books.rows[tx.op.target]]);
            DoReadAccount(db, tx) ==
              if tx.snapshot[0].balance < tx.op.amount then Fail(read, InsufficientFunds)
              else read.(phase := UpdateAccount(0))
  {
    var read := tx.(snapshot := tx.snapshot + [db.books.rows[tx.op.target]]);
    assert Legs(tx.op)[1].account == tx.op.target;
    assert read.snapshot == [tx.snapshot[0], db.books.rows[tx.op.target]];
    assert SnapshotFunded(read) <==> tx.op.amount <= read.snapshot[0].balance by {
      assert Legs(tx.op)[0].kind == Debit && Legs(tx.op)[1].kind == Credit;
    }
  }

  /** The one account is read, and must cover a withdrawal. */
  lemma ReadsOnly(db: Db, tx: Tx)
    requires tx.phase.ReadAccount? && !tx.op.Transfer? && tx.snapshot == [] && AccountError(db, tx.op.account).None?
    ensures var row := db.books.rows[tx.op.account];
            DoReadAccount(db, tx) ==
              if tx.op.Withdrawal? && row.balance < tx.op.amount then Fail(tx.(snapshot := [row]), InsufficientFunds)
              else tx.(snapshot := [row], phase := UpdateAccount(0))
  {
    var row := db.books.rows[tx.op.account];
    var read := tx.(snapshot := tx.snapshot + [row]);
    assert Legs(tx.op)[0].account == tx.op.account;
    assert read.snapshot == [row];
    assert SnapshotFunded(read) <==> (tx.op.Withdrawal? ==> tx.op.amount <= row.balance) by {
      assert Legs(tx.op)[0].kind == if tx.op.Withdrawal? then Debit else Credit;
    }
  }

  /** A call that has failed holds nothing. */
  predicate FailsWith(tx: Tx, error: Error) {
    tx.phase == Finished(Aborted(error)) && tx.writes == map[] && !tx.created && tx.entries == []
  }

  // ---------------------------------------------------------------- the machine, with this call apart

  function Around(db: Db, others: map<TxId, Tx>, log: seq<Op>, t: TxId, call: Tx): World {
    World(db, others[t := call], log)
  }

  lemma MachineAdvances(db: Db, others: map<TxId, Tx>, log: seq<Op>, t: TxId, call: Tx,
                        start: World, trace: seq<Event>)
    requires Around(db, others, log, t, call) == Run(start, trace) && !call.phase.Ready?
    ensures var next := NextTx(Around(db, others, log, t, call), t);
            Around(db, others, log, t, next) == Run(start, trace + [Advance(t)]) && next.op == call.op
  {
    var w := Around(db, others, log, t, call);
    RunOne(start, trace, Advance(t));
    NextTxOp(w, t);
    assert others[t := call][t := NextTx(w, t)] == others[t := NextTx(w, t)];
  }

  lemma MachineCrashes(db: Db, others: map<TxId, Tx>, log: seq<Op>, t: TxId, call: Tx,
                       start: World, trace: seq<Event>)
    requires Around(db, others, log, t, call) == Run(start, trace) && !call.phase.Finished?
    ensures Around(db, others, log, t, Fail(call, Crashed)) == Run(start, trace + [Crash(t)])
  {
    RunOne(start, trace, Crash(t));
    assert others[t := call][t := Fail(call, Crashed)] == others[t := Fail(call, Crashed)];
  }

  /** A call that has committed. */
  function AfterCommit(call: Tx): Tx {
    call.(phase := Finished(Committed), writes := map[], created := false, entries := [])
  }

  lemma MachineCommits(db: Db, others: map<TxId, Tx>, log: seq<Op>, t: TxId, call: Tx,
                       start: World, trace: seq<Event>)
    requires Around(db, others, log, t, call) == Run(start, trace) && call.phase.Ready?
    ensures var books := Books(Merge(db.books.rows, call.writes), db.books.entries + call.entries);
            var records := if call.created then db.records[call.op.key := NewRecord(call.op)] else db.records;
            Around(Db(books, db.standing, records), others, log + [call.op], t, AfterCommit(call))
            == Run(start, trace + [Advance(t)])
  {
    RunOne(start, trace, Advance(t));
    assert others[t := call][t := AfterCommit(call)] == others[t := AfterCommit(call)];
  }

  lemma MachineHappens(db: Db, others: map<TxId, Tx>, log: seq<Op>, t: TxId, seen: Tx, call: Tx, e: Event,
                       start: World, trace: seq<Event>)
    requires Around(db, others, log, t, call) == Run(start, trace) && t !in others
    requires SameLocks(seen, call) && Elsewhere(e, t)
    ensures var w := Step(Around(db, others, log, t, seen), e);
            && Around(w.db, w.txs - {t}, w.log, t, call) == Run(start, trace + [e])
            && |w.db.books.rows| == |db.books.rows|
  {
    StepElsewhere(World(db, others, log), t, seen, call, e);
    SameRowCount(Around(db, others, log, t, seen), e);
    RunOne(start, trace, e);
  }

  datatype Account = Account(row: Row, standing: Standing)

  /** One interactive transaction, and the database it runs on. */
  class Session {
    const t: TxId
    const op: Op
    // What happens elsewhere while it awaits.
    const meanwhile: Schedule
    // How often a blocked statement looks again before the transaction times out.
    const patience: nat

    // The committed tables, the other running transactions, and the commits so far.
    var db: Db
    var others: map<TxId, Tx>
    var log: seq<Op>

    // This transaction's uncommitted writes.
    var writes: map<nat, Row>
    var record: Option<Record>
    var entries: seq<Entry>

    // Statements made, and awaits of the one to come.
    var statement: nat
    var looks: nat

    // The machine: where it began, what has happened, and where this call stands.
    ghost const start: World
    ghost const run: seq<Event> -> World
    ghost const blocked: seq<Event> -> bool
    ghost const follows: (seq<nat>, nat, seq<Event>) -> bool
    ghost var trace: seq<Event>
    ghost var call: Tx
    ghost var waits: seq<nat>

    ghost function Machine(): World
      reads this
    {
      Around(db, others, log, t, call)
    }

    /**
     What the three functions mean: where the machine is after a trace, whether this call is
     then blocked, and whether the trace is the schedule's.
     */
    ghost predicate Knows() {
      && (forall es {:trigger Run(start, es)} ::
            run(es) == Run(start, es) && (blocked(es) <==> Waiting(Run(start, es), t)))
      && (forall ws, n: nat, es {:trigger Follows(blocked, meanwhile, t, op, patience, ws, n, es)} ::
            follows(ws, n, es) <==> Follows(blocked, meanwhile, t, op, patience, ws, n, es))
    }

    ghost predicate OnTrace()
      reads this
    {
      t !in others && call.op == op && Foreign(meanwhile, t) && Knows() && Machine() == run(trace)
    }

    ghost predicate OnSchedule()
      reads this
    {
      statement == |waits| && looks <= patience + 1 && follows(waits, looks, trace)
    }

    /** What this transaction has written is what the machine says it has. */
    ghost predicate WroteAs(tx: Tx)
      reads this
    {
      && tx.writes == writes && tx.created == record.Some? && tx.entries == entries
      && (record.Some? ==> record.value == NewRecord(op))
    }

    ghost predicate Valid()
      reads this
    {
      OnTrace() && OnSchedule() && WroteAs(call)
    }

    /** It gave up on a statement that was still blocked when patience ended. */
    ghost predicate GaveUp()
      reads this
    {
      trace != [] && (
        var before := trace[..|trace| - 1];
        && trace[|trace| - 1] == Crash(t) && looks == patience + 1 && statement == |waits|
        && follows(waits, looks, before) && blocked(before))
    }

    /**
     The call is over: this is its outcome, and it holds nothing any more.  What has happened
     is its statements and the schedule's awaits of them, down to the last one, or down to
     where it gave up.
     */
    ghost predicate Ended(outcome: Outcome)
      reads this
    {
      && OnTrace() && call.phase == Finished(outcome) && WroteAs(call)
      && writes == map[] && record.None? && entries == []
      && if outcome == Aborted(Crashed) then GaveUp() else OnSchedule() && looks == 0
    }

    constructor (t: TxId, op: Op, meanwhile: Schedule, patience: nat, db: Db, others: map<TxId, Tx>, log: seq<Op>)
      requires t !in others && Foreign(meanwhile, t)
      ensures this.t == t && this.op == op && this.meanwhile == meanwhile && this.patience == patience
      ensures start == World(db, others, log) && Fresh()
    {
      this.t, this.op, this.meanwhile, this.patience := t, op, meanwhile, patience;
      this.db, this.others, this.log := db, others, log;
      writes, record, entries := map[], None, [];
      statement, looks := 0, 0;
      var initial := World(db, others, log);
      start := initial;
      run := es => Run(initial, es);
      var stuck := es => Waiting(Run(initial, es), t);
      blocked := stuck;
      follows := (ws: seq<nat>, n: nat, es: seq<Event>) => Follows(stuck, meanwhile, t, op, patience, ws, n, es);
      trace := [Begin(t, op)];
      call := Tx(op, ReadRecord, None, [], map[], false, []);
      waits := [];
      new;
      RunOne(start, [], Begin(t, op));
      assert [] + [Begin(t, op)] == [Begin(t, op)];
      FollowsBegin(blocked, meanwhile, t, op, patience);
      assert Follows(blocked, meanwhile, t, op, patience, waits, looks, trace);
    }

    /** The call has begun, and nothing more. */
    ghost predicate Fresh()
      reads this
    {
      Valid() && waits == [] && looks == 0 && call == Tx(op, ReadRecord, None, [], map[], false, [])
    }

    /** A trace leaves the call blocked when the machine, run on it, has it waiting. */
    lemma BlockedMeans(es: seq<Event>)
      requires Knows()
      ensures blocked(es) <==> Waiting(Run(start, es), t)
    {
      assert run(es) == Run(start, es);
    }

    /** An operation that has ended is a call that has ended in the machine, run on the trace. */
    lemma EndedInMachine(outcome: Outcome)
      requires Ended(outcome)
      ensures Run(start, trace) == Around(db, others, log, t, call) && call.phase == Finished(outcome)
    {
      assert run(trace) == Run(start, trace);
    }

    /**
     What it has lived through: its statements, and before each the schedule's awaits of it,
     one unless it was blocked; or, when it gave up, as many more awaits as its patience
     allows, and still blocked.
     */
    lemma EndedOnSchedule(outcome: Outcome)
      requires Ended(outcome)
      ensures Heeds(blocked, meanwhile, t, op, patience, waits)
      ensures var told := Told(meanwhile, t, op, waits);
              if outcome != Aborted(Crashed) then trace == told
              else
                var last := told + Awaited(meanwhile, |waits|, patience + 1);
                trace == last + [Crash(t)] && blocked(last)
                && Looked(blocked, told, meanwhile, |waits|, patience + 1)
    {
      if outcome == Aborted(Crashed) {
        assert Follows(blocked, meanwhile, t, op, patience, waits, looks, trace[..|trace| - 1]);
      } else {
        assert Follows(blocked, meanwhile, t, op, patience, waits, looks, trace);
      }
    }

    /** Something happens elsewhere. */
    method Happen(e: Event)
      requires OnTrace() && WroteAs(call) && Elsewhere(e, t)
      modifies this`db, this`others, this`log, this`trace
      ensures OnTrace() && trace == old(trace) + [e] && |db.books.rows| == old(|db.books.rows|)
    {
      EventIsNext(e);
      var w := Step(World(db, others[t := Locks()], log), e);
      db, others, log := w.db, w.txs - {t}, w.log;
      trace := trace + [e];
    }

    /** What other calls see of this transaction. */
    function Locks(): Tx
      reads this
    {
      Tx(op, ReadRecord, None, [], writes, record.Some?, [])
    }

    lemma EventIsNext(e: Event)
      requires OnTrace() && WroteAs(call) && Elsewhere(e, t)
      ensures var w := Step(World(db, others[t := Locks()], log), e);
              && Around(w.db, w.txs - {t}, w.log, t, call) == run(trace + [e])
              && |w.db.books.rows| == |db.books.rows|
    {
      assert Machine() == Run(start, trace);
      MachineHappens(db, others, log, t, Locks(), call, e, start, trace);
      assert run(trace + [e]) == Run(start, trace + [e]);
    }

    method HappenAll(es: seq<Event>)
      requires OnTrace() && WroteAs(call) && forall i :: 0 <= i < |es| ==> Elsewhere(es[i], t)
      modifies this`db, this`others, this`log, this`trace
      ensures OnTrace() && trace == old(trace) + es && |db.books.rows| == old(|db.books.rows|)
    {
      for i := 0 to |es|
        invariant OnTrace() && trace == old(trace) + es[..i] && |db.books.rows| == old(|db.books.rows|)
      {
        Happen(es[i]);
      }
    }

    /** Other calls and the environment act, while this call awaits its next statement. */
    method Await()
      requires Valid() && looks <= patience && (looks > 0 ==> blocked(trace))
      modifies this`db, this`others, this`log, this`trace, this`looks
      ensures Valid() && looks == old(looks) + 1 && |db.books.rows| == old(|db.books.rows|)
      ensures trace == old(trace) + meanwhile(statement)(old(looks))
    {
      assert Follows(blocked, meanwhile, t, op, patience, waits, looks, trace);
      FollowsAwait(blocked, meanwhile, t, op, patience, waits, looks, trace);
      HappenAll(meanwhile(statement)(looks));
      looks := looks + 1;
    }

    /** The trace goes on with the statement just made. */
    method Tell()
      requires Knows() && OnSchedule() && looks >= 1 && !blocked(trace)
      modifies this`trace, this`waits, this`statement, this`looks
      ensures OnSchedule() && looks == 0 && trace == old(trace) + [Advance(t)]
    {
      assert Follows(blocked, meanwhile, t, op, patience, waits, looks, trace);
      FollowsAdvance(blocked, meanwhile, t, op, patience, waits, looks, trace);
      trace := trace + [Advance(t)];
      waits := waits + [looks];
      statement, looks := statement + 1, 0;
    }

    /** The statement just made, and the code up to the next await, are one step of the machine. */
    method Proceed()
      requires OnTrace() && OnSchedule() && looks >= 1 && !blocked(trace)
      requires !call.phase.Ready? && WroteAs(NextTx(Machine(), t))
      modifies this`call, this`trace, this`waits, this`statement, this`looks
      ensures Valid() && looks == 0 && call == old(NextTx(Machine(), t)) && trace == old(trace) + [Advance(t)]
    {
      ghost var next := NextTx(Machine(), t);
      assert Around(db, others, log, t, next) == run(trace + [Advance(t)]) && next.op == op by {
        MachineAdvances(db, others, log, t, call, start, trace);
      }
      Tell();
      call := next;
    }

    /** An error was thrown: everything written is undone. */
    method Rollback(error: Error)
      requires Valid() && looks >= 1 && !blocked(trace)
      requires error != Crashed && !call.phase.Ready? && FailsWith(NextTx(Machine(), t), error)
      modifies this`writes, this`record, this`entries, this`call, this`trace, this`waits, this`statement, this`looks
      ensures Ended(Aborted(error))
    {
      writes, record, entries := map[], None, [];
      Proceed();
    }

    ghost method GiveUp()
      requires OnTrace() && OnSchedule() && !call.phase.Finished? && looks == patience + 1 && blocked(trace)
      modifies this`call, this`trace
      ensures OnTrace() && GaveUp() && call == Fail(old(call), Crashed)
    {
      assert Around(db, others, log, t, Fail(call, Crashed)) == run(trace + [Crash(t)]) by {
        MachineCrashes(db, others, log, t, call, start, trace);
      }
      assert (trace + [Crash(t)])[..|trace|] == trace;
      call := Fail(call, Crashed);
      trace := trace + [Crash(t)];
    }

    /** A blocked statement has waited long enough. */
    method TimeOut()
      requires Valid() && !call.phase.Finished? && looks == patience + 1 && blocked(trace)
      modifies this`writes, this`record, this`entries, this`call, this`trace
      ensures Ended(Aborted(Crashed))
    {
      writes, record, entries := map[], None, [];
      GiveUp();
    }

    /** The tables with everything this transaction has written. */
    function Merged(): Db
      reads this
    {
      Db(Books(Merge(db.books.rows, writes), db.books.entries + entries), db.standing,
         if record.Some? then db.records[op.key := record.value] else db.records)
    }

    lemma CommitIsNext()
      requires OnTrace() && WroteAs(call) && call.phase.Ready?
      ensures Around(Merged(), others, log + [op], t, AfterCommit(call)) == run(trace + [Advance(t)])
    {
      MachineCommits(db, others, log, t, call, start, trace);
      assert run(trace + [Advance(t)]) == Run(start, trace + [Advance(t)]);
    }

    /** Everything written becomes visible at once. */
    method Commit()
      requires Valid() && looks >= 1 && !blocked(trace) && call.phase.Ready?
      modifies this
      ensures Ended(Committed)
    {
      CommitIsNext();
      Tell();
      call := AfterCommit(call);
      db, log := Merged(), log + [op];
      writes, record, entries := map[], None, [];
    }

    // ---------------------------------------------------------------- statements

    /** `findUnique` on the idempotency key, with the entries. */
    method FindTransaction(key: Key) returns (existing: Option<Record>, hasEntries: bool)
      ensures existing == if key in db.records then Some(db.records[key]) else None
      ensures hasEntries <==> HasEntries(db.books.entries, key)
    {
      existing := if key in db.records then Some(db.records[key]) else None;
      hasEntries := HasEntries(db.books.entries, key);
    }

    /** `findFirst` on an account number, deleted accounts excluded. */
    method FindAccount(account: nat) returns (found: Option<Account>)
      ensures found.None? <==> Missing(db, account)
      ensures found.Some? ==>
        && account < |db.books.rows| && account < |db.standing|
        && found.value == Account(db.books.rows[account], db.standing[account])
    {
      if account >= |db.books.rows| || account >= |db.standing| || db.standing[account] == Deleted {
        return None;
      }
      return Some(Account(db.books.rows[account], db.standing[account]));
    }

    /** Another transaction has written the row and not ended. */
    predicate RowHeld(account: nat)
      reads this
    {
      exists u :: u in others && account in others[u].writes
    }

    /** Another transaction is creating a record with the key. */
    predicate KeyHeld(key: Key)
      reads this
    {
      exists u :: u in others && others[u].created && others[u].op.key == key
    }

    lemma RowHeldIff(account: nat)
      requires OnTrace()
      ensures RowHeld(account) <==> RowHeldByOther(Machine(), t, account)
    {
      var w := Machine();
      assert forall u :: u in others ==> u in w.txs && w.txs[u] == others[u];
    }

    lemma KeyHeldIff(key: Key)
      requires OnTrace()
      ensures KeyHeld(key) <==> KeyHeldByOther(Machine(), t, key)
    {
      var w := Machine();
      assert forall u :: u in others ==> u in w.txs && w.txs[u] == others[u];
    }

    /** The row as this transaction sees it. */
    function Seen(account: nat): Row
      requires account < |db.books.rows|
      reads this
    {
      if account in writes then writes[account] else db.books.rows[account]
    }

    /** The update has a row to write, and another transaction holds it. */
    predicate RowBlocked(account: nat, version: int)
      requires account < |db.books.rows|
      reads this
    {
      Seen(account).version == version && RowHeld(account)
    }

    lemma RowBlockedIff(account: nat, version: int, balance: int)
      requires OnTrace() && WroteAs(call) && call.phase.UpdateAccount? && IsUpdate(call, account, version, balance)
      requires account < |db.books.rows|
      ensures RowBlocked(account, version) <==> blocked(trace)
    {
      var w := Machine();
      assert w == Run(start, trace);
      if RowBlocked(account, version) {
        var u :| u in others && account in others[u].writes;
        assert Waits(w, t, u);
      }
      assert forall u :: Waits(w, t, u) ==> u in others && account in others[u].writes;
    }

    /** The record is to be created, and another transaction is creating one with its key. */
    predicate KeyBlocked()
      reads this
    {
      op.key !in db.records && KeyHeld(op.key)
    }

    lemma KeyBlockedIff()
      requires OnTrace() && call.phase.InsertRecord? && call.existing.None?
      ensures KeyBlocked() <==> blocked(trace)
    {
      var w := Machine();
      assert w == Run(start, trace);
      if KeyBlocked() {
        var u :| u in others && others[u].created && others[u].op.key == op.key;
        assert Waits(w, t, u);
      }
      assert forall u :: Waits(w, t, u) ==> u in others && others[u].created && others[u].op.key == op.key;
    }

    lemma OthersNeverWait()
      requires OnTrace() && !call.phase.UpdateAccount? && (call.phase.InsertRecord? ==> call.existing.Some?)
      ensures !blocked(trace)
    {
      assert Machine() == Run(start, trace);
    }

    /** Awaits a statement that nothing can block. */
    method AwaitUnblocked()
      requires Valid() && looks == 0
      requires !call.phase.UpdateAccount? && (call.phase.InsertRecord? ==> call.existing.Some?)
      modifies this`db, this`others, this`log, this`trace, this`looks
      ensures Valid() && looks == 1 && !blocked(trace) && |db.books.rows| == old(|db.books.rows|)
    {
      Await();
      OthersNeverWait();
    }

    /**
     `updateMany` with the expected version.  A row whose version is the expected one is
     awaited while another transaction holds it, and written if it still is when it is free.
     Answers the number of rows written, or nothing when the transaction timed out.
     */
    method UpdateMany(account: nat, version: int, balance: int) returns (count: Option<nat>)
      requires Valid() && looks == 1 && call.phase.UpdateAccount? && IsUpdate(call, account, version, balance)
      requires account < |db.books.rows|
      modifies this
      ensures |db.books.rows| == old(|db.books.rows|)
      ensures count.None? ==> Ended(Aborted(Crashed))
      ensures count == Some(0) ==>
        && Valid() && looks >= 1 && !blocked(trace)
        && call == old(call) && NextTx(Machine(), t) == Fail(call, VersionConflict)
      ensures count.Some? && count != Some(0) ==>
        count == Some(1) && Valid() && looks == 0 && call == Written(old(call), account, version, balance)
    {
      AwaitRow(account, version, balance);
      RowBlockedIff(account, version, balance);
      if RowBlocked(account, version) {
        TimeOut();
        return None;
      }
      NextUpdate(account, version, balance);
      if Seen(account).version != version {
        return Some(0);
      }
      WriteRow(account, version, balance);
      return Some(1);
    }

    /** Looks again and again at a row that is blocked, until it is free or patience ends. */
    method AwaitRow(account: nat, version: int, balance: int)
      requires Valid() && looks >= 1 && call.phase.UpdateAccount? && IsUpdate(call, account, version, balance)
      requires account < |db.books.rows|
      modifies this`db, this`others, this`log, this`trace, this`looks
      ensures Valid() && looks >= 1 && |db.books.rows| == old(|db.books.rows|)
      ensures RowBlocked(account, version) ==> looks == patience + 1
    {
      while RowBlocked(account, version) && looks <= patience
        invariant Valid() && looks >= 1 && |db.books.rows| == old(|db.books.rows|)
        decreases patience + 1 - looks
      {
        RowBlockedIff(account, version, balance);
        Await();
      }
    }

    /** What the machine does next at an update that is not blocked. */
    lemma NextUpdate(account: nat, version: int, balance: int)
      requires OnTrace() && WroteAs(call) && call.phase.UpdateAccount? && IsUpdate(call, account, version, balance)
      requires account < |db.books.rows| && !RowBlocked(account, version)
      ensures NextTx(Machine(), t) ==
              if Seen(account).version != version then Fail(call, VersionConflict)
              else Written(call, account, version, balance)
    {
      RowHeldIff(account);
      assert Visible(db, call, account) == Seen(account);
    }

    method WriteRow(account: nat, version: int, balance: int)
      requires Valid() && looks >= 1 && !blocked(trace)
      requires call.phase.UpdateAccount? && NextTx(Machine(), t) == Written(call, account, version, balance)
      modifies this`writes, this`call, this`trace, this`waits, this`statement, this`looks
      ensures Valid() && looks == 0 && call == Written(old(call), account, version, balance)
    {
      writes := writes[account := Row(balance, version + 1)];
      Proceed();
    }

    /**
     `create` of the record: waits for whoever is creating the same key; false when the
     key exists by then, nothing when the transaction timed out.
     */
    method CreateTransaction(created: Record) returns (done: Option<bool>)
      requires Valid() && looks == 1 && call.phase.InsertRecord? && call.existing.None? && created == NewRecord(op)
      modifies this
      ensures done.None? ==> Ended(Aborted(Crashed))
      ensures done == Some(false) ==>
        && Valid() && looks >= 1 && !blocked(trace)
        && call == old(call) && NextTx(Machine(), t) == Fail(call, DuplicateKey)
      ensures done == Some(true) ==>
        Valid() && looks == 0 && call == old(call).(created := true, phase := InsertEntry)
    {
      AwaitKey();
      KeyBlockedIff();
      KeyHeldIff(op.key);
      if KeyBlocked() {
        TimeOut();
        return None;
      }
      if op.key in db.records {
        return Some(false);
      }
      record := Some(created);
      Proceed();
      return Some(true);
    }

    /** Looks again and again while another transaction is creating the key, until patience ends. */
    method AwaitKey()
      requires Valid() && looks >= 1 && call.phase.InsertRecord? && call.existing.None?
      modifies this`db, this`others, this`log, this`trace, this`looks
      ensures Valid() && looks >= 1 && (KeyBlocked() ==> looks == patience + 1)
    {
      while KeyBlocked() && looks <= patience
        invariant Valid() && looks >= 1
        decreases patience + 1 - looks
      {
        KeyBlockedIff();
        Await();
      }
    }

    /** `create` of a ledger entry, with the balance the caller computed. */
    method CreateLedgerEntry(account: nat, kind: Kind, amount: int, balanceAfter: int)
      requires Valid() && looks == 0 && call.phase.InsertEntry? && |entries| < |Legs(op)| == |call.snapshot|
      requires Entry(op.key, account, kind, amount, balanceAfter) == EntryOf(call, |entries|)
      modifies this
      ensures Valid() && looks == 0
      ensures call == old(call).(
        entries := old(entries) + [Entry(op.key, account, kind, amount, balanceAfter)],
        phase := if old(|entries|) + 1 < |Legs(op)| then InsertEntry else Ready)
    {
      AwaitUnblocked();
      entries := entries + [Entry(op.key, account, kind, amount, balanceAfter)];
      Proceed();
    }

    /** Reuses the record that was found, or creates one. */
    method RecordTransaction(existing: Option<Record>, created: Record) returns (outcome: Option<Outcome>)
      requires Valid() && looks == 0 && call.phase.InsertRecord? && call.existing == existing
      requires created == NewRecord(op)
      modifies this
      ensures outcome.Some? ==> Ended(outcome.value)
      ensures outcome.None? ==>
        && Valid() && looks == 0
        && call == old(call).(created := existing.None? || old(call.created), phase := InsertEntry)
    {
      Await();
      if existing.Some? {
        OthersNeverWait();
        Proceed();
        return None;
      }
      var done := CreateTransaction(created);
      if done.None? {
        return Some(Aborted(Crashed));
      }
      if !done.value {
        Rollback(DuplicateKey);
        return Some(Aborted(DuplicateKey));
      }
      return None;
    }

    // ---------------------------------------------------------------- operations

    /** One conditional update; a row that has moved on is a conflict and ends the operation. */
    method UpdateRow(account: nat, version: int, balance: int) returns (failure: Option<Outcome>)
      requires Valid() && looks == 0 && call.phase.UpdateAccount? && IsUpdate(call, account, version, balance)
      requires account < |db.books.rows|
      modifies this
      ensures |db.books.rows| == old(|db.books.rows|)
      ensures failure.Some? ==> Ended(failure.value)
      ensures failure.None? ==> Valid() && looks == 0 && call == Written(old(call), account, version, balance)
    {
      Await();
      var count := UpdateMany(account, version, balance);
      if count.None? {
        return Some(Aborted(Crashed));
      }
      if count.value == 0 {
        Rollback(VersionConflict);
        return Some(Aborted(VersionConflict));
      }
      return None;
    }

    /** The duplicate test that opens each operation. */
    method CheckDuplicate(key: Key) returns (existing: Option<Record>, duplicate: bool)
      requires Valid() && looks == 0 && call.phase.ReadRecord? && key == op.key
      modifies this
      ensures |db.books.rows| == old(|db.books.rows|) && Valid() && looks == 0
      ensures call == if duplicate then old(call).(phase := Finished(Idempotent))
                      else old(call).(phase := ReadAccount, existing := existing)
    {
      AwaitUnblocked();
      var hasEntries;
      existing, hasEntries := FindTransaction(key);
      duplicate := existing.Some? && existing.value.status == Completed && hasEntries;
      Proceed();
    }

    /** Reads an account that must exist and be active; otherwise the operation ends. */
    method FindActive(account: nat) returns (found: Option<Row>, error: Error)
      requires Valid() && looks == 0 && call.phase.ReadAccount? && |call.snapshot| < |Legs(op)|
      requires account == Legs(op)[|call.snapshot|].account
      modifies this
      ensures |db.books.rows| == old(|db.books.rows|)
      ensures found.None? ==>
        && Ended(Aborted(error))
        && if error == NotFound then Missing(db, account) else error == NotActive && Barred(db, account)
      ensures found.Some? ==>
        && Valid() && looks == 1 && !blocked(trace)
        && call == old(call) && Usable(db, account) && found.value == db.books.rows[account]
        && NextTx(Machine(), t) == DoReadAccount(db, call)
    {
      AwaitUnblocked();
      NextIsRead();
      var read := FindAccount(account);
      if read.None? {
        ReadFails(db, call);
        Rollback(NotFound);
        return None, NotFound;
      }
      if read.value.standing != Active {
        ReadFails(db, call);
        Rollback(NotActive);
        return None, NotActive;
      }
      return Some(read.value.row), NotFound;
    }

    lemma NextIsRead()
      requires call.phase.ReadAccount?
      ensures NextTx(Machine(), t) == DoReadAccount(db, call)
    {
    }

    method ExecuteDoubleEntryTransfer(key: Key, source: nat, target: nat, amount: int) returns (outcome: Outcome)
      requires Fresh() && op == Transfer(key, source, target, amount)
      modifies this
      ensures Ended(outcome)
    {
      var existing, duplicate := CheckDuplicate(key);
      if duplicate {
        return Idempotent;
      }
      var accounts, error := FindBoth(source, target, amount);
      if accounts.None? {
        return Aborted(error);
      }
      outcome := BookTransfer(existing, source, target, amount, accounts.value.0, accounts.value.1);
    }

    /** Reads both accounts; a missing or inactive one, or a source that cannot pay, ends the operation. */
    method FindBoth(source: nat, target: nat, amount: int) returns (found: Option<(Row, Row)>, error: Error)
      requires Valid() && looks == 0 && call.phase.ReadAccount? && call.snapshot == []
      requires op.Transfer? && op.source == source && op.target == target && op.amount == amount
      requires call.writes == map[] && !call.created && call.entries == []
      modifies this
      ensures found.None? ==> Ended(Aborted(error))
      ensures found.Some? ==>
        && Valid() && looks == 0 && source < |db.books.rows| && target < |db.books.rows|
        && call == old(call).(phase := UpdateAccount(0), snapshot := [found.value.0, found.value.1])
    {
      var sourceAccount, sourceError := FindActive(source);
      if sourceAccount.None? {
        return None, sourceError;
      }
      ReadsFirst(db, call);
      Proceed();
      var targetAccount;
      targetAccount, error := FindTarget(source, target, amount, sourceAccount.value);
      if targetAccount.None? {
        return None, error;
      }
      return Some((sourceAccount.value, targetAccount.value)), error;
    }

    /** The second account, and then the check that the first can pay. */
    method FindTarget(source: nat, target: nat, amount: int, from: Row) returns (found: Option<Row>, error: Error)
      requires Valid() && looks == 0 && call.phase.ReadAccount? && call.snapshot == [from]
      requires op.Transfer? && op.source == source && op.target == target && op.amount == amount
      requires call.writes == map[] && !call.created && call.entries == []
      modifies this
      ensures |db.books.rows| == old(|db.books.rows|)
      ensures found.None? ==> Ended(Aborted(error))
      ensures found.Some? ==>
        && Valid() && looks == 0 && target < |db.books.rows|
        && call == old(call).(phase := UpdateAccount(0), snapshot := [from, found.value])
    {
      var targetAccount, targetError := FindActive(target);
      if targetAccount.None? {
        return None, targetError;
      }
      ReadsSecond(db, call);
      if from.balance < amount {
        Rollback(InsufficientFunds);
        return None, InsufficientFunds;
      }
      Proceed();
      return targetAccount, InsufficientFunds;
    }

    /** The writing half: both updates, the record, both entries, the commit. */
    method BookTransfer(existing: Option<Record>, source: nat, target: nat, amount: int, from: Row, to: Row)
      returns (outcome: Outcome)
      requires Valid() && looks == 0
      requires op.Transfer? && op.source == source && op.target == target && op.amount == amount
      requires call == Tx(op, UpdateAccount(0), existing, [from, to], map[], false, [])
      requires source < |db.books.rows| && target < |db.books.rows|
      modifies this
      ensures Ended(outcome)
    {
      var newSourceBalance := from.balance - amount;
      var newTargetBalance := to.balance + amount;
      var conflict := UpdateRow(source, from.version, newSourceBalance);
      if conflict.Some? {
        return conflict.value;
      }
      conflict := UpdateRow(target, to.version, newTargetBalance);
      if conflict.Some? {
        return conflict.value;
      }
      outcome := BookTransferEntries(existing, source, target, amount, newSourceBalance, newTargetBalance);
    }

    method BookTransferEntries(existing: Option<Record>, source: nat, target: nat, amount: int,
                               newSourceBalance: int, newTargetBalance: int)
      returns (outcome: Outcome)
      requires Valid() && looks == 0
      requires op.Transfer? && op.source == source && op.target == target && op.amount == amount
      requires call.phase.InsertRecord? && call.existing == existing && !call.created && entries == []
      requires |call.snapshot| == 2
      requires newSourceBalance == call.snapshot[0].balance - amount
      requires newTargetBalance == call.snapshot[1].balance + amount
      modifies this
      ensures Ended(outcome)
    {
      var failure := RecordTransaction(existing, Record(TransferRecord, Pending));
      if failure.Some? {
        return failure.value;
      }
      CreateLedgerEntry(source, Debit, amount, newSourceBalance);
      CreateLedgerEntry(target, Credit, amount, newTargetBalance);
      AwaitUnblocked();
      Commit();
      return Committed;
    }

    method ExecuteDeposit(key: Key, account: nat, amount: int) returns (outcome: Outcome)
      requires Fresh() && op == Deposit(key, account, amount)
      modifies this
      ensures Ended(outcome)
    {
      var existing, duplicate := CheckDuplicate(key);
      if duplicate {
        return Idempotent;
      }
      var found, error := FindActive(account);
      if found.None? {
        return Aborted(error);
      }
      ReadsOnly(db, call);
      Proceed();
      var newBalance := found.value.balance + amount;
      outcome := BookSingle(existing, Record(DepositRecord, Completed), account, Credit, amount,
        found.value, newBalance);
    }

    method ExecuteWithdrawal(key: Key, account: nat, amount: int) returns (outcome: Outcome)
      requires Fresh() && op == Withdrawal(key, account, amount)
      modifies this
      ensures Ended(outcome)
    {
      var existing, duplicate := CheckDuplicate(key);
      if duplicate {
        return Idempotent;
      }
      var found, error := FindActive(account);
      if found.None? {
        return Aborted(error);
      }
      ReadsOnly(db, call);
      if found.value.balance < amount {
        Rollback(InsufficientFunds);
        return Aborted(InsufficientFunds);
      }
      Proceed();
      var newBalance := found.value.balance - amount;
      outcome := BookSingle(existing, Record(WithdrawalRecord, Completed), account, Debit, amount,
        found.value, newBalance);
    }

    /** The writing half of a deposit or a withdrawal: one update, the record, one entry, the commit. */
    method BookSingle(existing: Option<Record>, created: Record, account: nat, kind: Kind, amount: int,
                      read: Row, newBalance: int)
      returns (outcome: Outcome)
      requires Valid() && looks == 0
      requires Legs(op) == [Leg(account, kind)] && op.amount == amount && created == NewRecord(op)
      requires call == Tx(op, UpdateAccount(0), existing, [read], map[], false, [])
      requires account < |db.books.rows| && newBalance == read.balance + Signed(kind, amount)
      modifies this
      ensures Ended(outcome)
    {
      var conflict := UpdateRow(account, read.version, newBalance);
      if conflict.Some? {
        return conflict.value;
      }
      var failure := RecordTransaction(existing, created);
      if failure.Some? {
        return failure.value;
      }
      CreateLedgerEntry(account, kind, amount, newBalance);
      AwaitUnblocked();
      Commit();
      return Committed;
    }
  }
}
