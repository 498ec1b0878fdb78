/**
 Who waits for whom.  A statement that needs a row or a key another transaction holds
 makes no progress; the question is when nobody does.
 */
module LedgerWaits {
  import opened Wrappers
  import opened Ledger
  import LedgerSerial

  predicate Running(w: World, t: TxId) {
    t in w.txs && !w.txs[t].phase.Finished?
  }

  /**
   Call `t` is about to write a row that is still as `t` read it and that `u` has written, or
   to create a key that `u` is creating.
   */
  predicate Waits(w: World, t: TxId, u: TxId) {
    && t in w.txs && u in w.txs && t != u
    && match w.txs[t].phase
       case UpdateAccount(i) =>
         Matches(w.db, w.txs[t], i) && Legs(w.txs[t].op)[i].account in w.txs[u].writes
       case InsertRecord =>
         w.txs[t].existing.None? && w.txs[t].op.key !in w.db.records
         && w.txs[u].created && w.txs[u].op.key == w.txs[t].op.key
       case _ => false
  }

  /** The next statement of `t` changes nothing. */
  predicate Stuck(w: World, t: TxId) {
    Step(w, Advance(t)) == w
  }

  lemma StuckIsSame(w: World, t: TxId)
    requires Running(w, t) && !w.txs[t].phase.Ready?
    ensures Stuck(w, t) <==> NextTx(w, t) == w.txs[t]
  {
    if NextTx(w, t) == w.txs[t] {
      assert w.txs[t := w.txs[t]] == w.txs;
    } else {
      assert Step(w, Advance(t)).txs[t] == NextTx(w, t);
    }
  }

  lemma UpdateMoves(w: World, t: TxId)
    requires Inv(w) && Running(w, t) && w.txs[t].phase.UpdateAccount?
    ensures NextTx(w, t) == w.txs[t] <==> exists u :: Waits(w, t, u)
  {
    var tx := w.txs[t];
    var account := Legs(tx.op)[tx.phase.leg].account;
    assert TxOk(w.db, tx);
    if Matches(w.db, tx, tx.phase.leg) && RowHeldByOther(w, t, account) {
      var u :| u in w.txs && u != t && account in w.txs[u].writes;
      assert Waits(w, t, u);
    }
    assert forall u :: Waits(w, t, u) ==> RowHeldByOther(w, t, account);
  }

  lemma InsertMoves(w: World, t: TxId)
    requires Running(w, t) && w.txs[t].phase.InsertRecord?
    ensures NextTx(w, t) == w.txs[t] <==> exists u :: Waits(w, t, u)
  {
    var tx := w.txs[t];
    if tx.existing.None? && tx.op.key !in w.db.records && KeyHeldByOther(w, t, tx.op.key) {
      var u :| u in w.txs && u != t && w.txs[u].created && w.txs[u].op.key == tx.op.key;
      assert Waits(w, t, u);
    }
    assert forall u :: Waits(w, t, u) ==> KeyHeldByOther(w, t, tx.op.key);
  }

  lemma OthersMove(w: World, t: TxId)
    requires Inv(w) && Running(w, t)
    requires !w.txs[t].phase.UpdateAccount? && !w.txs[t].phase.InsertRecord? && !w.txs[t].phase.Ready?
    ensures NextTx(w, t) != w.txs[t]
  {
    assert TxOk(w.db, w.txs[t]);
  }

  /** A running call is stuck exactly when it waits for somebody. */
  lemma StuckIffWaits(w: World, t: TxId)
    requires Inv(w) && Running(w, t)
    ensures Stuck(w, t) <==> exists u :: Waits(w, t, u)
  {
    if w.txs[t].phase.Ready? {
      assert |Step(w, Advance(t)).log| == |w.log| + 1;
    } else {
      StuckIsSame(w, t);
      match w.txs[t].phase
      case UpdateAccount(_) => UpdateMoves(w, t);
      case InsertRecord => InsertMoves(w, t);
      case _ => OthersMove(w, t);
    }
  }

  ghost predicate Waiting(w: World, t: TxId) {
    exists u :: Waits(w, t, u)
  }

  /** Nobody who has ended holds anything. */
  lemma HolderRuns(w: World, t: TxId, u: TxId)
    requires Inv(w) && Waits(w, t, u)
    ensures Running(w, u)
  {
    assert TxOk(w.db, w.txs[u]);
  }

  /** Who creates a key is past its waits. */
  lemma WaiterCreatesNothing(w: World, t: TxId, u: TxId)
    requires Inv(w) && Waits(w, t, u)
    ensures !w.txs[t].created
  {
    assert TxOk(w.db, w.txs[t]);
  }

  /** A waiter that is waited for has written its first row, and stands before its second. */
  lemma WaiterHolds(w: World, t: TxId, u: TxId, v: TxId)
    requires Inv(w) && Waits(w, t, u) && Waits(w, u, v) && w.txs[u].phase.UpdateAccount?
    ensures w.txs[u].op.Transfer? && w.txs[u].phase == UpdateAccount(1)
    ensures w.txs[t].phase.UpdateAccount? && Legs(w.txs[t].op)[w.txs[t].phase.leg].account == w.txs[u].op.source
  {
    WaiterCreatesNothing(w, u, v);
    var holder := w.txs[u];
    assert TxOk(w.db, holder);
  }

  /** In a chain of four, the second waits for a row. */
  lemma WaiterUpdates(w: World, u: TxId, v: TxId, x: TxId)
    requires Inv(w) && Waits(w, u, v) && Waits(w, v, x)
    ensures w.txs[u].phase.UpdateAccount?
  {
    WaiterCreatesNothing(w, v, x);
  }

  function Next(i: nat, n: nat): nat {
    if i + 1 < n then i + 1 else 0
  }

  function Previous(i: nat, n: nat): nat
    requires n > 0
  {
    if i > 0 then i - 1 else n - 1
  }

  /** Each waits for the next, and the last for the first. */
  ghost predicate Cycle(w: World, calls: seq<TxId>) {
    calls != [] && forall i :: 0 <= i < |calls| ==> Waits(w, calls[i], calls[Next(i, |calls|)])
  }

  /** A chain of running calls, each waiting for the next. */
  ghost predicate Chain(w: World, calls: seq<TxId>) {
    && Distinct(calls)
    && (forall i :: 0 <= i < |calls| ==> Running(w, calls[i]))
    && (forall i :: 0 <= i < |calls| - 1 ==> Waits(w, calls[i], calls[i + 1]))
  }

  lemma {:induction false} DistinctFits(calls: seq<TxId>, all: set<TxId>)
    requires Distinct(calls) && forall i :: 0 <= i < |calls| ==> calls[i] in all
    ensures |calls| <= |all|
    decreases |calls|
  {
    if calls != [] {
      var n := |calls| - 1;
      DistinctFits(calls[..n], all - {calls[n]});
    }
  }

  lemma ChainCloses(w: World, calls: seq<TxId>, j: nat)
    requires Chain(w, calls) && j < |calls| && Waits(w, calls[|calls| - 1], calls[j])
    ensures Cycle(w, calls[j..]) && Distinct(calls[j..])
  {
    var cycle := calls[j..];
    forall i | 0 <= i < |cycle| ensures Waits(w, cycle[i], cycle[Next(i, |cycle|)]) {
      assert cycle[i] == calls[j + i] && cycle[0] == calls[j];
      assert i + 1 < |cycle| ==> cycle[i + 1] == calls[j + i + 1] && Waits(w, calls[j + i], calls[j + i + 1]);
    }
  }

  lemma ChainGrows(w: World, calls: seq<TxId>, u: TxId)
    requires Chain(w, calls) && calls != [] && Waits(w, calls[|calls| - 1], u) && Running(w, u) && u !in calls
    ensures Chain(w, calls + [u]) && |calls| < |w.txs.Keys|
  {
    var longer := calls + [u];
    assert Distinct(longer);
    DistinctFits(longer, w.txs.Keys);
  }

  lemma {:induction false} FollowChain(w: World, calls: seq<TxId>) returns (cycle: seq<TxId>)
    requires Inv(w) && Chain(w, calls) && calls != []
    requires forall t :: Running(w, t) ==> Waiting(w, t)
    ensures Cycle(w, cycle) && Distinct(cycle)
    decreases |w.txs.Keys| - |calls|
  {
    var last := calls[|calls| - 1];
    assert Waiting(w, last);
    var u :| Waits(w, last, u);
    if u in calls {
      var j :| 0 <= j < |calls| && calls[j] == u;
      ChainCloses(w, calls, j);
      cycle := calls[j..];
    } else {
      HolderRuns(w, last, u);
      ChainGrows(w, calls, u);
      cycle := FollowChain(w, calls + [u]);
    }
  }

  /** What a transfer has read of its two accounts is what is stored. */
  ghost predicate ReadsCurrent(w: World, tx: Tx)
    requires tx.op.Transfer?
  {
    && tx.op.source < |w.db.books.rows| && tx.op.target < |w.db.books.rows|
    && tx.snapshot == [w.db.books.rows[tx.op.source], w.db.books.rows[tx.op.target]]
  }

  /**
   A transfer that has debited its source and waits to credit its target, which another
   has debited.  Neither row has moved since it was read: no conflict would end the wait.
   */
  ghost predicate Linked(w: World, t: TxId, u: TxId) {
    && Waits(w, t, u)
    && w.txs[t].op.Transfer? && w.txs[t].phase == UpdateAccount(1)
    && w.txs[u].op.Transfer? && w.txs[t].op.target == w.txs[u].op.source
    && ReadsCurrent(w, w.txs[t])
  }

  lemma WaiterIsCurrent(w: World, t: TxId, u: TxId)
    requires Inv(w) && Waits(w, t, u) && w.txs[t].op.Transfer? && w.txs[t].phase == UpdateAccount(1)
    ensures ReadsCurrent(w, w.txs[t])
  {
    var tx := w.txs[t];
    assert TxOk(w.db, tx) && LegWritten(w.db.books.rows, tx, 0);
    assert Legs(tx.op)[0].account == tx.op.source && Legs(tx.op)[1].account == tx.op.target;
    assert tx.writes.Keys !! w.txs[u].writes.Keys;
    assert SnapshotOk(w.db.books.rows[tx.op.target], tx.snapshot[1]);
  }

  lemma ChainLinks(w: World, s: TxId, t: TxId, u: TxId, v: TxId, x: TxId)
    requires Inv(w) && Waits(w, s, t) && Waits(w, t, u) && Waits(w, u, v) && Waits(w, v, x)
    ensures Linked(w, t, u)
  {
    WaiterUpdates(w, t, u, v);
    WaiterUpdates(w, u, v, x);
    WaiterHolds(w, s, t, u);
    WaiterHolds(w, t, u, v);
    WaiterIsCurrent(w, t, u);
  }

  lemma CycleLinks(w: World, cycle: seq<TxId>, i: nat)
    requires Inv(w) && Cycle(w, cycle) && i < |cycle|
    ensures Linked(w, cycle[i], cycle[Next(i, |cycle|)])
  {
    var n := |cycle|;
    var h, j := Previous(i, n), Next(i, n);
    var k := Next(j, n);
    assert Waits(w, cycle[h], cycle[Next(h, n)]) && Next(h, n) == i;
    assert Waits(w, cycle[i], cycle[j]) && Waits(w, cycle[j], cycle[k]);
    assert Waits(w, cycle[k], cycle[Next(k, n)]);
    ChainLinks(w, cycle[h], cycle[i], cycle[j], cycle[k], cycle[Next(k, n)]);
  }

  /**
   Deadlock.  In any reachable world where calls are running and none can move, there is a
   ring of transfers: each has debited its source and waits to credit its target, which is
   the source of the next.
   */
  lemma DeadlockIsARing(start: World, es: seq<Event>) returns (ring: seq<TxId>)
    requires Inv(start)
    requires exists t :: Running(Run(start, es), t)
    requires forall t :: Running(Run(start, es), t) ==> Stuck(Run(start, es), t)
    ensures |ring| >= 2 && Distinct(ring)
    ensures forall i :: 0 <= i < |ring| ==> Linked(Run(start, es), ring[i], ring[Next(i, |ring|)])
  {
    var w := Run(start, es);
    RunKeepsInv(start, es);
    forall t | Running(w, t) ensures Waiting(w, t) {
      StuckIffWaits(w, t);
    }
    var t :| Running(w, t);
    ring := FollowChain(w, [t]);
    forall i | 0 <= i < |ring| ensures Linked(w, ring[i], ring[Next(i, |ring|)]) {
      CycleLinks(w, ring, i);
    }
    assert Waits(w, ring[0], ring[Next(0, |ring|)]);
  }

  /** And a ring never turns: none of its calls can move while the others hold what they hold. */
  lemma RingIsStuck(w: World, ring: seq<TxId>, i: nat)
    requires Inv(w) && Cycle(w, ring) && i < |ring|
    ensures Running(w, ring[i]) && Stuck(w, ring[i])
  {
    CycleLinks(w, ring, i);
    StuckIffWaits(w, ring[i]);
  }

  ghost predicate Upward(w: World) {
    forall t :: Running(w, t) && w.txs[t].op.Transfer? ==> w.txs[t].op.source < w.txs[t].op.target
  }

  /** Along a ring of upward transfers the sources climb. */
  lemma {:induction false} RingClimbs(w: World, ring: seq<TxId>, i: nat)
    requires Upward(w) && i < |ring|
    requires forall k :: 0 <= k < |ring| ==> Linked(w, ring[k], ring[Next(k, |ring|)])
    ensures Linked(w, ring[0], ring[Next(0, |ring|)]) && Linked(w, ring[i], ring[Next(i, |ring|)])
    ensures w.txs[ring[0]].op.source < w.txs[ring[i]].op.target
  {
    var n := |ring|;
    assert Linked(w, ring[0], ring[Next(0, n)]) && Linked(w, ring[i], ring[Next(i, n)]);
    assert Running(w, ring[i]);
    if i > 0 {
      RingClimbs(w, ring, i - 1);
      assert Next(i - 1, n) == i;
    }
  }

  /** Transfers that all go from a lower to a higher account never deadlock. */
  lemma UpwardNeverDeadlocks(start: World, es: seq<Event>)
    requires Inv(start) && Upward(Run(start, es))
    requires exists t :: Running(Run(start, es), t)
    ensures exists t :: Running(Run(start, es), t) && !Stuck(Run(start, es), t)
  {
    if forall t :: Running(Run(start, es), t) ==> Stuck(Run(start, es), t) {
      var ring := DeadlockIsARing(start, es);
      RingClimbs(Run(start, es), ring, |ring| - 1);
      assert false;
    }
  }

  // ---------------------------------------------------------------- opposite transfers

  function With(w: World, t: TxId, tx: Tx): World {
    w.(txs := w.txs[t := tx])
  }

  lemma AdvanceWith(w: World, t: TxId, a: Tx, b: Tx)
    requires !a.phase.Ready? && NextTx(With(w, t, a), t) == b
    ensures Step(With(w, t, a), Advance(t)) == With(w, t, b)
  {
    assert w.txs[t := a][t := b] == w.txs[t := b];
  }

  /** A transfer that every check lets through, and whose source nobody holds. */
  ghost predicate Unopposed(w: World, op: Op) {
    && op.Transfer? && op.source != op.target && !Settled(w.db, op.key)
    && AccountError(w.db, op.source).None? && AccountError(w.db, op.target).None?
    && op.amount <= w.db.books.rows[op.source].balance
    && forall u :: u in w.txs ==> op.source !in w.txs[u].writes
  }

  /** The transfer after its reads, with both accounts as they are. */
  function AfterReads(db: Db, op: Op): Tx
    requires op.Transfer? && op.source < |db.books.rows| && op.target < |db.books.rows|
  {
    Tx(op, UpdateAccount(0), if op.key in db.records then Some(db.records[op.key]) else None,
       [db.books.rows[op.source], db.books.rows[op.target]], map[], false, [])
  }

  /** The transfer when it has debited its source. */
  function HalfWay(db: Db, op: Op): Tx
    requires op.Transfer? && op.source < |db.books.rows| && op.target < |db.books.rows|
  {
    var row := db.books.rows[op.source];
    AfterReads(db, op).(phase := UpdateAccount(1),
                        writes := map[op.source := Row(row.balance - op.amount, row.version + 1)])
  }

  /** The steps that bring it there. */
  function FirstHalf(t: TxId, op: Op): seq<Event> {
    [Begin(t, op)] + [Advance(t)] + [Advance(t)] + [Advance(t)] + [Advance(t)]
  }

  lemma ReadsTwo(db: Db, op: Op, existing: Option<Record>)
    requires op.Transfer? && AccountError(db, op.source).None? && AccountError(db, op.target).None?
    requires op.amount <= db.books.rows[op.source].balance
    ensures var tx := Tx(op, ReadAccount, existing, [], map[], false, []);
            var rows := db.books.rows;
            && DoReadAccount(db, tx) == tx.(snapshot := [rows[op.source]])
            && DoReadAccount(db, DoReadAccount(db, tx))
               == tx.(snapshot := [rows[op.source], rows[op.target]], phase := UpdateAccount(0))
  {
    var rows := db.books.rows;
    var read := Tx(op, ReadAccount, existing, [rows[op.source], rows[op.target]], map[], false, []);
    assert Legs(op)[0].account == op.source && Legs(op)[1].account == op.target;
    assert [rows[op.source]] + [rows[op.target]] == read.snapshot;
    assert SnapshotFunded(read);
  }

  lemma UpdatesFirst(w: World, t: TxId, op: Op)
    requires t !in w.txs && Unopposed(w, op)
    ensures NextTx(With(w, t, AfterReads(w.db, op)), t) == HalfWay(w.db, op)
  {
    var now := With(w, t, AfterReads(w.db, op));
    assert Legs(op)[0].account == op.source;
    assert !RowHeldByOther(now, t, op.source);
  }

  lemma GoesHalfWay(w: World, t: TxId, op: Op)
    requires t !in w.txs && Unopposed(w, op)
    ensures Run(w, FirstHalf(t, op)) == With(w, t, HalfWay(w.db, op))
  {
    var existing := if op.key in w.db.records then Some(w.db.records[op.key]) else None;
    var begun := Tx(op, ReadRecord, None, [], map[], false, []);
    var reading := Tx(op, ReadAccount, existing, [], map[], false, []);
    var readOne := reading.(snapshot := [w.db.books.rows[op.source]]);
    ReadsTwo(w.db, op, existing);
    AdvanceWith(w, t, begun, reading);
    AdvanceWith(w, t, reading, readOne);
    AdvanceWith(w, t, readOne, AfterReads(w.db, op));
    UpdatesFirst(w, t, op);
    AdvanceWith(w, t, AfterReads(w.db, op), HalfWay(w.db, op));
    var es := [Begin(t, op)];
    RunOne(w, [], Begin(t, op));
    assert [] + es == es;
    RunOne(w, es, Advance(t));
    RunOne(w, es + [Advance(t)], Advance(t));
    RunOne(w, es + [Advance(t)] + [Advance(t)], Advance(t));
    RunOne(w, es + [Advance(t)] + [Advance(t)] + [Advance(t)], Advance(t));
  }

  lemma RunOne(w: World, es: seq<Event>, e: Event)
    ensures Run(w, es + [e]) == Step(Run(w, es), e)
  {
    assert (es + [e])[..|es|] == es;
  }

  /** Each half-way transfer waits for the other's source. */
  lemma HalfWayWaits(w: World, t: TxId, u: TxId, p: Op, q: Op)
    requires p.Transfer? && q.Transfer? && p.target == q.source && p.source != p.target && t != u
    requires p.source < |w.db.books.rows| && p.target < |w.db.books.rows|
    requires q.source < |w.db.books.rows| && q.target < |w.db.books.rows|
    requires t in w.txs && w.txs[t] == HalfWay(w.db, p) && u in w.txs && w.txs[u] == HalfWay(w.db, q)
    ensures Waits(w, t, u)
  {
    assert Legs(p)[1].account == p.target;
    assert Visible(w.db, w.txs[t], p.target) == w.db.books.rows[p.target];
  }

  lemma BothGoHalfWay(start: World, t: TxId, u: TxId, p: Op, q: Op)
    requires Initial(start) && t != u && Unopposed(start, p) && Unopposed(start, q)
    requires p.source == q.target && p.target == q.source
    ensures Run(start, FirstHalf(t, p) + FirstHalf(u, q))
         == With(With(start, t, HalfWay(start.db, p)), u, HalfWay(start.db, q))
  {
    var middle := With(start, t, HalfWay(start.db, p));
    GoesHalfWay(start, t, p);
    assert Unopposed(middle, q);
    GoesHalfWay(middle, u, q);
    LedgerSerial.RunConcat(start, FirstHalf(t, p), FirstHalf(u, q));
  }

  /**
   Deadlocks happen.  Any two transfers between the same two accounts, one each way, that
   every check lets through, can stop each other for good: each has debited its source and
   waits for the other's.
   */
  lemma OppositeTransfersDeadlock(start: World, t: TxId, u: TxId, p: Op, q: Op) returns (es: seq<Event>)
    requires Initial(start) && t != u && Unopposed(start, p) && Unopposed(start, q)
    requires p.source == q.target && p.target == q.source
    ensures var w := Run(start, es);
            && Waits(w, t, u) && Waits(w, u, t)
            && w.txs.Keys == {t, u} && forall x :: Running(w, x) ==> Stuck(w, x)
  {
    es := FirstHalf(t, p) + FirstHalf(u, q);
    var w := Run(start, es);
    BothGoHalfWay(start, t, u, p, q);
    assert w.txs == map[t := HalfWay(start.db, p), u := HalfWay(start.db, q)];
    HalfWayWaits(w, t, u, p, q);
    HalfWayWaits(w, u, t, q, p);
    assert Inv(w) by {
      RunKeepsInv(start, es);
    }
    StuckIffWaits(w, t);
    StuckIffWaits(w, u);
  }
}
