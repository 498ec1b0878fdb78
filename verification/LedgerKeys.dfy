/**
 Idempotency keys: when a key can move money again, and when it cannot.
 */
module LedgerKeys {
  import opened Wrappers
  import opened Ledger

  /** How many committed operations carry the key. */
  function Moves(log: seq<Op>, key: Key): nat
    decreases |log|
  {
    if log == [] then 0 else Moves(log[..|log| - 1], key) + if log[|log| - 1].key == key then 1 else 0
  }

  /** A deposit or withdrawal record is complete and has its entries: the ledger writes both in one transaction. */
  ghost predicate CashRecordsSettled(db: Db) {
    forall k :: k in db.records && db.records[k].category != TransferRecord ==> Settled(db, k)
  }

  /** A call that is still running and found a record found a transfer's. */
  ghost predicate FoundTransfers(w: World) {
    forall t :: t in w.txs && !w.txs[t].phase.Finished? && w.txs[t].existing.Some? ==>
      && w.txs[t].op.key in w.db.records
      && w.db.records[w.txs[t].op.key].category == TransferRecord
  }

  ghost predicate KeyInv(start: World, w: World) {
    && Inv(w) && CashRecordsSettled(w.db) && FoundTransfers(w)
    && (forall k :: k in start.db.records ==>
          k in w.db.records && w.db.records[k].category == start.db.records[k].category)
    && (forall k :: k !in w.db.records ==> Moves(w.log, k) == 0)
    && (forall k :: k in w.db.records && w.db.records[k].category != TransferRecord ==>
          Moves(w.log, k) == if k in start.db.records then 0 else 1)
  }

  lemma MovesAppend(log: seq<Op>, op: Op, key: Key)
    ensures Moves(log + [op], key) == Moves(log, key) + if op.key == key then 1 else 0
  {
    assert (log + [op])[..|log|] == log;
  }

  lemma EntriesRemain(es: seq<Entry>, more: seq<Entry>, key: Key)
    requires HasEntries(es, key)
    ensures HasEntries(es + more, key)
  {
    var i :| 0 <= i < |es| && es[i].key == key;
    assert (es + more)[i].key == key;
  }

  lemma CommitKeepsKeyInv(start: World, w: World, t: TxId)
    requires KeyInv(start, w) && t in w.txs && w.txs[t].phase.Ready?
    ensures KeyInv(start, Commit(w, t))
  {
    CommitKeepsInv(w, t);
    var tx, next := w.txs[t], Commit(w, t);
    forall k ensures Moves(next.log, k) == Moves(w.log, k) + if tx.op.key == k then 1 else 0 {
      MovesAppend(w.log, tx.op, k);
    }
    forall k | k in next.db.records && next.db.records[k].category != TransferRecord
      ensures Settled(next.db, k)
    {
      if tx.created && k == tx.op.key {
        assert tx.entries[0] == EntryOf(tx, 0);
        assert next.db.books.entries[|w.db.books.entries|].key == k;
      } else {
        assert Settled(w.db, k);
        EntriesRemain(w.db.books.entries, tx.entries, k);
      }
    }
  }

  /** What a statement does to a call's view of its record. */
  lemma NextTxRecord(w: World, t: TxId)
    requires t in w.txs && !w.txs[t].phase.Ready?
    ensures var tx, next := w.txs[t], NextTx(w, t);
            && next.op == tx.op
            && (tx.phase.Finished? ==> next == tx)
            && (if tx.phase.ReadRecord? then
                  if Settled(w.db, tx.op.key) then next.phase.Finished?
                  else next.existing == if tx.op.key in w.db.records then Some(w.db.records[tx.op.key]) else None
                else next.existing == tx.existing && !next.phase.ReadRecord?)
  {
  }

  /** What every step but a commit keeps: the log, the entries, and all but transfer records. */
  ghost predicate Quiet(w: World, next: World, remarked: Option<Key>) {
    && next.log == w.log && next.db.books == w.db.books
    && w.db.records.Keys <= next.db.records.Keys
    && (forall k :: k in w.db.records ==>
          && next.db.records[k].category == w.db.records[k].category
          && (next.db.records[k] == w.db.records[k] || remarked == Some(k)))
    && (forall k :: k in next.db.records && next.db.records[k].category != TransferRecord ==>
          k in w.db.records && next.db.records[k] == w.db.records[k])
    && (forall t :: t in next.txs && !next.txs[t].phase.Finished? && !next.txs[t].phase.ReadRecord? ==>
          && t in w.txs && next.txs[t].op == w.txs[t].op && !w.txs[t].phase.Finished?
          && (next.txs[t].existing == w.txs[t].existing
              || (w.txs[t].phase.ReadRecord? && (next.txs[t].existing.Some? ==> next.txs[t].op.key in w.db.records)))
          && (w.txs[t].phase.ReadRecord? ==> !Settled(w.db, next.txs[t].op.key)))
    && (forall t :: t in next.txs && next.txs[t].phase.ReadRecord? ==>
          next.txs[t].existing.None? || (t in w.txs && next.txs[t] == w.txs[t]))
  }

  lemma QuietStep(w: World, e: Event)
    requires !(e.Advance? && e.tx in w.txs && w.txs[e.tx].phase.Ready?)
    ensures Quiet(w, Step(w, e), if e.SetStatus? then Some(e.key) else None)
  {
    if e.Advance? && e.tx in w.txs {
      NextTxRecord(w, e.tx);
    }
  }

  lemma QuietKeepsKeyInv(start: World, w: World, next: World, remarked: Option<Key>)
    requires KeyInv(start, w) && Quiet(w, next, remarked) && Inv(next)
    ensures KeyInv(start, next)
  {
    forall k | k in next.db.records && next.db.records[k].category != TransferRecord
      ensures Settled(next.db, k)
    {
      assert Settled(w.db, k);
    }
    forall t | t in next.txs && !next.txs[t].phase.Finished? && next.txs[t].existing.Some?
      ensures next.txs[t].op.key in next.db.records
      ensures next.db.records[next.txs[t].op.key].category == TransferRecord
    {
      var key := next.txs[t].op.key;
      assert t in w.txs && w.txs[t].op.key == key;
      if w.txs[t].existing.None? || w.txs[t].phase.ReadRecord? {
        assert key in w.db.records;
      }
    }
  }

  lemma StepKeepsKeyInv(start: World, w: World, e: Event)
    requires KeyInv(start, w)
    ensures KeyInv(start, Step(w, e))
  {
    StepKeepsInv(w, e);
    if e.Advance? && e.tx in w.txs && w.txs[e.tx].phase.Ready? {
      CommitKeepsKeyInv(start, w, e.tx);
    } else {
      QuietStep(w, e);
      QuietKeepsKeyInv(start, w, Step(w, e), if e.SetStatus? then Some(e.key) else None);
    }
  }

  lemma {:induction false} RunKeepsKeyInv(start: World, es: seq<Event>)
    requires Initial(start) && CashRecordsSettled(start.db)
    ensures KeyInv(start, Run(start, es))
  {
    if es != [] {
      RunKeepsKeyInv(start, es[..|es| - 1]);
      StepKeepsKeyInv(start, Run(start, es[..|es| - 1]), es[|es| - 1]);
    }
  }

  /**
   A key whose record is a deposit's or a withdrawal's has moved money exactly
   once if the record is new, and never if it was there at the start: whatever
   replays ran, in sequence or at the same time.
   */
  lemma CashKeyMovesMoneyOnce(start: World, es: seq<Event>, key: Key)
    requires Initial(start) && CashRecordsSettled(start.db)
    requires var db := Run(start, es).db; key in db.records && db.records[key].category != TransferRecord
    ensures Moves(Run(start, es).log, key) == if key in start.db.records then 0 else 1
  {
    RunKeepsKeyInv(start, es);
  }

  // ---------------------------------------------------------------- once a key is settled

  /** A call that has changed nothing: it is about to test for a duplicate, found one, or crashed. */
  predicate Harmless(phase: Phase) {
    phase == ReadRecord || phase == Finished(Idempotent) || phase == Finished(Aborted(Crashed))
  }

  /** The calls with this key that are past their duplicate test and have not ended. */
  function InFlight(w: World, key: Key): set<TxId> {
    set t | t in w.txs && w.txs[t].op.key == key && !w.txs[t].phase.ReadRecord? && !w.txs[t].phase.Finished?
  }

  lemma StepKeepsSettled(w: World, e: Event, key: Key)
    requires Inv(w) && Settled(w.db, key) && (e.SetStatus? ==> e.key != key)
    ensures Settled(Step(w, e).db, key)
  {
    if e.Advance? && e.tx in w.txs && w.txs[e.tx].phase.Ready? {
      EntriesRemain(w.db.books.entries, w.txs[e.tx].entries, key);
    } else {
      QuietStep(w, e);
    }
  }

  /** One step of a call that has changed nothing, or its beginning. */
  lemma StepKeepsHarmless(w: World, e: Event, key: Key, t: TxId)
    requires Settled(w.db, key) && t in Step(w, e).txs && Step(w, e).txs[t].op.key == key
    requires t in w.txs ==> Harmless(w.txs[t].phase)
    ensures Harmless(Step(w, e).txs[t].phase)
  {
  }

  lemma StepKeepsOp(w: World, e: Event, t: TxId)
    requires t in w.txs
    ensures t in Step(w, e).txs && Step(w, e).txs[t].op == w.txs[t].op
  {
  }

  /** No call gets past the duplicate test of a settled key, and one that commits is no longer in flight. */
  lemma StepDrainsFlight(w: World, e: Event, key: Key)
    requires Inv(w) && Settled(w.db, key)
    ensures var next := Step(w, e);
            Moves(next.log, key) + |InFlight(next, key)| <= Moves(w.log, key) + |InFlight(w, key)|
  {
    var next := Step(w, e);
    forall t | t in InFlight(next, key) ensures t in InFlight(w, key) {
      NoneTakesOff(w, e, key, t);
    }
    if e.Advance? && e.tx in w.txs && w.txs[e.tx].phase.Ready? {
      MovesAppend(w.log, w.txs[e.tx].op, key);
      var rest := InFlight(w, key) - {e.tx};
      assert InFlight(next, key) <= rest;
      Subset(InFlight(next, key), rest);
    } else {
      QuietStep(w, e);
      Subset(InFlight(next, key), InFlight(w, key));
    }
  }

  lemma NoneTakesOff(w: World, e: Event, key: Key, t: TxId)
    requires Settled(w.db, key) && t in InFlight(Step(w, e), key)
    ensures t in InFlight(w, key)
  {
  }

  lemma Subset(a: set<TxId>, b: set<TxId>)
    requires a <= b
    ensures |a| <= |b|
  {
    if a != {} {
      var t :| t in a;
      Subset(a - {t}, b - {t});
    }
  }

  /**
   Once a record is completed and has entries, every call with its key that has yet to
   pass the duplicate test changes nothing, however many there are and whatever else is
   in flight; transfers too, until the environment re-marks the record.
   */
  lemma {:induction false} SettledKeyMovesNothing(w: World, es: seq<Event>, key: Key, t: TxId)
    requires Inv(w) && Settled(w.db, key)
    requires forall i :: 0 <= i < |es| && es[i].SetStatus? ==> es[i].key != key
    requires t in w.txs ==> w.txs[t].phase.ReadRecord?
    ensures Settled(Run(w, es).db, key)
    ensures var end := Run(w, es); t in end.txs && end.txs[t].op.key == key ==> Harmless(end.txs[t].phase)
  {
    if es != [] {
      var before := Run(w, es[..|es| - 1]);
      SettledKeyMovesNothing(w, es[..|es| - 1], key, t);
      RunKeepsInv(w, es[..|es| - 1]);
      StepKeepsSettled(before, es[|es| - 1], key);
      if t in before.txs {
        StepKeepsOp(before, es[|es| - 1], t);
      }
      if t in Run(w, es).txs && Run(w, es).txs[t].op.key == key {
        StepKeepsHarmless(before, es[|es| - 1], key, t);
      }
    }
  }

  /** Only the calls that were already past the test when the record was settled can still move money, each once. */
  lemma {:induction false} OnlyCallsInFlightMove(w: World, es: seq<Event>, key: Key)
    requires Inv(w) && Settled(w.db, key)
    requires forall i :: 0 <= i < |es| && es[i].SetStatus? ==> es[i].key != key
    ensures Settled(Run(w, es).db, key)
    ensures Moves(Run(w, es).log, key) + |InFlight(Run(w, es), key)| <= Moves(w.log, key) + |InFlight(w, key)|
  {
    if es != [] {
      var before := Run(w, es[..|es| - 1]);
      OnlyCallsInFlightMove(w, es[..|es| - 1], key);
      RunKeepsInv(w, es[..|es| - 1]);
      StepKeepsSettled(before, es[|es| - 1], key);
      StepDrainsFlight(before, es[|es| - 1], key);
    }
  }

  /**
   Exactly when the replay of a successful call is recognised: its record was
   completed already, or the call created it and was not a transfer.
   */
  lemma ReplayRecognisedIff(db: Db, op: Op)
    requires Execute(db, op).1 == Committed
    ensures Execute(Execute(db, op).0, op).1 == Idempotent
       <==> if op.key in db.records then db.records[op.key].status == Completed else !op.Transfer?
  {
    var after := Execute(db, op).0;
    assert after.books.entries[|db.books.entries|].key == op.key;
  }

  /** A transfer replayed before anyone marks its record moves the money again. */
  lemma TransferReplayMovesTwice()
    ensures exists db: Db, op: Op ::
      var (once, first) := Execute(db, op);
      var (twice, second) := Execute(once, op);
      && first == Committed && second == Committed
      && once.books.rows == [Row(70, 1), Row(30, 1)]
      && twice.books.rows == [Row(40, 2), Row(60, 2)]
  {
    var db := Db(Books([Row(100, 0), Row(0, 0)], []), [Active, Active], map[]);
    var op := Transfer(7, 0, 1, 30);
    var once := Execute(db, op).0;
    assert once.books.rows == [Row(70, 1), Row(30, 1)];
    assert once.records[7].status == Pending;
    var twice := Execute(once, op).0;
    assert twice.books.rows == [Row(40, 2), Row(60, 2)];
  }
}
