/**
 What every interleaved run of the ledger's transactions keeps: it equals a
 serial run, its entries chain, money is conserved, nobody is overdrawn.
 */
module LedgerSerial {
  import opened Wrappers
  import opened Ledger

  /** The serial run: one operation after the other. */
  function Replay(b: Books, ops: seq<Op>): (r: Books)
    requires AllInRange(b, ops)
    ensures |r.rows| == |b.rows|
    decreases |ops|
  {
    if ops == [] then b else Post(Replay(b, ops[..|ops| - 1]), ops[|ops| - 1])
  }

  /** Each operation is covered by the balances its predecessors left. */
  ghost predicate Covered(b: Books, ops: seq<Op>)
    requires AllInRange(b, ops)
    decreases |ops|
  {
    ops == [] || (
      var before := ops[..|ops| - 1];
      Covered(b, before) && Funded(Replay(b, before), ops[|ops| - 1]) && DistinctLegs(ops[|ops| - 1]))
  }

  /** A step either leaves the books alone or books exactly the operation it logs. */
  lemma StepBooks(w: World, e: Event)
    requires Inv(w)
    ensures var next := Step(w, e);
            || (next.db.books == w.db.books && next.log == w.log)
            || (exists t :: t in w.txs && e == Advance(t)
                  && next.log == w.log + [w.txs[t].op]
                  && InRange(w.db.books, w.txs[t].op) && Funded(w.db.books, w.txs[t].op)
                  && DistinctLegs(w.txs[t].op)
                  && next.db.books == Post(w.db.books, w.txs[t].op))
  {
    if e.Advance? && e.tx in w.txs && w.txs[e.tx].phase.Ready? {
      CommitIsPost(w, e.tx);
    }
  }

  lemma ReplayAppend(b: Books, ops: seq<Op>, op: Op)
    requires AllInRange(b, ops) && Covered(b, ops) && InRange(Replay(b, ops), op)
    requires Funded(Replay(b, ops), op) && DistinctLegs(op)
    ensures AllInRange(b, ops + [op]) && Covered(b, ops + [op])
    ensures Replay(b, ops + [op]) == Post(Replay(b, ops), op)
  {
    assert (ops + [op])[..|ops|] == ops;
  }

  /**
   Serializability.  However calls interleave, crash and conflict, the books are
   those of running the committed operations alone, in commit order; no update
   is lost, and no commit spent money that was not there.
   */
  lemma {:induction false} Serializable(w: World, es: seq<Event>)
    requires Initial(w)
    ensures var end := Run(w, es);
            && AllInRange(w.db.books, end.log)
            && end.db.books == Replay(w.db.books, end.log)
            && Covered(w.db.books, end.log)
  {
    if es != [] {
      var before := Run(w, es[..|es| - 1]);
      Serializable(w, es[..|es| - 1]);
      RunKeepsInv(w, es[..|es| - 1]);
      StepBooks(before, es[|es| - 1]);
      var end := Run(w, es);
      if end.log != before.log {
        ReplayAppend(w.db.books, before.log, end.log[|before.log|]);
      }
    }
  }

  lemma {:induction false} RunConcat(w: World, es: seq<Event>, more: seq<Event>)
    ensures Run(w, es + more) == Run(Run(w, es), more)
    decreases |more|
  {
    if more == [] {
      assert es + more == es;
    } else {
      RunConcat(w, es, more[..|more| - 1]);
      assert (es + more)[..|es + more| - 1] == es + more[..|more| - 1];
    }
  }

  /** The same for a trace that begins in the middle of a run, as one operation's does. */
  lemma SerializableContinued(w: World, es: seq<Event>, trace: seq<Event>)
    requires Initial(w)
    ensures var end := Run(Run(w, es), trace);
            && AllInRange(w.db.books, end.log)
            && end.db.books == Replay(w.db.books, end.log)
            && Covered(w.db.books, end.log)
  {
    RunConcat(w, es, trace);
    Serializable(w, es + trace);
  }

  function CommittedCalls(w: World): set<TxId> {
    set t | t in w.txs && w.txs[t].phase == Finished(Committed)
  }

  lemma StatementNeverCommits(w: World, t: TxId)
    requires t in w.txs
    ensures NextTx(w, t).phase == Finished(Committed) <==> w.txs[t].phase == Finished(Committed)
  {
  }

  lemma StepLogsCommit(w: World, e: Event)
    ensures var next := Step(w, e);
            if e.Advance? && e.tx in w.txs && w.txs[e.tx].phase.Ready?
            then
              && e.tx !in CommittedCalls(w) && CommittedCalls(next) == CommittedCalls(w) + {e.tx}
              && next.log == w.log + [w.txs[e.tx].op]
            else CommittedCalls(next) == CommittedCalls(w) && next.log == w.log
    ensures forall t :: t in w.txs ==> t in Step(w, e).txs && Step(w, e).txs[t].op == w.txs[t].op
  {
    if e.Advance? && e.tx in w.txs {
      StatementNeverCommits(w, e.tx);
    }
  }

  /** `who` are the calls that committed, each once, in the order of the log and with its operations. */
  ghost predicate LoggedBy(w: World, who: seq<TxId>) {
    && |who| == |w.log| && Distinct(who)
    && (forall i :: 0 <= i < |who| ==> who[i] in CommittedCalls(w) && w.txs[who[i]].op == w.log[i])
    && (forall t :: t in CommittedCalls(w) ==> t in who)
  }

  lemma StepKeepsLoggedBy(w: World, e: Event, who: seq<TxId>) returns (who': seq<TxId>)
    requires LoggedBy(w, who)
    ensures LoggedBy(Step(w, e), who') && who <= who'
  {
    StepLogsCommit(w, e);
    who' := who;
    if e.Advance? && e.tx in w.txs && w.txs[e.tx].phase.Ready? {
      who' := who + [e.tx];
      assert forall i :: 0 <= i < |who| ==> who[i] != e.tx && who'[i] == who[i];
    }
  }

  /**
   The log is exactly the calls that ended committed: there is one call for each place in
   it, a different one for each, with the operation that stands there, and no committed
   call is missing.
   */
  lemma {:induction false} EveryCommitIsLogged(w: World, es: seq<Event>) returns (who: seq<TxId>)
    requires Initial(w)
    ensures LoggedBy(Run(w, es), who)
  {
    if es == [] {
      who := [];
    } else {
      who := EveryCommitIsLogged(w, es[..|es| - 1]);
      who := StepKeepsLoggedBy(Run(w, es[..|es| - 1]), es[|es| - 1], who);
    }
  }

  // ---------------------------------------------------------------- the ledger chain

  /** The entries of one account, in order. */
  function History(entries: seq<Entry>, account: nat): seq<Entry>
    decreases |entries|
  {
    if entries == [] then []
    else
      var rest := History(entries[..|entries| - 1], account);
      var last := entries[|entries| - 1];
      if last.account == account then rest + [last] else rest
  }

  function SumOf(es: seq<Entry>, kind: Kind): int
    decreases |es|
  {
    if es == [] then 0
    else SumOf(es[..|es| - 1], kind) + if es[|es| - 1].kind == kind then es[|es| - 1].amount else 0
  }

  /** The running balance that entries leave. */
  function Closing(opening: int, es: seq<Entry>): int {
    if es == [] then opening else es[|es| - 1].balanceAfter
  }

  /** Each entry's running balance continues the one before it. */
  predicate Chained(opening: int, es: seq<Entry>)
    decreases |es|
  {
    es == [] || (
      var before, last := es[..|es| - 1], es[|es| - 1];
      && Chained(opening, before)
      && last.balanceAfter == Closing(opening, before) + Signed(last.kind, last.amount))
  }

  lemma {:induction false} ChainedAt(opening: int, es: seq<Entry>, i: nat)
    requires Chained(opening, es) && i < |es|
    ensures es[i].balanceAfter
         == (if i == 0 then opening else es[i - 1].balanceAfter) + Signed(es[i].kind, es[i].amount)
    decreases |es|
  {
    if i < |es| - 1 {
      ChainedAt(opening, es[..|es| - 1], i);
    }
  }

  /** `es` explains how a row got from `opening` to `closing`. */
  predicate Explains(opening: Row, es: seq<Entry>, closing: Row) {
    && Chained(opening.balance, es)
    && closing.balance == Closing(opening.balance, es)
    && closing.balance == opening.balance + SumOf(es, Credit) - SumOf(es, Debit)
    && closing.version == opening.version + |es|
  }

  lemma HistoryAppend(es: seq<Entry>, e: Entry, account: nat)
    ensures History(es + [e], account) == History(es, account) + if e.account == account then [e] else []
  {
    assert (es + [e])[..|es|] == es;
  }

  lemma ChainedAppend(opening: int, es: seq<Entry>, e: Entry)
    requires Chained(opening, es) && e.balanceAfter == Closing(opening, es) + Signed(e.kind, e.amount)
    ensures Chained(opening, es + [e])
  {
    assert (es + [e])[..|es|] == es;
  }

  lemma SumAppend(es: seq<Entry>, e: Entry, kind: Kind)
    ensures SumOf(es + [e], kind) == SumOf(es, kind) + if e.kind == kind then e.amount else 0
  {
    assert (es + [e])[..|es|] == es;
  }

  lemma ExplainsAppend(opening: Row, es: seq<Entry>, row: Row, e: Entry)
    requires Explains(opening, es, row) && e.balanceAfter == row.balance + Signed(e.kind, e.amount)
    ensures Explains(opening, es + [e], Row(e.balanceAfter, row.version + 1))
  {
    ChainedAppend(opening.balance, es, e);
    SumAppend(es, e, Credit);
    SumAppend(es, e, Debit);
  }

  lemma PostLegHistory(base: nat, b: Books, op: Op, leg: Leg, account: nat)
    requires leg.account < |b.rows| && base <= |b.entries|
    ensures var after := PostLeg(b, op, leg);
            && base <= |after.entries|
            && var before := History(b.entries[base..], account);
               History(after.entries[base..], account)
               == if leg.account == account then before + [after.entries[|b.entries|]] else before
  {
    var after := PostLeg(b, op, leg);
    var e := after.entries[|b.entries|];
    assert after.entries[base..] == b.entries[base..] + [e];
    HistoryAppend(b.entries[base..], e, account);
  }

  lemma PostLegExplains(opening: Row, base: nat, b: Books, op: Op, leg: Leg, account: nat)
    requires leg.account < |b.rows| && account < |b.rows| && base <= |b.entries|
    requires Explains(opening, History(b.entries[base..], account), b.rows[account])
    ensures var after := PostLeg(b, op, leg);
            && base <= |after.entries|
            && Explains(opening, History(after.entries[base..], account), after.rows[account])
  {
    var after := PostLeg(b, op, leg);
    PostLegHistory(base, b, op, leg, account);
    if leg.account == account {
      ExplainsAppend(opening, History(b.entries[base..], account), b.rows[account], after.entries[|b.entries|]);
    }
  }

  lemma PostExplains(opening: Row, base: nat, b: Books, op: Op, account: nat)
    requires InRange(b, op) && account < |b.rows| && base <= |b.entries|
    requires Explains(opening, History(b.entries[base..], account), b.rows[account])
    ensures var after := Post(b, op);
            && base <= |after.entries| && b.entries <= after.entries
            && Explains(opening, History(after.entries[base..], account), after.rows[account])
  {
    var legs := Legs(op);
    var first := PostLeg(b, op, legs[0]);
    PostLegExplains(opening, base, b, op, legs[0], account);
    assert b.entries <= first.entries;
    if |legs| == 2 {
      PostLegExplains(opening, base, first, op, legs[1], account);
      assert first.entries <= PostLeg(first, op, legs[1]).entries;
    }
  }

  lemma {:induction false} ReplayExplains(b: Books, ops: seq<Op>, account: nat)
    requires AllInRange(b, ops) && account < |b.rows|
    ensures var r := Replay(b, ops);
            && b.entries <= r.entries
            && Explains(b.rows[account], History(r.entries[|b.entries|..], account), r.rows[account])
  {
    if ops != [] {
      ReplayExplains(b, ops[..|ops| - 1], account);
      PostExplains(b.rows[account], |b.entries|, Replay(b, ops[..|ops| - 1]), ops[|ops| - 1], account);
    }
  }

  /**
   In every reachable state each account's new entries form a chain from its
   opening balance to its stored balance, one version per entry, and old entries
   are never touched.
   */
  lemma LedgerChain(w: World, es: seq<Event>, account: nat)
    requires Initial(w) && account < |w.db.books.rows|
    ensures var start, end := w.db.books, Run(w, es).db.books;
            && |end.rows| == |start.rows|
            && start.entries <= end.entries
            && Explains(start.rows[account], History(end.entries[|start.entries|..], account), end.rows[account])
  {
    Serializable(w, es);
    ReplayExplains(w.db.books, Run(w, es).log, account);
  }

  // ---------------------------------------------------------------- conservation

  function Total(rows: seq<Row>): int
    decreases |rows|
  {
    if rows == [] then 0 else Total(rows[..|rows| - 1]) + rows[|rows| - 1].balance
  }

  /** Money that entered the bank less money that left it; transfers do neither. */
  function NetInflow(ops: seq<Op>): int
    decreases |ops|
  {
    if ops == [] then 0
    else
      NetInflow(ops[..|ops| - 1]) +
      match ops[|ops| - 1]
      case Transfer(_, _, _, _) => 0
      case Deposit(_, _, amount) => amount
      case Withdrawal(_, _, amount) => -amount
  }

  lemma {:induction false} TotalUpdate(rows: seq<Row>, i: nat, row: Row)
    requires i < |rows|
    ensures Total(rows[i := row]) == Total(rows) - rows[i].balance + row.balance
    decreases |rows|
  {
    var n := |rows| - 1;
    if i < n {
      TotalUpdate(rows[..n], i, row);
      assert rows[i := row][..n] == rows[..n][i := row];
    } else {
      assert rows[i := row][..n] == rows[..n];
    }
  }

  lemma {:induction false} ReplayTotal(b: Books, ops: seq<Op>)
    requires AllInRange(b, ops)
    ensures Total(Replay(b, ops).rows) == Total(b.rows) + NetInflow(ops)
  {
    if ops != [] {
      ReplayTotal(b, ops[..|ops| - 1]);
      var before, op := Replay(b, ops[..|ops| - 1]), ops[|ops| - 1];
      var legs := Legs(op);
      var first := PostLeg(before, op, legs[0]);
      TotalUpdate(before.rows, legs[0].account, first.rows[legs[0].account]);
      if |legs| == 2 {
        TotalUpdate(first.rows, legs[1].account, PostLeg(first, op, legs[1]).rows[legs[1].account]);
      }
    }
  }

  /** Money is conserved over every interleaved run. */
  lemma Conservation(w: World, es: seq<Event>)
    requires Initial(w)
    ensures Total(Run(w, es).db.books.rows) == Total(w.db.books.rows) + NetInflow(Run(w, es).log)
  {
    Serializable(w, es);
    ReplayTotal(w.db.books, Run(w, es).log);
  }

  predicate NonNegative(rows: seq<Row>) {
    forall i :: 0 <= i < |rows| ==> rows[i].balance >= 0
  }

  /** Every call that begins carries a positive amount: what the route validators admit. */
  predicate PositiveAmounts(es: seq<Event>) {
    forall i :: 0 <= i < |es| && es[i].Begin? ==> es[i].op.amount > 0
  }

  lemma {:induction false} CoveredStaysNonNegative(b: Books, ops: seq<Op>)
    requires AllInRange(b, ops) && Covered(b, ops) && NonNegative(b.rows)
    requires forall i :: 0 <= i < |ops| ==> ops[i].amount > 0
    ensures NonNegative(Replay(b, ops).rows)
  {
    if ops != [] {
      CoveredStaysNonNegative(b, ops[..|ops| - 1]);
      var before, op := Replay(b, ops[..|ops| - 1]), ops[|ops| - 1];
      var legs := Legs(op);
      assert legs[0].kind == Debit ==> op.amount <= before.rows[legs[0].account].balance;
      assert NonNegative(PostLeg(before, op, legs[0]).rows);
    }
  }

  lemma StepAmounts(w: World, e: Event)
    requires forall t :: t in w.txs ==> w.txs[t].op.amount > 0
    requires e.Begin? ==> e.op.amount > 0
    ensures forall t :: t in Step(w, e).txs ==> Step(w, e).txs[t].op.amount > 0
    ensures Step(w, e).log == w.log || (|Step(w, e).log| == |w.log| + 1
              && Step(w, e).log[..|w.log|] == w.log && Step(w, e).log[|w.log|].amount > 0)
  {
  }

  lemma {:induction false} LoggedAmounts(w: World, es: seq<Event>)
    requires Initial(w) && PositiveAmounts(es)
    ensures forall t :: t in Run(w, es).txs ==> Run(w, es).txs[t].op.amount > 0
    ensures forall i :: 0 <= i < |Run(w, es).log| ==> Run(w, es).log[i].amount > 0
  {
    if es != [] {
      LoggedAmounts(w, es[..|es| - 1]);
      assert es[|es| - 1].Begin? ==> es[|es| - 1].op.amount > 0;
      StepAmounts(Run(w, es[..|es| - 1]), es[|es| - 1]);
    }
  }

  /** No interleaving can overdraw an account. */
  lemma NoOverdraft(w: World, es: seq<Event>)
    requires Initial(w) && NonNegative(w.db.books.rows) && PositiveAmounts(es)
    ensures NonNegative(Run(w, es).db.books.rows)
  {
    Serializable(w, es);
    LoggedAmounts(w, es);
    CoveredStaysNonNegative(w.db.books, Run(w, es).log);
  }
}
