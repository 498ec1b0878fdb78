/**
 Cursor pagination of an account's ledger entries.  The cursor handed out is the
 id of the extra row that was fetched and dropped; the next page starts after it.
 */
module LedgerPaging {
  import opened Wrappers

  type Id = nat

  datatype Page = Page(entries: seq<Id>, nextCursor: Option<Id>)

  /** Where a query with this cursor starts; past the end when the cursor row is gone. */
  function StartOf(list: seq<Id>, cursor: Option<Id>): nat {
    match cursor
    case None => 0
    case Some(id) => IndexOf(list, id) + 1
  }

  /** The rows a query sees: `take` of them after the cursor, in list order. */
  function Find(list: seq<Id>, cursor: Option<Id>, take: nat): seq<Id> {
    var start := StartOf(list, cursor);
    if start >= |list| then [] else if start + take < |list| then list[start..start + take] else list[start..]
  }

  class LedgerRepository {
    // The rows that match the filters, newest first.
    var list: seq<Id>

    constructor (list: seq<Id>)
      ensures this.list == list
    {
      this.list := list;
    }

    /** A page is the next `limit` rows; a cursor is returned exactly when rows remain beyond it. */
    method GetAccountLedgerEntries(cursor: Option<Id>, limit: nat) returns (page: Page)
      ensures page == PageAt(list, StartOf(list, cursor), limit)
    {
      var entries := Find(list, cursor, limit + 1);
      var nextCursor := None;
      if |entries| > limit {
        nextCursor := Some(entries[|entries| - 1]);
        entries := entries[..|entries| - 1];
      }
      page := Page(entries, nextCursor);
    }
  }

  /** The page that begins at row `start`, and the row whose id becomes the cursor. */
  function PageAt(list: seq<Id>, start: nat, limit: nat): Page {
    if start >= |list| then Page([], None)
    else if start + limit < |list| then Page(list[start..start + limit], Some(list[start + limit]))
    else Page(list[start..], None)
  }

  /** The page after row `i`, and the cursor that comes with it. */
  lemma PageAfterRow(list: seq<Id>, i: nat, limit: nat)
    requires Distinct(list) && i < |list|
    ensures PageAt(list, StartOf(list, Some(list[i])), limit) ==
            if i + 1 + limit < |list| then Page(list[i + 1..i + 1 + limit], Some(list[i + 1 + limit]))
            else Page(list[i + 1..], None)
  {
    assert IndexOf(list, list[i]) == i;
  }

  /** Without a cursor the page is the first; after a row that is gone there is nothing more. */
  lemma PageFromTheTop(list: seq<Id>, limit: nat, gone: Id)
    requires gone !in list
    ensures PageAt(list, StartOf(list, None), limit) ==
            if limit < |list| then Page(list[..limit], Some(list[limit])) else Page(list, None)
    ensures PageAt(list, StartOf(list, Some(gone)), limit) == Page([], None)
  {
  }

  /** All the rows a client sees that follows `nextCursor` until there is none. */
  function Walk(list: seq<Id>, cursor: Option<Id>, limit: nat): seq<Id>
    requires Distinct(list)
    decreases |list| - StartOf(list, cursor)
  {
    var page := PageAt(list, StartOf(list, cursor), limit);
    if page.nextCursor.None? then page.entries
    else
      NextStart(list, StartOf(list, cursor), limit);
      page.entries + Walk(list, page.nextCursor, limit)
  }

  lemma NextStart(list: seq<Id>, start: nat, limit: nat)
    requires Distinct(list) && start + limit < |list|
    ensures StartOf(list, PageAt(list, start, limit).nextCursor) == start + limit + 1
  {
    var i := IndexOf(list, list[start + limit]);
    assert i < |list|;
  }

  /** Row i, counted from the start of the walk, is shown. */
  predicate Shown(i: nat, limit: nat) {
    i % (limit + 1) != limit
  }

  /** The rows at or after `from` that the walk shows, in list order. */
  function ShownRows(list: seq<Id>, from: nat, limit: nat): seq<Id>
    decreases |list| - from
  {
    if from >= |list| then []
    else (if Shown(from, limit) then [list[from]] else []) + ShownRows(list, from + 1, limit)
  }

  lemma {:induction false} PageRows(list: seq<Id>, start: nat, k: nat, limit: nat)
    requires start % (limit + 1) == 0 && k <= limit && start + k <= |list|
    ensures ShownRows(list, start, limit) == list[start..start + k] + ShownRows(list, start + k, limit)
    decreases k
  {
    if k > 0 {
      PageRows(list, start, k - 1, limit);
      var i := start + k - 1;
      RowOfPage(start, k - 1, limit);
      assert list[start..i] + [list[i]] == list[start..start + k];
      assert ShownRows(list, i, limit) == [list[i]] + ShownRows(list, i + 1, limit);
    }
  }

  lemma RowOfPage(start: nat, k: nat, limit: nat)
    requires start % (limit + 1) == 0 && k <= limit
    ensures (start + k) % (limit + 1) == k
    ensures (start + limit + 1) % (limit + 1) == 0
  {
    var m := limit + 1;
    var q := start / m;
    assert start == q * m;
    ModUnique(start + k, q, k, m);
    assert start + m == (q + 1) * m;
    ModUnique(start + m, q + 1, 0, m);
  }

  lemma ModUnique(n: int, q: int, r: int, m: int)
    requires n == q * m + r && 0 <= r < m
    ensures n % m == r
  {
    var d := n / m - q;
    assert n == (n / m) * m + n % m;
    assert d * m == r - n % m;
    assert (d >= 1 ==> d * m >= m) && (d <= -1 ==> d * m <= -m);
  }

  lemma FullPage(list: seq<Id>, start: nat, limit: nat)
    requires start % (limit + 1) == 0 && start + limit < |list|
    ensures ShownRows(list, start, limit)
         == list[start..start + limit] + ShownRows(list, start + limit + 1, limit)
  {
    PageRows(list, start, limit, limit);
    RowOfPage(start, limit, limit);
  }

  lemma LastPage(list: seq<Id>, start: nat, limit: nat)
    requires start % (limit + 1) == 0 && start <= |list| <= start + limit
    ensures ShownRows(list, start, limit) == list[start..]
  {
    PageRows(list, start, |list| - start, limit);
  }

  lemma WalkStep(list: seq<Id>, cursor: Option<Id>, limit: nat)
    requires Distinct(list)
    ensures var start := StartOf(list, cursor);
            var page := PageAt(list, start, limit);
            if start + limit < |list| then
              && page.nextCursor.Some? && StartOf(list, page.nextCursor) == start + limit + 1
              && Walk(list, cursor, limit) == list[start..start + limit] + Walk(list, page.nextCursor, limit)
            else Walk(list, cursor, limit) == if start < |list| then list[start..] else []
  {
    if StartOf(list, cursor) + limit < |list| {
      NextStart(list, StartOf(list, cursor), limit);
    }
  }

  lemma {:induction false} WalkFrom(list: seq<Id>, cursor: Option<Id>, limit: nat)
    requires Distinct(list) && StartOf(list, cursor) % (limit + 1) == 0
    ensures Walk(list, cursor, limit) == ShownRows(list, StartOf(list, cursor), limit)
    decreases |list| - StartOf(list, cursor)
  {
    var start := StartOf(list, cursor);
    WalkStep(list, cursor, limit);
    if start + limit < |list| {
      var next := PageAt(list, start, limit).nextCursor;
      assert (start + limit + 1) % (limit + 1) == 0 by {
        RowOfPage(start, limit, limit);
      }
      FullPage(list, start, limit);
      WalkFrom(list, next, limit);
    } else if start < |list| {
      LastPage(list, start, limit);
    }
  }

  /**
   Over any list and any limit, the walk shows exactly the rows i with
   i mod (limit + 1) different from limit, in order: one row per full page is lost.
   */
  lemma WalkShows(list: seq<Id>, limit: nat)
    requires Distinct(list)
    ensures Walk(list, None, limit) == ShownRows(list, 0, limit)
  {
    WalkFrom(list, None, limit);
  }

  lemma PrependDistinct(id: Id, rest: seq<Id>)
    requires Distinct(rest) && id !in rest
    ensures Distinct([id] + rest)
  {
    forall i, j | 0 <= i < j < |rest| + 1 ensures ([id] + rest)[i] != ([id] + rest)[j] {
      assert rest[j - 1] in rest;
    }
  }

  /** Only later rows are shown, and none twice. */
  lemma {:induction false} ShownOnce(list: seq<Id>, from: nat, limit: nat)
    requires Distinct(list) && from <= |list|
    ensures forall id :: id in ShownRows(list, from, limit) ==> id in list[from..]
    ensures Distinct(ShownRows(list, from, limit))
    decreases |list| - from
  {
    if from < |list| {
      ShownOnce(list, from + 1, limit);
      assert list[from..] == [list[from]] + list[from + 1..];
      assert list[from] !in list[from + 1..];
      PrependDistinct(list[from], ShownRows(list, from + 1, limit));
    }
  }

  /** A row is shown if and only if its position is. */
  lemma {:induction false} ShownIff(list: seq<Id>, from: nat, limit: nat, i: nat)
    requires Distinct(list) && from <= i < |list|
    ensures list[i] in ShownRows(list, from, limit) <==> Shown(i, limit)
    decreases |list| - from
  {
    if from < i {
      ShownIff(list, from + 1, limit, i);
    } else {
      ShownOnce(list, from + 1, limit);
    }
  }

  /** Of the whole walk: no entry is repeated, and row i is visited exactly when it is not an extra row. */
  lemma WalkVisits(list: seq<Id>, limit: nat, i: nat)
    requires Distinct(list) && i < |list|
    ensures Distinct(Walk(list, None, limit))
    ensures list[i] in Walk(list, None, limit) <==> i % (limit + 1) != limit
  {
    WalkShows(list, limit);
    ShownOnce(list, 0, limit);
    ShownIff(list, 0, limit, i);
  }

  lemma ShortWalk(list: seq<Id>, limit: nat)
    requires Distinct(list) && |list| <= limit
    ensures Walk(list, None, limit) == list
  {
    WalkShows(list, limit);
    LastPage(list, 0, limit);
  }

  lemma LongWalk(list: seq<Id>, limit: nat)
    requires Distinct(list) && |list| > limit
    ensures list[limit] !in Walk(list, None, limit)
  {
    assert limit % (limit + 1) == limit;
    WalkVisits(list, limit, limit);
  }

  /** The walk is complete exactly when everything fits on the first page. */
  lemma WalkCompleteIff(list: seq<Id>, limit: nat)
    requires Distinct(list)
    ensures Walk(list, None, limit) == list <==> |list| <= limit
  {
    if |list| <= limit {
      ShortWalk(list, limit);
    } else {
      LongWalk(list, limit);
      assert list[limit] in list;
    }
  }
}
