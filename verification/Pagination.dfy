/** Paged listings filtered by authorization after fetching, while the table changes between
    fetches: the table at fetch k is tables(k). */
module Pagination {
  import opened Basics
  import opened Keyset

  // ---------------------------------------------------------------- filtering a batch

  function Kept(rows: seq<Row>, auth: Row -> bool): (r: seq<Row>)
    ensures forall x :: x in r <==> x in rows && auth(x)
  {
    if rows == [] then []
    else
      var rest := Kept(rows[..|rows| - 1], auth);
      var last := rows[|rows| - 1];
      assert rows == rows[..|rows| - 1] + [last];
      if auth(last) then rest + [last] else rest
  }

  lemma {:induction false} KeptSorted(desc: bool, rows: seq<Row>, auth: Row -> bool)
    requires Sorted(desc, rows)
    ensures Sorted(desc, Kept(rows, auth))
  {
    if rows != [] {
      var init, last := rows[..|rows| - 1], rows[|rows| - 1];
      KeptSorted(desc, init, auth);
      forall x | x in Kept(init, auth)
        ensures Before(desc, x, last)
      {
        var i :| 0 <= i < |init| && init[i] == x;
      }
      SortedAppend(desc, Kept(init, auth), [last]);
    }
  }

  method AppendAuthorized(page: seq<Row>, rows: seq<Row>, auth: Row -> bool) returns (out: seq<Row>)
    ensures out == page + Kept(rows, auth)
  {
    out := page;
    for i := 0 to |rows|
      invariant out == page + Kept(rows[..i], auth)
    {
      assert rows[..i + 1][..i] == rows[..i];
      if auth(rows[i]) {
        out := out + [rows[i]];
      }
    }
    assert rows[..|rows|] == rows;
  }

  lemma SortedAppend(desc: bool, a: seq<Row>, b: seq<Row>)
    requires Sorted(desc, a) && Sorted(desc, b)
    requires forall x, y :: x in a && y in b ==> Before(desc, x, y)
    ensures Sorted(desc, a + b)
  {
  }

  // ---------------------------------------------------------------- one fetch

  predicate Passes(desc: bool, cursor: Option<Row>, r: Row)
  {
    cursor.None? || Selected(desc, OrEmpty(cursor.value.value), cursor.value.uuid, r)
  }

  /** The rows after the cursor in listing order, NULL or not. */
  predicate After(desc: bool, cursor: Option<Row>, r: Row)
  {
    cursor.None? || Before(desc, cursor.value, r)
  }

  /** SELECT ... WHERE the cursor admits the row, ORDER BY the listing order, LIMIT. */
  method Fetch(table: seq<Row>, desc: bool, cursor: Option<Row>, limit: nat) returns (rows: seq<Row>)
    requires Sorted(desc, table)
    ensures BatchOf(table, desc, cursor, limit, rows)
  {
    rows := [];
    for i := 0 to |table|
      invariant Scanned(table, desc, cursor, limit, i, rows)
    {
      ScanRow(table, desc, cursor, limit, i, rows);
      if |rows| < limit && Passes(desc, cursor, table[i]) {
        rows := rows + [table[i]];
      }
    }
  }

  /** The state of a fetch that has looked at the first i rows. */
  ghost predicate Scanned(table: seq<Row>, desc: bool, cursor: Option<Row>, limit: nat, i: nat, rows: seq<Row>)
  {
    && i <= |table| && Sorted(desc, rows) && |rows| <= limit
    && (forall r :: r in rows ==> r in table[..i] && Passes(desc, cursor, r))
    && (forall k :: 0 <= k < i && Passes(desc, cursor, table[k]) ==>
          table[k] in rows || (|rows| == limit && (limit > 0 ==> Before(desc, rows[limit - 1], table[k]))))
    && (cursor.None? ==> rows == table[..if limit < i then limit else i])
  }

  lemma ScanRow(table: seq<Row>, desc: bool, cursor: Option<Row>, limit: nat, i: nat, rows: seq<Row>)
    requires Sorted(desc, table) && i < |table| && Scanned(table, desc, cursor, limit, i, rows)
    ensures Scanned(table, desc, cursor, limit, i + 1,
                    if |rows| < limit && Passes(desc, cursor, table[i]) then rows + [table[i]] else rows)
  {
    assert table[..i + 1] == table[..i] + [table[i]];
    if |rows| < limit && Passes(desc, cursor, table[i]) {
      TakeRow(table, desc, cursor, limit, i, rows);
    } else if |rows| == limit && limit > 0 {
      assert rows[limit - 1] in rows;
    }
  }

  lemma TakeRow(table: seq<Row>, desc: bool, cursor: Option<Row>, limit: nat, i: nat, rows: seq<Row>)
    requires i < |table| && Scanned(table, desc, cursor, limit, i, rows)
    requires forall r :: r in rows ==> Before(desc, r, table[i])
    requires |rows| < limit && Passes(desc, cursor, table[i])
    ensures Scanned(table, desc, cursor, limit, i + 1, rows + [table[i]])
  {
    assert table[..i + 1] == table[..i] + [table[i]];
    SortedAppend(desc, rows, [table[i]]);
    assert (rows + [table[i]])[|rows|] == table[i];
    assert forall k :: 0 <= k < i && table[k] in rows ==> table[k] in rows + [table[i]];
  }

  // ---------------------------------------------------------------- the batch loop

  /** Present at every fetch from lo up to hi. */
  ghost predicate Present(tables: nat -> seq<Row>, lo: nat, hi: nat, r: Row)
  {
    forall k: nat :: lo <= k < hi ==> r in tables(k)
  }

  /** Present at some fetch from lo up to hi. */
  ghost predicate Found(tables: nat -> seq<Row>, lo: nat, hi: nat, r: Row)
  {
    exists k: nat :: lo <= k < hi && r in tables(k)
  }

  ghost predicate Listings(tables: nat -> seq<Row>, desc: bool, universe: set<Row>)
  {
    forall k: nat :: Sorted(desc, tables(k)) && forall r :: r in tables(k) ==> r in universe
  }

  /** The rows a listing without a cursor fetches first. */
  function FirstBatch(table: seq<Row>, pageSize: nat): seq<Row>
  {
    table[..if pageSize + 1 < |table| then pageSize + 1 else |table|]
  }

  ghost function Remaining(desc: bool, cursor: Option<Row>, universe: set<Row>): set<Row>
  {
    set r | r in universe && After(desc, cursor, r)
  }

  lemma PassesIsAfter(desc: bool, cursor: Option<Row>, universe: set<Row>, r: Row)
    requires r in universe && Column(universe) && (cursor.Some? ==> Column(universe + {cursor.value}))
    ensures cursor.Some? ==> (Passes(desc, cursor, r) <==> After(desc, cursor, r) && r.value.Some?)
  {
    if cursor.Some? {
      assert cursor.value in universe + {cursor.value} && r in universe + {cursor.value};
      SelectedIsAfter(desc, cursor.value, r);
    }
  }

  /** What a page request answers, with fetches from .. to - 1 of the table's life:
      its rows are authorized, in order, after the start and were there at some fetch; every
      authorized row with a value that stayed for the whole request is on the page, or beyond a
      full one; NULL rows are those of the first batch of a listing without a cursor. */
  ghost predicate PageOf(tables: nat -> seq<Row>, desc: bool, auth: Row -> bool, start: Option<Row>, pageSize: nat,
                         from: nat, to: nat, page: seq<Row>, hasNext: bool)
  {
    && from < to
    && Sorted(desc, page)
    && (if hasNext then |page| == pageSize else |page| <= pageSize)
    && (forall r :: r in page ==> auth(r) && After(desc, start, r))
    && (forall r :: r in page ==> Found(tables, from, to, r))
    && (forall r :: r in page && r.value.None? ==> start.None? && r in FirstBatch(tables(from), pageSize))
    && (forall r :: Present(tables, from, to, r) && auth(r) && r.value.Some? && After(desc, start, r) ==>
          r in page || (hasNext && Beyond(desc, page, r)))
    && (start.None? ==> forall r :: r in FirstBatch(tables(from), pageSize) && auth(r) ==>
          r in page || (hasNext && Beyond(desc, page, r)))
  }

  /** One more authorized row follows the page. */
  ghost predicate NextExists(table: seq<Row>, desc: bool, auth: Row -> bool, start: Option<Row>, page: seq<Row>)
  {
    exists r :: r in table && auth(r) && After(desc, start, r) && Beyond(desc, page, r) && r !in page
  }

  ghost predicate Beyond(desc: bool, page: seq<Row>, r: Row)
  {
    page != [] ==> Before(desc, page[|page| - 1], r)
  }

  /** The state between two fetches: everything up to the row seen last (or everything, if the
      last batch was short) has been looked at. */
  ghost predicate Gathered(tables: nat -> seq<Row>, desc: bool, auth: Row -> bool, start: Option<Row>, pageSize: nat,
                           from: nat, to: nat, page: seq<Row>, seen: Option<Row>)
  {
    && from < to
    && Sorted(desc, page)
    && (forall r :: r in page ==> auth(r) && After(desc, start, r))
    && (forall r :: r in page ==> Found(tables, from, to, r))
    && (forall r :: r in page && r.value.None? ==> start.None? && r in FirstBatch(tables(from), pageSize))
    && (seen.Some? ==> After(desc, start, seen.value))
    && (seen.Some? ==> forall r :: r in page ==> r == seen.value || Before(desc, r, seen.value))
    && (forall r :: Present(tables, from, to, r) && auth(r) && r.value.Some? && After(desc, start, r) ==>
          r in page || (seen.Some? && Before(desc, seen.value, r)))
    && (start.None? ==> forall r :: r in FirstBatch(tables(from), pageSize) && auth(r) ==> r in page)
  }

  /** What Fetch promises of a batch. */
  ghost predicate BatchOf(table: seq<Row>, desc: bool, cursor: Option<Row>, limit: nat, rows: seq<Row>)
  {
    && Sorted(desc, rows) && |rows| <= limit
    && (forall r :: r in rows ==> r in table && Passes(desc, cursor, r))
    && (forall r :: r in table && Passes(desc, cursor, r) ==>
          r in rows || (|rows| == limit && (limit > 0 ==> Before(desc, rows[limit - 1], r))))
    && (cursor.None? ==> rows == table[..if limit < |table| then limit else |table|])
  }

  /** The authorized rows of a batch, in order. */
  ghost predicate KeptOf(desc: bool, rows: seq<Row>, auth: Row -> bool, kept: seq<Row>)
  {
    Sorted(desc, kept) && forall x :: x in kept <==> x in rows && auth(x)
  }

  ghost function Seen(rows: seq<Row>, pageSize: nat): Option<Row>
  {
    if |rows| > pageSize then Some(rows[|rows| - 1]) else None
  }

  lemma BatchEnd(desc: bool, rows: seq<Row>, pageSize: nat, r: Row)
    requires Sorted(desc, rows) && r in rows && Seen(rows, pageSize).Some?
    ensures r == rows[|rows| - 1] || Before(desc, r, rows[|rows| - 1])
  {
  }

  lemma FirstFetch(tables: nat -> seq<Row>, desc: bool, auth: Row -> bool, start: Option<Row>, pageSize: nat,
                   from: nat, universe: set<Row>, page: seq<Row>, rows: seq<Row>)
    requires Listings(tables, desc, universe) && Column(universe) && (start.Some? ==> Column(universe + {start.value}))
    requires BatchOf(tables(from), desc, start, pageSize + 1, rows) && KeptOf(desc, rows, auth, page)
    ensures Gathered(tables, desc, auth, start, pageSize, from, from + 1, page, Seen(rows, pageSize))
  {
    var seen := Seen(rows, pageSize);
    forall r | r in rows
      ensures After(desc, start, r) && (start.Some? ==> r.value.Some?) && r in tables(from)
    {
      PassesIsAfter(desc, start, universe, r);
    }
    if seen.Some? {
      assert rows[|rows| - 1] in rows;
      forall r | r in page
        ensures r == seen.value || Before(desc, r, seen.value)
      {
        BatchEnd(desc, rows, pageSize, r);
      }
    }
    forall r | Present(tables, from, from + 1, r) && auth(r) && r.value.Some? && After(desc, start, r)
      ensures r in page || (seen.Some? && Before(desc, seen.value, r))
    {
      assert r in tables(from);
      PassesIsAfter(desc, start, universe, r);
    }
  }

  lemma NextFetch(tables: nat -> seq<Row>, desc: bool, auth: Row -> bool, start: Option<Row>, pageSize: nat,
                  from: nat, to: nat, universe: set<Row>, page: seq<Row>, cursor: Row, rows: seq<Row>, kept: seq<Row>,
                  page': seq<Row>)
    requires Listings(tables, desc, universe) && Column(universe) && cursor in universe
    requires Gathered(tables, desc, auth, start, pageSize, from, to, page, Some(cursor))
    requires BatchOf(tables(to), desc, Some(cursor), pageSize + 1, rows) && KeptOf(desc, rows, auth, kept)
    requires page' == page + kept
    ensures Gathered(tables, desc, auth, start, pageSize, from, to + 1, page', Seen(rows, pageSize))
  {
    var seen := Seen(rows, pageSize);
    assert universe + {cursor} == universe;
    forall r | r in rows
      ensures Before(desc, cursor, r) && After(desc, start, r) && r.value.Some? && r in tables(to)
    {
      PassesIsAfter(desc, Some(cursor), universe, r);
      if start.Some? {
        BeforeTransitive(desc, start.value, cursor, r);
      }
    }
    forall x, y | x in page && y in kept
      ensures Before(desc, x, y)
    {
      if x != cursor {
        BeforeTransitive(desc, x, cursor, y);
      }
    }
    SortedAppend(desc, page, kept);
    if seen.Some? {
      assert rows[|rows| - 1] in rows;
      forall r | r in page + kept
        ensures r == seen.value || Before(desc, r, seen.value)
      {
        if r in kept {
          BatchEnd(desc, rows, pageSize, r);
        } else if r != cursor {
          BeforeTransitive(desc, r, cursor, seen.value);
        }
      }
    }
    forall r | Present(tables, from, to + 1, r) && auth(r) && r.value.Some? && After(desc, start, r)
      ensures r in page + kept || (seen.Some? && Before(desc, seen.value, r))
    {
      assert r in tables(to) && Present(tables, from, to, r);
      if r !in page {
        PassesIsAfter(desc, Some(cursor), universe, r);
      }
    }
    forall r | r in page + kept
      ensures Found(tables, from, to + 1, r)
    {
      if r in kept {
        assert r in tables(to);
      } else {
        var k: nat :| from <= k < to && r in tables(k);
        assert k < to + 1;
      }
    }
  }

  lemma RemainingShrinks(desc: bool, cursor: Option<Row>, last: Row, universe: set<Row>)
    requires last in universe && After(desc, cursor, last)
    ensures Remaining(desc, Some(last), universe) < Remaining(desc, cursor, universe)
  {
    forall r | r in Remaining(desc, Some(last), universe)
      ensures r in Remaining(desc, cursor, universe)
    {
      if cursor.Some? {
        BeforeTransitive(desc, cursor.value, last, r);
      }
    }
    BeforeTotal(desc, last, last);
    assert last in Remaining(desc, cursor, universe) && last !in Remaining(desc, Some(last), universe);
  }

  /** Cutting the gathered rows at the page size gives the page. */
  lemma CutPage(tables: nat -> seq<Row>, desc: bool, auth: Row -> bool, start: Option<Row>, pageSize: nat,
                from: nat, to: nat, all: seq<Row>, seen: Option<Row>)
    requires Gathered(tables, desc, auth, start, pageSize, from, to, all, seen)
    requires |all| > pageSize || seen.None?
    ensures PageOf(tables, desc, auth, start, pageSize, from, to,
                   if |all| > pageSize then all[..pageSize] else all, |all| > pageSize)
    ensures |all| > pageSize ==>
              && auth(all[pageSize])
              && After(desc, start, all[pageSize])
              && Beyond(desc, all[..pageSize], all[pageSize])
              && all[pageSize] !in all[..pageSize]
  {
    SortedIsDistinct(desc, all);
    if |all| > pageSize {
      var page := all[..pageSize];
      forall r | r in all
        ensures r in page || Beyond(desc, page, r)
      {
        var i :| 0 <= i < |all| && all[i] == r;
        assert i < pageSize ==> page[i] == r;
      }
      if page != [] && seen.Some? {
        var last := page[pageSize - 1];
        assert last in all;
        forall r | Before(desc, seen.value, r)
          ensures Beyond(desc, page, r)
        {
          if last != seen.value {
            BeforeTransitive(desc, last, seen.value, r);
          }
        }
      }
    }
  }

  method FilterAuthorized(tables: nat -> seq<Row>, desc: bool, auth: Row -> bool, start: Option<Row>, pageSize: nat,
                          from: nat, ghost universe: set<Row>) returns (page: seq<Row>, hasNext: bool, to: nat)
    requires Listings(tables, desc, universe)
    requires Column(universe) && (start.Some? ==> Column(universe + {start.value}))
    ensures PageOf(tables, desc, auth, start, pageSize, from, to, page, hasNext)
    ensures hasNext ==> NextExists(tables(to - 1), desc, auth, start, page)
  {
    page := [];
    var cursor := start;
    var exhausted := false;
    to := from;
    ghost var seen: Option<Row> := None;
    while !exhausted && |page| <= pageSize
      invariant from <= to
      invariant Progress(tables, desc, auth, start, pageSize, from, to, page, cursor, exhausted, universe, seen)
      decreases !exhausted, Remaining(desc, cursor, universe)
    {
      page, cursor, exhausted, seen :=
        GatherBatch(tables, desc, auth, start, pageSize, from, to, page, cursor, universe, seen);
      to := to + 1;
    }
    ghost var all := page;
    hasNext := |page| > pageSize;
    if hasNext {
      page := page[..pageSize];
    }
    FinishPage(tables, desc, auth, start, pageSize, from, to, all, cursor, exhausted, universe, seen, page, hasNext);
  }

  lemma FinishPage(tables: nat -> seq<Row>, desc: bool, auth: Row -> bool, start: Option<Row>, pageSize: nat,
                   from: nat, to: nat, all: seq<Row>, cursor: Option<Row>, exhausted: bool, universe: set<Row>,
                   seen: Option<Row>, page: seq<Row>, hasNext: bool)
    requires from <= to && (exhausted || |all| > pageSize)
    requires Progress(tables, desc, auth, start, pageSize, from, to, all, cursor, exhausted, universe, seen)
    requires hasNext == (|all| > pageSize) && page == if hasNext then all[..pageSize] else all
    ensures PageOf(tables, desc, auth, start, pageSize, from, to, page, hasNext)
    ensures hasNext ==> NextExists(tables(to - 1), desc, auth, start, page)
  {
    CutPage(tables, desc, auth, start, pageSize, from, to, all, seen);
  }

  /** The loop's state before fetch to. */
  ghost predicate Progress(tables: nat -> seq<Row>, desc: bool, auth: Row -> bool, start: Option<Row>, pageSize: nat,
                           from: nat, to: nat, page: seq<Row>, cursor: Option<Row>, exhausted: bool, universe: set<Row>,
                           seen: Option<Row>)
  {
    if to == from then page == [] && cursor == start && !exhausted
    else
      && Gathered(tables, desc, auth, start, pageSize, from, to, page, seen)
      && (exhausted <==> seen.None?)
      && (!exhausted ==> cursor == seen && cursor.value in universe)
      && (|page| > pageSize ==> page[pageSize] in tables(to - 1) && auth(page[pageSize]))
  }

  /** One fetch and its authorization checks. */
  method GatherBatch(tables: nat -> seq<Row>, desc: bool, auth: Row -> bool, start: Option<Row>, pageSize: nat,
                     from: nat, to: nat, page: seq<Row>, cursor: Option<Row>, ghost universe: set<Row>,
                     ghost seen: Option<Row>)
    returns (page': seq<Row>, cursor': Option<Row>, exhausted: bool, ghost seen': Option<Row>)
    requires Listings(tables, desc, universe)
    requires Column(universe) && (start.Some? ==> Column(universe + {start.value}))
    requires from <= to && |page| <= pageSize
    requires Progress(tables, desc, auth, start, pageSize, from, to, page, cursor, false, universe, seen)
    ensures Progress(tables, desc, auth, start, pageSize, from, to + 1, page', cursor', exhausted, universe, seen')
    ensures !exhausted ==> Remaining(desc, cursor', universe) < Remaining(desc, cursor, universe)
  {
    var rows := Fetch(tables(to), desc, cursor, pageSize + 1);
    page' := AppendAuthorized(page, rows, auth);
    cursor', exhausted := cursor, |rows| <= pageSize;
    if !exhausted {
      cursor' := Some(rows[|rows| - 1]);
    }
    seen' := Seen(rows, pageSize);
    KeptSorted(desc, rows, auth);
    BatchGathers(tables, desc, auth, start, pageSize, from, to, page, cursor, universe, seen, rows, Kept(rows, auth),
                 page');
    if !exhausted {
      AdvanceCursor(desc, cursor, universe, tables(to), pageSize + 1, rows);
    }
  }

  lemma BatchGathers(tables: nat -> seq<Row>, desc: bool, auth: Row -> bool, start: Option<Row>, pageSize: nat,
                     from: nat, to: nat, page: seq<Row>, cursor: Option<Row>, universe: set<Row>,
                     seen: Option<Row>, rows: seq<Row>, kept: seq<Row>, page': seq<Row>)
    requires Listings(tables, desc, universe)
    requires Column(universe) && (start.Some? ==> Column(universe + {start.value}))
    requires from <= to && |page| <= pageSize
    requires Progress(tables, desc, auth, start, pageSize, from, to, page, cursor, false, universe, seen)
    requires BatchOf(tables(to), desc, cursor, pageSize + 1, rows) && KeptOf(desc, rows, auth, kept)
    requires page' == page + kept
    ensures Gathered(tables, desc, auth, start, pageSize, from, to + 1, page', Seen(rows, pageSize))
  {
    if to == from {
      assert page' == kept;
      FirstFetch(tables, desc, auth, start, pageSize, from, universe, page', rows);
    } else {
      NextFetch(tables, desc, auth, start, pageSize, from, to, universe, page, cursor.value, rows, kept, page');
    }
  }

  lemma AdvanceCursor(desc: bool, cursor: Option<Row>, universe: set<Row>, table: seq<Row>, limit: nat, rows: seq<Row>)
    requires BatchOf(table, desc, cursor, limit, rows) && rows != []
    requires forall r :: r in table ==> r in universe
    requires Column(universe) && (cursor.Some? ==> Column(universe + {cursor.value}))
    ensures rows[|rows| - 1] in universe
    ensures Remaining(desc, Some(rows[|rows| - 1]), universe) < Remaining(desc, cursor, universe)
  {
    var last := rows[|rows| - 1];
    assert last in rows;
    PassesIsAfter(desc, cursor, universe, last);
    RemainingShrinks(desc, cursor, last, universe);
  }
}
