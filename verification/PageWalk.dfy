/** Following page tokens to the end, and what a listing without changes gives. */
module PageWalk {
  import opened Basics
  import opened Keyset
  import opened Pagination

  // ---------------------------------------------------------------- a walk while the table changes

  /** A client follows tokens from page to page, with any page sizes, while rows come and go between
      any two fetches. No row is returned twice; every authorized row with a sort value that is
      there throughout is returned; a NULL row is returned on the first page or not at all. Every row
      that ever appears is one of a finite universe; without that a table that keeps growing ahead of
      the cursor would keep the walk going. */
  method Walk(tables: nat -> seq<Row>, desc: bool, auth: Row -> bool, sizes: nat -> nat, ghost universe: set<Row>)
    returns (all: seq<Row>, first: seq<Row>, firstEnd: nat, firstNext: bool, to: nat)
    requires Listings(tables, desc, universe) && Column(universe) && forall n: nat :: sizes(n) >= 1
    ensures PageOf(tables, desc, auth, None, sizes(0), 0, firstEnd, first, firstNext)
    ensures WalkResult(tables, desc, auth, to, all, first)
  {
    var hasNext: bool;
    first, hasNext, to := FilterAuthorized(tables, desc, auth, None, sizes(0), 0, universe);
    firstEnd, firstNext := to, hasNext;
    all := first;
    var page := 1;
    while hasNext
      invariant page >= 1
      invariant WalkState(tables, desc, auth, universe, to, all, first, hasNext)
      decreases hasNext, Remaining(desc, LastOf(all), universe)
    {
      all, hasNext, to := NextPage(tables, desc, auth, universe, to, all, first, sizes(page));
      page := page + 1;
    }
    EndWalk(tables, desc, auth, universe, to, all, first);
  }

  ghost predicate WalkResult(tables: nat -> seq<Row>, desc: bool, auth: Row -> bool, to: nat, all: seq<Row>,
                             first: seq<Row>)
  {
    && first <= all && Sorted(desc, all) && NoDuplicates(all)
    && (forall r :: r in all ==> auth(r) && Found(tables, 0, to, r))
    && (forall r :: Present(tables, 0, to, r) && auth(r) && r.value.Some? ==> r in all)
    && (forall r :: r in all && r.value.None? ==> r in first)
  }

  lemma EndWalk(tables: nat -> seq<Row>, desc: bool, auth: Row -> bool, universe: set<Row>, to: nat, all: seq<Row>,
                first: seq<Row>)
    requires WalkState(tables, desc, auth, universe, to, all, first, false)
    ensures WalkResult(tables, desc, auth, to, all, first)
  {
    SortedIsDistinct(desc, all);
  }

  /** What has been returned so far misses nothing up to its last row. */
  ghost predicate WalkState(tables: nat -> seq<Row>, desc: bool, auth: Row -> bool, universe: set<Row>, to: nat,
                            all: seq<Row>, first: seq<Row>, hasNext: bool)
  {
    && first <= all && Sorted(desc, all) && (hasNext ==> all != [])
    && (forall r :: r in all ==> auth(r) && Found(tables, 0, to, r) && r in universe)
    && (forall r :: Present(tables, 0, to, r) && auth(r) && r.value.Some? ==>
          r in all || (hasNext && Before(desc, all[|all| - 1], r)))
    && (forall r :: r in all && r.value.None? ==> r in first)
  }

  /** One more page, resumed from the last row returned. */
  method NextPage(tables: nat -> seq<Row>, desc: bool, auth: Row -> bool, ghost universe: set<Row>, to: nat,
                  all: seq<Row>, ghost first: seq<Row>, size: nat) returns (all': seq<Row>, more: bool, end: nat)
    requires Listings(tables, desc, universe) && Column(universe) && size >= 1
    requires WalkState(tables, desc, auth, universe, to, all, first, true)
    ensures WalkState(tables, desc, auth, universe, end, all', first, more)
    ensures more ==> Remaining(desc, LastOf(all'), universe) < Remaining(desc, LastOf(all), universe)
  {
    var token := all[|all| - 1];
    assert token in all && universe + {token} == universe;
    var next;
    next, more, end := FilterAuthorized(tables, desc, auth, Some(token), size, to, universe);
    all' := all + next;
    ExtendWalk(tables, desc, auth, universe, to, all, first, size, end, next, more);
    WalkShrinks(tables, desc, auth, universe, to, all, size, end, next, more);
  }

  function LastOf(rows: seq<Row>): Option<Row>
  {
    if rows == [] then None else Some(rows[|rows| - 1])
  }

  lemma WalkShrinks(tables: nat -> seq<Row>, desc: bool, auth: Row -> bool, universe: set<Row>, to: nat,
                    all: seq<Row>, size: nat, end: nat, next: seq<Row>, more: bool)
    requires Listings(tables, desc, universe) && size >= 1 && all != []
    requires PageOf(tables, desc, auth, Some(all[|all| - 1]), size, to, end, next, more)
    ensures more ==> Remaining(desc, LastOf(all + next), universe) < Remaining(desc, LastOf(all), universe)
  {
    if more {
      var last := next[|next| - 1];
      assert last in next && (all + next)[|all + next| - 1] == last;
      FoundInUniverse(tables, desc, universe, to, end, last);
      RemainingShrinks(desc, Some(all[|all| - 1]), last, universe);
    }
  }

  lemma FoundInUniverse(tables: nat -> seq<Row>, desc: bool, universe: set<Row>, lo: nat, hi: nat, r: Row)
    requires Listings(tables, desc, universe) && Found(tables, lo, hi, r)
    ensures r in universe
  {
  }

  lemma ExtendWalk(tables: nat -> seq<Row>, desc: bool, auth: Row -> bool, universe: set<Row>, to: nat,
                   all: seq<Row>, first: seq<Row>, size: nat, end: nat, next: seq<Row>, more: bool)
    requires Listings(tables, desc, universe) && size >= 1
    requires WalkState(tables, desc, auth, universe, to, all, first, true)
    requires PageOf(tables, desc, auth, Some(all[|all| - 1]), size, to, end, next, more)
    ensures WalkState(tables, desc, auth, universe, end, all + next, first, more)
    ensures more ==> next != []
  {
    ExtendSorted(desc, all, next);
    forall r | r in all + next
      ensures auth(r) && Found(tables, 0, end, r) && r in universe
    {
      if r in next {
        FoundInUniverse(tables, desc, universe, to, end, r);
        var k: nat :| to <= k < end && r in tables(k);
      } else {
        var k: nat :| 0 <= k < to && r in tables(k);
      }
    }
    forall r | Present(tables, 0, end, r) && auth(r) && r.value.Some?
      ensures r in all + next || (more && Before(desc, (all + next)[|all + next| - 1], r))
    {
      assert Present(tables, 0, to, r) && Present(tables, to, end, r);
    }
  }

  lemma ExtendSorted(desc: bool, all: seq<Row>, next: seq<Row>)
    requires all != [] && Sorted(desc, all) && Sorted(desc, next)
    requires forall r :: r in next ==> After(desc, Some(all[|all| - 1]), r)
    ensures Sorted(desc, all + next)
  {
    var token := all[|all| - 1];
    forall x, y | x in all && y in next
      ensures Before(desc, x, y)
    {
      var i :| 0 <= i < |all| && all[i] == x;
      if x != token {
        BeforeTransitive(desc, x, token, y);
      }
    }
    SortedAppend(desc, all, next);
  }

  // ---------------------------------------------------------------- a table that does not change

  ghost predicate Constant(tables: nat -> seq<Row>, table: seq<Row>)
  {
    forall k: nat :: tables(k) == table
  }

  /** On fixed data a full walk returns every authorized row that has a sort value, and of the NULL
      ones exactly those on the first page; so it returns the whole authorized listing if and only
      if the first page holds every authorized NULL row. */
  lemma FixedWalk(tables: nat -> seq<Row>, desc: bool, auth: Row -> bool, table: seq<Row>,
                  all: seq<Row>, first: seq<Row>, to: nat)
    requires Constant(tables, table) && Sorted(desc, table) && WalkResult(tables, desc, auth, to, all, first)
    ensures forall r :: r in table && auth(r) ==> (r in all <==> r.value.Some? || r in first)
    ensures all == Kept(table, auth) <==> forall r :: r in table && auth(r) && r.value.None? ==> r in first
  {
    forall r | r in table && auth(r)
      ensures r in all <==> r.value.Some? || r in first
    {
      assert Present(tables, 0, to, r);
    }
    KeptSorted(desc, table, auth);
    if forall r :: r in table && auth(r) && r.value.None? ==> r in first {
      forall r
        ensures r in all <==> r in Kept(table, auth)
      {
        if r in all {
          assert Found(tables, 0, to, r);
        }
      }
      SortedUnique(desc, all, Kept(table, auth));
    }
  }

  lemma InitDownClosed(desc: bool, page: seq<Row>, whole: seq<Row>)
    requires Sorted(desc, page) && page != []
    requires forall r :: r in whole ==> r in page || Beyond(desc, page, r)
    ensures forall r :: r in whole ==> r in page[..|page| - 1] || Beyond(desc, page[..|page| - 1], r)
  {
    var n := |page| - 1;
    var init, last := page[..n], page[n];
    assert page == init + [last];
    forall r | r in whole
      ensures r in init || Beyond(desc, init, r)
    {
      if r !in page && init != [] {
        BeforeTransitive(desc, init[n - 1], last, r);
      }
    }
  }

  lemma LastInPlace(desc: bool, page: seq<Row>, whole: seq<Row>, i: nat)
    requires Sorted(desc, page) && Sorted(desc, whole) && page != [] && i < |whole|
    requires whole[i] == page[|page| - 1]
    requires |page| - 1 <= |whole| && page[..|page| - 1] == whole[..|page| - 1]
    requires forall r :: r in whole ==> r in page || Beyond(desc, page, r)
    ensures i == |page| - 1
  {
    var n := |page| - 1;
    SortedIsDistinct(desc, page);
    SortedIsDistinct(desc, whole);
    assert forall k :: 0 <= k < n ==> page[k] == page[..n][k] == whole[..n][k] == whole[k];
    if i > n {
      assert whole[n] in whole;
      BeforeTotal(desc, whole[n], page[n]);
    }
  }

  /** A run of rows that misses nothing between its first and last is a prefix. */
  lemma {:induction false} DownClosedIsPrefix(desc: bool, page: seq<Row>, whole: seq<Row>)
    requires Sorted(desc, page) && Sorted(desc, whole)
    requires forall r :: r in page ==> r in whole
    requires forall r :: r in whole ==> r in page || Beyond(desc, page, r)
    ensures |page| <= |whole| && page == whole[..|page|]
  {
    if page != [] {
      var n := |page| - 1;
      InitDownClosed(desc, page, whole);
      DownClosedIsPrefix(desc, page[..n], whole);
      assert page[n] in page;
      var i :| 0 <= i < |whole| && whole[i] == page[n];
      LastInPlace(desc, page, whole, i);
      assert whole[..n + 1] == whole[..n] + [whole[n]] && page == page[..n] + [page[n]];
    }
  }

  /** On fixed data without NULLs after the cursor a page is exactly the first pageSize authorized rows after the
      cursor, and there is a next page exactly when one more exists. */
  lemma FixedPage(tables: nat -> seq<Row>, desc: bool, auth: Row -> bool, table: seq<Row>, start: Option<Row>,
                  pageSize: nat, from: nat, to: nat, page: seq<Row>, hasNext: bool)
    requires Constant(tables, table) && Sorted(desc, table)
    requires forall r :: r in table && After(desc, start, r) ==> r.value.Some?
    requires PageOf(tables, desc, auth, start, pageSize, from, to, page, hasNext)
    requires hasNext ==> NextExists(tables(to - 1), desc, auth, start, page)
    ensures var whole := Kept(table, r => auth(r) && After(desc, start, r));
      && page == whole[..if pageSize < |whole| then pageSize else |whole|]
      && (hasNext <==> |whole| > pageSize)
  {
    var eligible := r => auth(r) && After(desc, start, r);
    var whole := Kept(table, eligible);
    KeptSorted(desc, table, eligible);
    forall r | r in page
      ensures r in whole
    {
      assert Found(tables, from, to, r);
    }
    forall r | r in whole
      ensures r in page || (hasNext && Beyond(desc, page, r))
    {
      assert Present(tables, from, to, r);
    }
    DownClosedIsPrefix(desc, page, whole);
    if hasNext {
      var r :| r in tables(to - 1) && auth(r) && After(desc, start, r) && Beyond(desc, page, r) && r !in page;
      assert r in whole && r !in whole[..|page|];
    } else {
      SortedIsDistinct(desc, whole);
      DistinctCount(whole);
      DistinctCount(page);
      SubsetCount(Elements(whole), Elements(page));
    }
  }

  /** Which NULL rows a listing can ever serve: the row at position j is on the first page exactly
      when it is in the first batch and fewer than pageSize authorized rows come before it. */
  lemma NullRowServed(tables: nat -> seq<Row>, desc: bool, auth: Row -> bool, table: seq<Row>, pageSize: nat,
                      from: nat, to: nat, page: seq<Row>, hasNext: bool, j: nat)
    requires Constant(tables, table) && Sorted(desc, table) && j < |table| && auth(table[j]) && table[j].value.None?
    requires PageOf(tables, desc, auth, None, pageSize, from, to, page, hasNext)
    ensures table[j] in page <==> j <= pageSize && |Kept(table[..j], auth)| < pageSize
  {
    if table[j] in page {
      ServedNullIsEarly(tables, desc, auth, table, pageSize, from, to, page, hasNext, j);
    } else if j <= pageSize {
      LostNullIsLate(tables, desc, auth, table, pageSize, from, to, page, hasNext, j);
    }
  }

  lemma ServedNullIsEarly(tables: nat -> seq<Row>, desc: bool, auth: Row -> bool, table: seq<Row>, pageSize: nat,
                          from: nat, to: nat, page: seq<Row>, hasNext: bool, j: nat)
    requires Constant(tables, table) && Sorted(desc, table) && j < |table| && table[j].value.None? && table[j] in page
    requires PageOf(tables, desc, auth, None, pageSize, from, to, page, hasNext)
    ensures j <= pageSize && |Kept(table[..j], auth)| < pageSize
  {
    var earlier := Kept(table[..j], auth);
    SortedIsDistinct(desc, table);
    var idx :| 0 <= idx < |page| && page[idx] == table[j];
    EarlierOnPage(desc, auth, table, pageSize, page, hasNext, j, idx);
    KeptSorted(desc, table[..j], auth);
    SortedIsDistinct(desc, earlier);
    DistinctCount(earlier);
    DistinctCount(page[..idx]);
    SubsetCount(Elements(earlier), Elements(page[..idx]));
  }

  lemma LostNullIsLate(tables: nat -> seq<Row>, desc: bool, auth: Row -> bool, table: seq<Row>, pageSize: nat,
                       from: nat, to: nat, page: seq<Row>, hasNext: bool, j: nat)
    requires Constant(tables, table) && Sorted(desc, table) && j < |table| && auth(table[j]) && table[j] !in page
    requires PageOf(tables, desc, auth, None, pageSize, from, to, page, hasNext) && j <= pageSize
    ensures |Kept(table[..j], auth)| >= pageSize
  {
    var r, earlier := table[j], Kept(table[..j], auth);
    assert FirstBatch(table, pageSize)[j] == r;
    assert hasNext && Beyond(desc, page, r);
    forall x | x in page
      ensures x in earlier
    {
      assert Found(tables, from, to, x);
      PagedBefore(desc, table, page, j, x);
    }
    SortedIsDistinct(desc, page);
    DistinctCount(page);
    DistinctCount(earlier);
    SubsetCount(Elements(page), Elements(earlier));
  }

  lemma PagedBefore(desc: bool, table: seq<Row>, page: seq<Row>, j: nat, x: Row)
    requires Sorted(desc, table) && Sorted(desc, page) && j < |table| && x in page && x in table
    requires Beyond(desc, page, table[j])
    ensures x in table[..j]
  {
    var i :| 0 <= i < |table| && table[i] == x;
    var k :| 0 <= k < |page| && page[k] == x;
    if k < |page| - 1 {
      BeforeTransitive(desc, x, page[|page| - 1], table[j]);
    }
    BeforeTotal(desc, x, table[j]);
    assert i < j;
    assert table[..j][i] == x;
  }

  lemma EarlierOnPage(desc: bool, auth: Row -> bool, table: seq<Row>, pageSize: nat, page: seq<Row>, hasNext: bool,
                      j: nat, idx: nat)
    requires Sorted(desc, table) && Sorted(desc, page) && j < |table| && j <= pageSize && idx < |page|
             && page[idx] == table[j]
    requires forall x :: x in FirstBatch(table, pageSize) && auth(x) ==> x in page || (hasNext && Beyond(desc, page, x))
    ensures Elements(Kept(table[..j], auth)) <= Elements(page[..idx])
  {
    forall x | x in Kept(table[..j], auth)
      ensures x in page[..idx]
    {
      var i :| 0 <= i < j && table[..j][i] == x;
      assert FirstBatch(table, pageSize)[i] == x;
      assert Before(desc, x, table[j]);
      if Beyond(desc, page, x) {
        if idx < |page| - 1 {
          BeforeTransitive(desc, page[idx], page[|page| - 1], x);
        }
        BeforeTotal(desc, x, table[j]);
      }
      var k :| 0 <= k < |page| && page[k] == x;
      BeforeTotal(desc, x, table[j]);
      assert k < idx;
      assert page[..idx][k] == x;
    }
  }

  /** A full walk of fixed data returns the whole authorized listing exactly when every authorized NULL
      row is in the first batch and has fewer than a page of authorized rows before it. */
  lemma FixedWalkExactly(tables: nat -> seq<Row>, desc: bool, auth: Row -> bool, table: seq<Row>, size: nat,
                         all: seq<Row>, first: seq<Row>, to: nat, firstEnd: nat, firstNext: bool)
    requires Constant(tables, table) && Sorted(desc, table) && WalkResult(tables, desc, auth, to, all, first)
    requires PageOf(tables, desc, auth, None, size, 0, firstEnd, first, firstNext)
    ensures all == Kept(table, auth) <==>
              forall j :: 0 <= j < |table| && auth(table[j]) && table[j].value.None? ==>
                j <= size && |Kept(table[..j], auth)| < size
  {
    FixedWalk(tables, desc, auth, table, all, first, to);
    forall j | 0 <= j < |table| && auth(table[j]) && table[j].value.None?
      ensures table[j] in first <==> j <= size && |Kept(table[..j], auth)| < size
    {
      NullRowServed(tables, desc, auth, table, size, 0, firstEnd, first, firstNext, j);
    }
  }

  /** A listing by release date loses rows: of two releases without a date, one to a page, the second
      is never returned. */
  lemma UndatedReleasesAreLost(tables: nat -> seq<Row>, all: seq<Row>, first: seq<Row>, to: nat,
                               firstEnd: nat, firstNext: bool)
    requires Constant(tables, [Row(None, "a"), Row(None, "b")])
    requires WalkResult(tables, false, r => true, to, all, first)
    requires PageOf(tables, false, r => true, None, 1, 0, firstEnd, first, firstNext)
    ensures Row(None, "b") !in all
  {
    var t := [Row(None, "a"), Row(None, "b")];
    assert LessText("a", "b");
    assert Sorted(false, t);
    NullRowServed(tables, false, r => true, t, 1, 0, firstEnd, first, firstNext, 1);
    assert t[..1] == [Row(None, "a")];
    assert Row(None, "a") in Kept(t[..1], r => true);
  }

  /** Sort values never change: a uuid has one row for the whole walk. */
  ghost predicate ImmutableKeys(universe: set<Row>)
  {
    forall r, x :: r in universe && x in universe && r.uuid == x.uuid ==> r == x
  }

  /** Then no uuid is returned twice. */
  lemma NoUuidTwice(tables: nat -> seq<Row>, desc: bool, auth: Row -> bool, universe: set<Row>, to: nat,
                    all: seq<Row>, first: seq<Row>)
    requires Listings(tables, desc, universe) && ImmutableKeys(universe)
    requires WalkResult(tables, desc, auth, to, all, first)
    ensures forall i, j :: 0 <= i < j < |all| ==> all[i].uuid != all[j].uuid
  {
    forall i | 0 <= i < |all|
      ensures all[i] in universe
    {
      FoundInUniverse(tables, desc, universe, 0, to, all[i]);
    }
  }
}
