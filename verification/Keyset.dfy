/** The order rows are listed in, and the comparison a page cursor makes with them. */
module Keyset {
  import opened Basics

  /** Bytewise comparison of text. */
  predicate LessText(a: string, b: string)
  {
    if b == "" then false
    else if a == "" then true
    else a[0] < b[0] || (a[0] == b[0] && LessText(a[1..], b[1..]))
  }

  lemma {:induction false} LessTextTransitive(a: string, b: string, c: string)
    requires LessText(a, b) && LessText(b, c)
    ensures LessText(a, c)
  {
    if a != "" && a[0] == b[0] && b[0] == c[0] {
      LessTextTransitive(a[1..], b[1..], c[1..]);
    }
  }

  lemma {:induction false} LessTextTotal(a: string, b: string)
    ensures a == b || LessText(a, b) || LessText(b, a)
    ensures !(LessText(a, b) && LessText(b, a))
    ensures a == b ==> !LessText(a, b)
  {
    if a != "" && b != "" && a[0] == b[0] {
      LessTextTotal(a[1..], b[1..]);
      assert a == [a[0]] + a[1..] && b == [b[0]] + b[1..];
    }
  }

  /** A listed row: its sort column, which may be NULL, and its unique uuid. */
  datatype Row = Row(value: Option<string>, uuid: string)

  /** NULL sorts before every value. */
  predicate LessValue(a: Option<string>, b: Option<string>)
  {
    b.Some? && (a.None? || LessText(a.value, b.value))
  }

  predicate LessRow(a: Row, b: Row)
  {
    LessValue(a.value, b.value) || (a.value == b.value && LessText(a.uuid, b.uuid))
  }

  /** The listing order: ORDER BY column, uuid in the one direction or the other. */
  predicate Before(desc: bool, a: Row, b: Row)
  {
    if desc then LessRow(b, a) else LessRow(a, b)
  }

  lemma LessRowTransitive(a: Row, b: Row, c: Row)
    requires LessRow(a, b) && LessRow(b, c)
    ensures LessRow(a, c)
  {
    if a.value.Some? && b.value.Some? && c.value.Some? {
      var x, y, z := a.value.value, b.value.value, c.value.value;
      if LessText(x, y) && LessText(y, z) {
        LessTextTransitive(x, y, z);
      }
    }
    if LessText(a.uuid, b.uuid) && LessText(b.uuid, c.uuid) {
      LessTextTransitive(a.uuid, b.uuid, c.uuid);
    }
  }

  lemma LessRowTotal(a: Row, b: Row)
    ensures a == b || LessRow(a, b) || LessRow(b, a)
    ensures !(LessRow(a, b) && LessRow(b, a))
    ensures a == b ==> !LessRow(a, b)
  {
    LessTextTotal(a.uuid, b.uuid);
    if a.value.Some? && b.value.Some? {
      LessTextTotal(a.value.value, b.value.value);
    }
  }

  lemma BeforeTransitive(desc: bool, a: Row, b: Row, c: Row)
    requires Before(desc, a, b) && Before(desc, b, c)
    ensures Before(desc, a, c)
  {
    if desc { LessRowTransitive(c, b, a); } else { LessRowTransitive(a, b, c); }
  }

  lemma BeforeTotal(desc: bool, a: Row, b: Row)
    ensures a == b || Before(desc, a, b) || Before(desc, b, a)
    ensures !(Before(desc, a, b) && Before(desc, b, a))
    ensures a == b ==> !Before(desc, a, b)
  {
    LessRowTotal(a, b);
  }

  /** The WHERE clause of a resumed listing. The cursor holds the last row's value as text, NULL
      written as the empty string; comparisons with a NULL column are never true. */
  predicate Selected(desc: bool, lastValue: string, lastUUID: string, row: Row)
  {
    && row.value.Some?
    && var v := row.value.value;
    if desc then LessText(v, lastValue) || (v == lastValue && LessText(row.uuid, lastUUID))
    else LessText(lastValue, v) || (v == lastValue && LessText(lastUUID, row.uuid))
  }

  /** A column either has no NULLs, or holds formatted dates, which are never empty. */
  ghost predicate Column(rows: set<Row>)
  {
    (forall r :: r in rows ==> r.value.Some?) || (forall r :: r in rows ==> r.value != Some(""))
  }

  /** Resuming after a row selects exactly the rows after it that are not NULL. */
  lemma SelectedIsAfter(desc: bool, last: Row, row: Row)
    requires last.value.None? ==> row.value != Some("")
    ensures Selected(desc, OrEmpty(last.value), last.uuid, row) <==> Before(desc, last, row) && row.value.Some?
  {
  }

  // ---------------------------------------------------------------- listings

  ghost predicate Sorted(desc: bool, rows: seq<Row>)
  {
    forall i, j :: 0 <= i < j < |rows| ==> Before(desc, rows[i], rows[j])
  }

  lemma SortedIsDistinct(desc: bool, rows: seq<Row>)
    requires Sorted(desc, rows)
    ensures NoDuplicates(rows)
  {
    forall i, j | 0 <= i < j < |rows|
      ensures rows[i] != rows[j]
    {
      BeforeTotal(desc, rows[i], rows[j]);
    }
  }

  lemma TailMembers<T>(s: seq<T>)
    requires s != [] && NoDuplicates(s)
    ensures forall x :: x in s[1..] <==> x in s && x != s[0]
  {
  }

  /** Two listings of the same rows in the same order are the same listing. */
  lemma {:induction false} SortedUnique(desc: bool, a: seq<Row>, b: seq<Row>)
    requires Sorted(desc, a) && Sorted(desc, b)
    requires forall r :: r in a <==> r in b
    ensures a == b
  {
    assert |b| > 0 ==> b[0] in a;
    if a != [] {
      assert a[0] in b;
      var i :| 0 <= i < |b| && b[i] == a[0];
      var j :| 0 <= j < |a| && a[j] == b[0];
      BeforeTotal(desc, a[0], b[0]);
      assert i == 0 && j == 0;
      SortedIsDistinct(desc, a);
      SortedIsDistinct(desc, b);
      TailMembers(a);
      TailMembers(b);
      SortedUnique(desc, a[1..], b[1..]);
    }
  }
}
