/** Vocabulary shared by every part of the model: optional columns, results and stored time. */
module Basics {

  datatype Option<+T> = None | Some(value: T)

  datatype Result<+T, +E> = Ok(value: T) | Err(error: E)

  /** Instants are integer nanoseconds. */
  const SECOND: int := 1_000_000_000

  /** What survives a write of an instant into a text column and its read back:
      the layout keeps whole seconds, so the instant is rounded down. */
  function FloorSecond(t: int): (r: int)
    ensures r <= t < r + SECOND
    ensures r % SECOND == 0
  {
    t - t % SECOND
  }

  predicate WholeSecond(t: int) { t % SECOND == 0 }

  lemma FloorSecondFixed(t: int)
    ensures FloorSecond(t) == t <==> WholeSecond(t)
    ensures FloorSecond(FloorSecond(t)) == FloorSecond(t)
  {
  }

  /** The empty string is stored as NULL. */
  function NullIfEmpty(s: string): Option<string>
  {
    if s == "" then None else Some(s)
  }

  /** NULL is read back as the empty string. */
  function OrEmpty(s: Option<string>): string
  {
    if s.Some? then s.value else ""
  }

  predicate NoDuplicates<T(==)>(s: seq<T>)
  {
    forall i, j :: 0 <= i < j < |s| ==> s[i] != s[j]
  }

  function Elements<T>(s: seq<T>): set<T>
  {
    set x | x in s
  }

  lemma ElementsAppend<T>(s: seq<T>, x: T)
    ensures Elements(s + [x]) == Elements(s) + {x}
  {
  }

  lemma NextPrefix<T>(s: seq<T>, i: nat)
    requires i < |s|
    ensures s[..i + 1] == s[..i] + [s[i]]
  {
  }

  lemma WholePrefix<T>(s: seq<T>)
    ensures s[..|s|] == s
  {
  }

  ghost predicate IsMax(m: int, vs: set<int>)
  {
    m in vs && forall v :: v in vs ==> v <= m
  }

  lemma {:induction false} MaxExists(vs: set<int>, v: int)
    requires v in vs
    ensures exists m :: IsMax(m, vs)
  {
    if w :| w in vs && w > v {
      var rest := vs - {v};
      MaxExists(rest, w);
      var m :| IsMax(m, rest);
      assert w in rest && forall x :: x in vs ==> x == v || x in rest;
      assert IsMax(m, vs);
    } else {
      assert IsMax(v, vs);
    }
  }

  lemma {:induction false} DistinctCount<T>(s: seq<T>)
    ensures |Elements(s)| <= |s|
    ensures NoDuplicates(s) ==> |Elements(s)| == |s|
  {
    if s != [] {
      var init, last := s[..|s| - 1], s[|s| - 1];
      DistinctCount(init);
      assert s == init + [last];
      ElementsAppend(init, last);
    }
  }

  lemma {:induction false} SubsetCount<T>(a: set<T>, b: set<T>)
    requires a <= b
    ensures |a| <= |b|
  {
    if x :| x in a {
      SubsetCount(a - {x}, b - {x});
    } else {
      assert a == {};
    }
  }
}
