/** Choosing which format of an artifact to serve (sections 12.4.2 and 12.5.1 of RFC 9110). */
module Accept {
  import opened Basics

  /** Type and subtype in lower case. A name without a slash has neither and matches no range. */
  datatype Media = Media(typ: string, subtype: string) | Malformed(text: string)

  /** One range of an Accept header. An absent or unparseable quality is 1; a NaN one excludes, as 0
      does. */
  datatype Range = Range(typ: string, subtype: string, q: real)

  /** How closely a range names a media type: 2 exactly, 1 by type, 0 as anything, -1 not at all. */
  function Specificity(r: Range, m: Media): int
  {
    if m.Malformed? then -1
    else if r.typ == m.typ && r.subtype == m.subtype then 2
    else if r.typ == m.typ && r.subtype == "*" then 1
    else if r.typ == "*" && r.subtype == "*" then 0
    else -1
  }

  predicate Names(r: Range, typ: string, subtype: string)
  {
    r.typ == typ && r.subtype == subtype
  }

  ghost predicate Lists(ranges: seq<Range>, typ: string, subtype: string)
  {
    exists k :: 0 <= k < |ranges| && Names(ranges[k], typ, subtype)
  }

  ghost predicate FirstNamed(ranges: seq<Range>, i: nat, typ: string, subtype: string)
  {
    i < |ranges| && Names(ranges[i], typ, subtype) && forall j :: 0 <= j < i ==> !Names(ranges[j], typ, subtype)
  }

  /** Range i decides for m: the first that is exactly its type and subtype; if there is none, the first
      that is its type with any subtype; if there is none either, the first that is anything. */
  ghost predicate Decides(ranges: seq<Range>, i: nat, m: Media)
  {
    && m.Media?
    && (if Lists(ranges, m.typ, m.subtype) then FirstNamed(ranges, i, m.typ, m.subtype)
        else if Lists(ranges, m.typ, "*") then FirstNamed(ranges, i, m.typ, "*")
        else FirstNamed(ranges, i, "*", "*"))
  }

  /** m may be served with quality q. */
  ghost predicate Acceptable(ranges: seq<Range>, m: Media, q: real)
  {
    q > 0.0 && exists i: nat :: Decides(ranges, i, m) && ranges[i].q == q
  }

  method BestAcceptQuality(ranges: seq<Range>, m: Media) returns (q: real, matched: bool)
    ensures matched ==> Acceptable(ranges, m, q)
    ensures !matched ==> forall x :: !Acceptable(ranges, m, x)
  {
    if m.Malformed? {
      return 0.0, false;
    }
    var best := -1;
    q := 0.0;
    ghost var at: nat := 0;
    for i := 0 to |ranges|
      invariant -1 <= best <= 2
      invariant best >= 0 ==> at < i && Specificity(ranges[at], m) == best && q == ranges[at].q
      invariant best >= 0 ==> forall j :: 0 <= j < at ==> Specificity(ranges[j], m) < best
      invariant forall j :: 0 <= j < i ==> Specificity(ranges[j], m) <= best
    {
      var s := Specificity(ranges[i], m);
      if s > best {
        best, q, at := s, ranges[i].q, i;
      }
    }
    if best < 0 {
      return 0.0, false;
    }
    return q, q > 0.0;
  }

  /** The earliest format of maximal quality. */
  ghost predicate Chosen(ranges: seq<Range>, formats: seq<Media>, i: nat)
  {
    && i < |formats|
    && exists q :: Acceptable(ranges, formats[i], q)
         && (forall j, x :: 0 <= j < |formats| && Acceptable(ranges, formats[j], x) ==> x <= q)
         && (forall j, x :: 0 <= j < i && Acceptable(ranges, formats[j], x) ==> x < q)
  }

  ghost predicate AllExcluded(ranges: seq<Range>, formats: seq<Media>)
  {
    forall j, x :: 0 <= j < |formats| ==> !Acceptable(ranges, formats[j], x)
  }

  /** Negotiation by Accept alone: the earliest best format, or nothing when every one is excluded. */
  method Negotiate(ranges: seq<Range>, formats: seq<Media>) returns (r: Option<nat>)
    ensures r.Some? ==> Chosen(ranges, formats, r.value)
    ensures r.None? <==> AllExcluded(ranges, formats)
  {
    r := None;
    var bestQ := 0.0;
    for i := 0 to |formats|
      invariant r.Some? ==> r.value < i && Acceptable(ranges, formats[r.value], bestQ)
      invariant r.Some? ==> forall j, x :: 0 <= j < i && Acceptable(ranges, formats[j], x) ==> x <= bestQ
      invariant r.Some? ==> forall j, x :: 0 <= j < r.value && Acceptable(ranges, formats[j], x) ==> x < bestQ
      invariant r.None? ==> forall j, x :: 0 <= j < i ==> !Acceptable(ranges, formats[j], x)
    {
      var q, matched := BestAcceptQuality(ranges, formats[i]);
      if matched {
        forall x | Acceptable(ranges, formats[i], x)
          ensures x == q
        {
        }
        if r.None? || q > bestQ {
          r, bestQ := Some(i), q;
        }
      }
    }
    if r.Some? {
      assert Acceptable(ranges, formats[r.value], bestQ);
    }
  }

  /** The format served: an explicit mediaType parameter wins or fails alone; otherwise Accept, and
      without an Accept header the first format. The flag says whether Accept was in play. */
  method SelectFormat(mediaType: Option<Media>, accept: Option<seq<Range>>, formats: seq<Media>)
    returns (r: Option<nat>, usedAccept: bool)
    ensures usedAccept <==> mediaType.None?
    ensures mediaType.None? ||
              if r.Some? then
                && r.value < |formats|
                && formats[r.value] == mediaType.value
                && mediaType.value !in formats[..r.value]
              else mediaType.value !in formats
    ensures mediaType.None? && accept.None? ==> r == if formats == [] then None else Some(0)
    ensures mediaType.None? && accept.Some? ==>
              if r.Some? then Chosen(accept.value, formats, r.value) else AllExcluded(accept.value, formats)
  {
    if mediaType.Some? {
      for i := 0 to |formats|
        invariant mediaType.value !in formats[..i]
      {
        if formats[i] == mediaType.value {
          return Some(i), false;
        }
      }
      assert formats[..|formats|] == formats;
      return None, false;
    }
    if |formats| == 0 {
      return None, true;
    }
    if accept.None? {
      return Some(0), true;
    }
    r := Negotiate(accept.value, formats);
    usedAccept := true;
  }

  // ---------------------------------------------------------------- order of ranges

  predicate PairwiseDistinct(ranges: seq<Range>)
  {
    forall i, j :: 0 <= i < j < |ranges| ==> ranges[i].typ != ranges[j].typ || ranges[i].subtype != ranges[j].subtype
  }

  /** The same ranges in another order decide the same quality, provided no two name the same thing. */
  lemma OrderDoesNotMatter(a: seq<Range>, b: seq<Range>, m: Media, q: real)
    requires PairwiseDistinct(a) && PairwiseDistinct(b) && Elements(a) == Elements(b)
    ensures Acceptable(a, m, q) <==> Acceptable(b, m, q)
  {
    if Acceptable(a, m, q) { Reordered(a, b, m, q); }
    if Acceptable(b, m, q) { Reordered(b, a, m, q); }
  }

  /** So the choice among formats does not depend on the order of the ranges either. */
  lemma ChoiceIgnoresOrder(a: seq<Range>, b: seq<Range>, formats: seq<Media>, i: nat)
    requires PairwiseDistinct(a) && PairwiseDistinct(b) && Elements(a) == Elements(b)
    ensures Chosen(a, formats, i) <==> Chosen(b, formats, i)
    ensures AllExcluded(a, formats) <==> AllExcluded(b, formats)
  {
    forall m, q
      ensures Acceptable(a, m, q) <==> Acceptable(b, m, q)
    {
      OrderDoesNotMatter(a, b, m, q);
    }
  }

  /** There is at most one choice. */
  lemma ChoiceIsUnique(ranges: seq<Range>, formats: seq<Media>, i: nat, j: nat)
    requires Chosen(ranges, formats, i) && Chosen(ranges, formats, j)
    ensures i == j
  {
  }

  lemma Reordered(a: seq<Range>, b: seq<Range>, m: Media, q: real)
    requires PairwiseDistinct(b) && Elements(a) == Elements(b) && Acceptable(a, m, q)
    ensures Acceptable(b, m, q)
  {
    var i: nat :| Decides(a, i, m) && a[i].q == q;
    forall r
      ensures r in a <==> r in b
    {
      assert r in Elements(a) <==> r in Elements(b);
    }
    assert a[i] in b;
    var k :| 0 <= k < |b| && b[k] == a[i];
    SameLists(a, b);
    assert Decides(b, k, m);
  }

  lemma SameLists(a: seq<Range>, b: seq<Range>)
    requires forall r :: r in a <==> r in b
    ensures forall t, s :: Lists(a, t, s) <==> Lists(b, t, s)
  {
    forall t, s
      ensures Lists(a, t, s) <==> Lists(b, t, s)
    {
      if k :| 0 <= k < |a| && Names(a[k], t, s) {
        assert a[k] in b;
      }
      if k :| 0 <= k < |b| && Names(b[k], t, s) {
        assert b[k] in a;
      }
    }
  }

  /** With a repeated range the first one wins, so order does matter. */
  lemma RepeatedRangeOrderMatters(t: string, s: string)
    requires t != "*"
    ensures var a, b := [Range(t, s, 1.0), Range(t, s, 0.0)], [Range(t, s, 0.0), Range(t, s, 1.0)];
      Acceptable(a, Media(t, s), 1.0) && !Acceptable(b, Media(t, s), 1.0)
  {
    var m, a, b := Media(t, s), [Range(t, s, 1.0), Range(t, s, 0.0)], [Range(t, s, 0.0), Range(t, s, 1.0)];
    assert Decides(a, 0, m) && a[0].q == 1.0;
    forall i: nat | Decides(b, i, m)
      ensures i == 0
    {
      assert Decides(b, 0, m);
    }
  }
}
