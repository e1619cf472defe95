/** The handlers as the sequences of reads they are: statement k of a request sees the database as
    it stands at instant at(k). */
module ReadHandlers {
  import opened Basics
  import opened Schema
  import opened ETag
  import opened ConditionalGet

  datatype Response = NotFound | NotModified(tag: string) | Full(tag: string, body: Body)

  /** The statements of one request run in order against states of the history. */
  ghost predicate Schedule(h: seq<Db>, at: nat -> nat)
  {
    && (forall k: nat :: at(k) < |h|)
    && (forall j: nat, k: nat :: j <= k ==> at(j) <= at(k))
  }

  method LatestCollectionVersion(db: Db, uuid: string, kind: OwnerKind) returns (v: Option<int>)
    ensures v.None? || IsLatest(db, uuid, kind, v.value)
    ensures v.None? ==> forall m: int :: !IsLatest(db, uuid, kind, m)
  {
    var todo := db.collections.Keys;
    v := None;
    ghost var vs := Versions(db, uuid, kind);
    while todo != {}
      invariant todo <= db.collections.Keys
      invariant v.Some? ==> v.value in vs
      invariant forall k :: k in db.collections && k !in todo ==>
                  k.uuid == uuid && db.collections[k].belongsTo == kind ==> v.Some? && k.version <= v.value
      decreases todo
    {
      var k :| k in todo;
      if k.uuid == uuid && db.collections[k].belongsTo == kind && (v.None? || k.version > v.value) {
        v := Some(k.version);
      }
      todo := todo - {k};
    }
  }

  /** One statement: the join of the version's references with their artifacts' counters. */
  method CollectionArtifactRevisions(db: Db, key: CollectionKey) returns (revisions: seq<nat>)
    requires Intact(db) && key in db.collections
    ensures revisions == Revisions(db, db.collections[key].refs)
  {
    var refs := db.collections[key].refs;
    revisions := [];
    for i := 0 to |refs|
      invariant |revisions| == i
      invariant forall j :: 0 <= j < i ==> revisions[j] == db.artifacts[refs[j]].revision
    {
      revisions := revisions + [db.artifacts[refs[i]].revision];
    }
  }

  method ReadDistributions(h: seq<Db>, ghost ws: seq<Write>, at: nat -> nat, start: nat, uuid: string, count: nat)
    returns (ds: seq<Distribution>, k: nat)
    requires History(h, ws) && Schedule(h, at)
    requires uuid in h[at(start)].releases && |h[at(start)].releases[uuid].distributions| == count
    ensures start <= k && |ds| == count
    ensures forall i :: 0 <= i < count ==> DistributionReadIn(h, at(start), at(k), uuid, i, ds[i])
  {
    ds, k := [], start;
    for i := 0 to count
      invariant start <= k && |ds| == i
      invariant forall j :: 0 <= j < i ==> DistributionReadIn(h, at(start), at(k), uuid, j, ds[j])
    {
      Grows(h, ws, at(start), at(k));
      Grows(h, ws, at(start), at(k + 1));
      var row := h[at(k)].releases[uuid].distributions[i];
      var checksums := h[at(k + 1)].releases[uuid].distributions[i].checksums;
      ghost var before := ds;
      ds := ds + [Distribution(row.description, row.url, checksums)];
      assert DistributionReadIn(h, at(start), at(k + 2), uuid, i, ds[i]);
      forall j | 0 <= j < i
        ensures DistributionReadIn(h, at(start), at(k + 2), uuid, j, ds[j])
      {
        assert DistributionReadIn(h, at(start), at(k), uuid, j, before[j]);
      }
      k := k + 2;
    }
  }

  method ReadArtifact(h: seq<Db>, ghost ws: seq<Write>, at: nat -> nat, start: nat, ref: ArtifactRef)
    returns (v: ArtifactView, k: nat)
    requires History(h, ws) && Schedule(h, at) && ref in h[at(start)].artifacts
    ensures start <= k
    ensures v.ref == ref
    ensures ArtifactReadIn(h, at(start), at(k), v)
  {
    Grows(h, ws, at(start), at(start + 1));
    var meta := h[at(start)].artifacts[ref].meta;
    var rows := h[at(start + 1)].artifacts[ref].formats;
    var formats: seq<FormatView> := [];
    k := start + 2;
    for i := 0 to |rows|
      invariant start + 2 <= k && |formats| == i
      invariant forall j :: 0 <= j < i ==> FormatReadIn(h, at(start), at(k), ref, j, formats[j])
    {
      Grows(h, ws, at(start), at(k));
      var checksums := h[at(k)].artifacts[ref].formats[i].checksums;
      ghost var before := formats;
      formats := formats + [FormatView(rows[i].media, checksums)];
      assert FormatReadIn(h, at(start), at(k + 1), ref, i, formats[i]);
      forall j | 0 <= j < i
        ensures FormatReadIn(h, at(start), at(k + 1), ref, j, formats[j])
      {
        assert FormatReadIn(h, at(start), at(k), ref, j, before[j]);
      }
      k := k + 1;
    }
    v := ArtifactView(ref, meta, formats);
  }

  lemma ArtifactReadWider(h: seq<Db>, lo: nat, hi: nat, lo': nat, hi': nat, v: ArtifactView)
    requires lo' <= lo <= hi <= hi' < |h| && ArtifactReadIn(h, lo, hi, v)
    ensures ArtifactReadIn(h, lo', hi', v)
  {
  }

  method ReadCollection(h: seq<Db>, ghost ws: seq<Write>, at: nat -> nat, start: nat, key: CollectionKey)
    returns (v: CollectionView, k: nat)
    requires History(h, ws) && Schedule(h, at) && key in h[at(start)].collections
    ensures start <= k
    ensures v.key == key
    ensures CollectionReadIn(h, at(start), at(k), v)
  {
    Grows(h, ws, at(start), at(start + 1));
    var row := h[at(start)].collections[key];
    var refs := h[at(start + 1)].collections[key].refs;
    var artifacts: seq<ArtifactView> := [];
    k := start + 2;
    for i := 0 to |refs|
      invariant start + 2 <= k && |artifacts| == i
      invariant forall j :: 0 <= j < i ==>
                  artifacts[j].ref == refs[j] && ArtifactReadIn(h, at(start), at(k), artifacts[j])
    {
      Grows(h, ws, at(start), at(k));
      var a, k' := ReadArtifact(h, ws, at, k, refs[i]);
      forall j | 0 <= j < i
        ensures ArtifactReadIn(h, at(start), at(k'), artifacts[j])
      {
        ArtifactReadWider(h, at(start), at(k), at(start), at(k'), artifacts[j]);
      }
      ArtifactReadWider(h, at(k), at(k'), at(start), at(k'), a);
      artifacts, k := artifacts + [a], k';
    }
    v := CollectionView(key, row.date, row.belongsTo, ReadReason(row.reasonKind, row.reasonComment), artifacts);
  }

  /** Statements 0 to 2 read the tag's parts, the rest the body; the answer is 304 exactly when the
      tag matches. */
  method GetComponentReleaseWithCollection(h: seq<Db>, ghost ws: seq<Write>, at: nat -> nat, uuid: string, p: Principal,
                                           ifNoneMatch: seq<string>) returns (r: Response, last: nat)
    requires History(h, ws) && Schedule(h, at)
    ensures r.NotFound? <==>
              uuid !in h[at(0)].releases || forall v: int :: !IsLatest(h[at(1)], uuid, COMPONENT_RELEASE, v)
    ensures !r.NotFound? ==> ReleaseTag(h, at(0), at(1), at(2), uuid, p, r.tag)
    ensures !r.NotFound? ==> (r.NotModified? <==> Matches(ifNoneMatch, r.tag))
    ensures !r.Full? || (last >= 2 && BodyReadIn(h, at(2), at(last), uuid, r.body))
  {
    last := 0;
    if uuid !in h[at(0)].releases {
      return NotFound, last;
    }
    var revision := h[at(0)].releases[uuid].revision;
    var latest := LatestCollectionVersion(h[at(1)], uuid, COMPONENT_RELEASE);
    if latest.None? {
      return NotFound, last;
    }
    var key := CollectionKey(uuid, latest.value);
    LatestStored(h[at(1)], uuid, COMPONENT_RELEASE, latest.value);
    Grows(h, ws, at(1), at(2));
    var revisions := CollectionArtifactRevisions(h[at(2)], key);
    var tag := BuildETag(TagParts(ReleaseHead(uuid, revision), latest.value, revisions, p));
    assert ReleaseTagIs(h, at(0), at(1), at(2), uuid, p, tag, latest.value, revisions);
    var matches := MatchesIfNoneMatch(ifNoneMatch, tag);
    if matches {
      return NotModified(tag), last;
    }

    Grows(h, ws, at(0), at(3));
    Grows(h, ws, at(0), at(4));
    var meta := h[at(3)].releases[uuid].meta;
    var count := |h[at(4)].releases[uuid].distributions|;
    var distributions, k := ReadDistributions(h, ws, at, 4, uuid, count);
    var release := ReleaseView(uuid, meta, distributions);

    var v, k' := ReadLatest(h, ws, at, 2, k, key, COMPONENT_RELEASE);
    last := k';
    ReleaseReadWider(h, at, 4, k, last, release);
    r := Full(tag, Body(release, v));
    BodyWindow(h, at, k, last, uuid, r.body);
  }

  lemma ReleaseReadWider(h: seq<Db>, at: nat -> nat, start: nat, k: nat, last: nat, v: ReleaseView)
    requires Schedule(h, at) && 3 < start <= k <= last
    requires v.uuid in h[at(3)].releases && v.meta == h[at(3)].releases[v.uuid].meta
    requires v.uuid in h[at(start)].releases && |v.distributions| == |h[at(start)].releases[v.uuid].distributions|
    requires forall i :: 0 <= i < |v.distributions| ==>
               DistributionReadIn(h, at(start), at(k), v.uuid, i, v.distributions[i])
    ensures ReleaseReadIn(h, at(2), at(last), v)
  {
  }

  /** The latest version as of statement k, then that version's body. A version that was there at
      statement j makes sure there is one. */
  method ReadLatest(h: seq<Db>, ghost ws: seq<Write>, at: nat -> nat, j: nat, k: nat, key: CollectionKey,
                    kind: OwnerKind)
    returns (v: CollectionView, last: nat)
    requires History(h, ws) && Schedule(h, at) && j <= k
    requires key in h[at(j)].collections && h[at(j)].collections[key].belongsTo == kind
    ensures k < last && v.key.uuid == key.uuid
    ensures IsLatest(h[at(k)], key.uuid, kind, v.key.version)
    ensures CollectionReadIn(h, at(k + 1), at(last), v)
  {
    Grows(h, ws, at(j), at(k));
    LatestExists(h[at(k)], key.uuid, kind, key.version);
    var latest := LatestCollectionVersion(h[at(k)], key.uuid, kind);
    LatestStored(h[at(k)], key.uuid, kind, latest.value);
    Grows(h, ws, at(k), at(k + 1));
    v, last := ReadCollection(h, ws, at, k + 1, CollectionKey(key.uuid, latest.value));
  }

  lemma BodyWindow(h: seq<Db>, at: nat -> nat, k: nat, last: nat, uuid: string, body: Body)
    requires Schedule(h, at) && 2 <= k < last && body.release.uuid == uuid
             && ReleaseReadIn(h, at(2), at(last), body.release)
    requires body.collection.key.uuid == uuid
    requires IsLatest(h[at(k)], uuid, COMPONENT_RELEASE, body.collection.key.version)
    requires CollectionReadIn(h, at(k + 1), at(last), body.collection)
    ensures BodyReadIn(h, at(2), at(last), uuid, body)
  {
    forall i | 0 <= i < |body.collection.artifacts|
      ensures ArtifactReadIn(h, at(2), at(last), body.collection.artifacts[i])
    {
      ArtifactReadWider(h, at(k + 1), at(last), at(2), at(last), body.collection.artifacts[i]);
    }
  }

  // ---------------------------------------------------------------- collection responses

  datatype CollectionResponse = NoCollection | Unchanged(tag: string) | Found(tag: string, body: CollectionView)

  /** The tag of one version, or of whichever version was the latest when it was read. */
  ghost predicate Tagged(h: seq<Db>, latest: bool, i1: nat, i2: nat, key: CollectionKey, kind: OwnerKind,
                         p: Principal, tag: string)
  {
    exists v: int, revisions ::
      && CollectionTag(h, latest, i1, i2, CollectionKey(key.uuid, v), kind, p, tag, revisions)
      && (!latest ==> v == key.version)
  }

  /** The body of one version, or of the latest at some instant of the window. */
  ghost predicate Embodies(h: seq<Db>, latest: bool, lo: nat, hi: nat, key: CollectionKey, kind: OwnerKind,
                           v: CollectionView)
  {
    && lo <= hi < |h|
    && v.key.uuid == key.uuid
    && CollectionReadIn(h, lo, hi, v)
    && (if latest then exists t :: lo <= t <= hi && IsLatest(h[t], key.uuid, kind, v.key.version) else v.key == key)
  }

  method LatestCollection(h: seq<Db>, ghost ws: seq<Write>, at: nat -> nat, uuid: string, kind: OwnerKind, p: Principal,
                          ifNoneMatch: seq<string>) returns (r: CollectionResponse, last: nat)
    requires History(h, ws) && Schedule(h, at)
    ensures r.NoCollection? <==> forall v: int :: !IsLatest(h[at(0)], uuid, kind, v)
    ensures !r.NoCollection? ==> Tagged(h, true, at(0), at(1), CollectionKey(uuid, 0), kind, p, r.tag)
    ensures !r.NoCollection? ==> (r.Unchanged? <==> Matches(ifNoneMatch, r.tag))
    ensures !r.Found? || Embodies(h, true, at(1), at(last), CollectionKey(uuid, 0), kind, r.body)
  {
    last := 0;
    var latest := LatestCollectionVersion(h[at(0)], uuid, kind);
    if latest.None? {
      return NoCollection, last;
    }
    var key := CollectionKey(uuid, latest.value);
    LatestStored(h[at(0)], uuid, kind, latest.value);
    Grows(h, ws, at(0), at(1));
    var revisions := CollectionArtifactRevisions(h[at(1)], key);
    var tag := BuildETag(TagParts(CollectionHead(true, kind, uuid), latest.value, revisions, p));
    assert CollectionTag(h, true, at(0), at(1), key, kind, p, tag, revisions);
    var matches := MatchesIfNoneMatch(ifNoneMatch, tag);
    if matches {
      return Unchanged(tag), last;
    }
    var v;
    v, last := ReadLatest(h, ws, at, 1, 2, key, kind);
    CollectionReadWider(h, at(3), at(last), at(1), at(last), v);
    r := Found(tag, v);
  }

  method GetCollectionByVersion(h: seq<Db>, ghost ws: seq<Write>, at: nat -> nat, key: CollectionKey, kind: OwnerKind,
                                p: Principal, ifNoneMatch: seq<string>) returns (r: CollectionResponse, last: nat)
    requires History(h, ws) && Schedule(h, at)
    ensures r.NoCollection? <==> key !in h[at(0)].collections || h[at(0)].collections[key].belongsTo != kind
    ensures !r.NoCollection? ==> Tagged(h, false, at(0), at(1), key, kind, p, r.tag)
    ensures !r.NoCollection? ==> (r.Unchanged? <==> Matches(ifNoneMatch, r.tag))
    ensures !r.Found? || Embodies(h, false, at(1), at(last), key, kind, r.body)
  {
    last := 0;
    if key !in h[at(0)].collections || h[at(0)].collections[key].belongsTo != kind {
      return NoCollection, last;
    }
    Grows(h, ws, at(0), at(1));
    var revisions := CollectionArtifactRevisions(h[at(1)], key);
    var tag := BuildETag(TagParts(CollectionHead(false, kind, key.uuid), key.version, revisions, p));
    assert CollectionTag(h, false, at(0), at(1), CollectionKey(key.uuid, key.version), kind, p, tag, revisions);
    var matches := MatchesIfNoneMatch(ifNoneMatch, tag);
    if matches {
      return Unchanged(tag), last;
    }
    Grows(h, ws, at(0), at(2));
    var v;
    v, last := ReadCollection(h, ws, at, 2, key);
    CollectionReadWider(h, at(2), at(last), at(1), at(last), v);
    r := Found(tag, v);
  }

  lemma CollectionReadWider(h: seq<Db>, lo: nat, hi: nat, lo': nat, hi': nat, v: CollectionView)
    requires lo' <= lo <= hi <= hi' < |h| && CollectionReadIn(h, lo, hi, v)
    ensures CollectionReadIn(h, lo', hi', v)
  {
  }

  // ---------------------------------------------------------------- a client that revalidates

  /** Every statement of the first request comes before every one of the second. */
  ghost predicate Precedes(at: nat -> nat, at': nat -> nat)
  {
    forall j: nat, k: nat :: at(j) <= at'(k)
  }

  /** A client fetches a release and later asks again with the tag it got. A 304 tells it that what it
      holds is what the later request found when it began. */
  method RevalidateRelease(h: seq<Db>, ghost ws: seq<Write>, at: nat -> nat, at': nat -> nat, uuid: string,
                           p: Principal, p': Principal) returns (first: Response, second: Response)
    requires History(h, ws) && Schedule(h, at) && Schedule(h, at') && Precedes(at, at')
    requires Token(uuid) && TokenPrincipal(p) && TokenPrincipal(p')
    ensures !first.Full? || !second.NotModified? || Current(h[at'(0)], uuid, first.body)
  {
    var last;
    first, last := GetComponentReleaseWithCollection(h, ws, at, uuid, p, []);
    second := NotFound;
    if first.Full? {
      var last';
      second, last' := GetComponentReleaseWithCollection(h, ws, at', uuid, p', [first.tag]);
      if second.NotModified? {
        NotModifiedIsSound(h, ws, at(0), at(1), at(2), at(2), at(last), at'(0), at'(1), at'(2), uuid, p, p',
                           first.tag, second.tag, first.body);
      }
    }
  }

  /** The same for a collection, of a given version or the latest. */
  method RevalidateCollection(h: seq<Db>, ghost ws: seq<Write>, at: nat -> nat, at': nat -> nat, latest: bool,
                              key: CollectionKey, kind: OwnerKind, p: Principal, p': Principal)
    returns (first: CollectionResponse, second: CollectionResponse)
    requires History(h, ws) && Schedule(h, at) && Schedule(h, at') && Precedes(at, at')
    requires Token(key.uuid) && TokenPrincipal(p) && TokenPrincipal(p')
    ensures !first.Found? || !second.Unchanged? ||
            (&& Intact(h[at'(0)])
             && first.body.key in h[at'(0)].collections
             && first.body == LiveCollection(h[at'(0)], first.body.key)
             && (if latest then IsLatest(h[at'(0)], key.uuid, kind, first.body.key.version) else first.body.key == key))
  {
    var last, last';
    if latest {
      first, last := LatestCollection(h, ws, at, key.uuid, kind, p, []);
    } else {
      first, last := GetCollectionByVersion(h, ws, at, key, kind, p, []);
    }
    second := NoCollection;
    if first.Found? {
      if latest {
        second, last' := LatestCollection(h, ws, at', key.uuid, kind, p', [first.tag]);
      } else {
        second, last' := GetCollectionByVersion(h, ws, at', key, kind, p', [first.tag]);
      }
      if second.Unchanged? {
        ghost var asked := if latest then CollectionKey(key.uuid, 0) else key;
        CollectionKept(h, ws, latest, at(0), at(1), at(last), at'(0), at'(1), asked, kind, p, p', first.tag,
                       second.tag, first.body);
      }
    }
  }

  lemma CollectionKept(h: seq<Db>, ws: seq<Write>, latest: bool, e1: nat, e2: nat, hi: nat, f1: nat, f2: nat,
                       key: CollectionKey, kind: OwnerKind, p: Principal, p': Principal, tag: string, tag': string,
                       v: CollectionView)
    requires History(h, ws) && hi <= f1 <= f2 < |h| && Token(key.uuid) && TokenPrincipal(p) && TokenPrincipal(p')
    requires Tagged(h, latest, e1, e2, key, kind, p, tag) && Tagged(h, latest, f1, f2, key, kind, p', tag')
    requires Embodies(h, latest, e2, hi, key, kind, v) && Matches([tag], tag')
    ensures Intact(h[f1])
    ensures v.key in h[f1].collections
    ensures v == LiveCollection(h[f1], v.key)
    ensures if latest then IsLatest(h[f1], key.uuid, kind, v.key.version) else v.key == key
  {
    var n: int, rs :| CollectionTag(h, latest, e1, e2, CollectionKey(key.uuid, n), kind, p, tag, rs)
        && (!latest ==> n == key.version);
    var n': int, rs' :| CollectionTag(h, latest, f1, f2, CollectionKey(key.uuid, n'), kind, p', tag', rs')
        && (!latest ==> n' == key.version);
    CollectionNotModifiedIsSound(h, ws, latest, e1, e2, e2, hi, f1, f2, CollectionKey(key.uuid, n),
                                 CollectionKey(key.uuid, n'),
                                 kind, p, p', tag, tag', rs, rs', v, f1);
  }
}
