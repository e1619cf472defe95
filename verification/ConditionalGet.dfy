/** Conditional reads while writers interleave. A handler reads its entity-tag parts, and then its
    body piece by piece, each at its own instant of a growing history of database states. */
module ConditionalGet {
  import opened Basics
  import opened Schema
  import opened ETag

  // ---------------------------------------------------------------- tables

  /** The signature checksum is stored but not rendered. */
  datatype Format = Format(media: string, checksums: seq<string>, signature: Option<string>)

  datatype ArtifactRow = ArtifactRow(meta: string, formats: seq<Format>, revision: nat)

  datatype Distribution = Distribution(description: string, url: string, checksums: seq<string>)

  datatype ReleaseRow = ReleaseRow(meta: string, distributions: seq<Distribution>, revision: nat)

  /** Products, components and the releases of both have one lifecycle document each. */
  datatype LifecycleOwner = LifecycleOwner(ownerType: string, uuid: string)

  /** A lifecycle document: its events and definitions, and the counter beside it. */
  datatype Lifecycle = Lifecycle(entries: seq<string>, revision: nat)

  datatype Db = Db(
    artifacts: map<ArtifactRef, ArtifactRow>, releases: map<string, ReleaseRow>,
    collections: map<CollectionKey, CollectionRow>, lifecycles: map<LifecycleOwner, Lifecycle>)

  // ---------------------------------------------------------------- writes

  /** Every non-deleting write to these tables. Creating a release also publishes its first
      collection version in the same transaction; importing one does not. */
  datatype Write =
    | CreateRelease(uuid: string, meta: string, version: int, date: int)
    | ImportRelease(uuid: string, meta: string)
    | AddDistribution(uuid: string, distribution: Distribution)
    | SetDistributionFile(uuid: string, index: nat, url: string, sha256: string)
    | AddArtifact(ref: ArtifactRef, meta: string, formats: seq<Format>)
    | SetFormatFile(ref: ArtifactRef, index: nat, sha256: string)
    | SetSignatureFile(ref: ArtifactRef, index: nat, sha256: string)
    | AddCollection(key: CollectionKey, row: CollectionRow)
    | AddLifecycleEntry(owner: LifecycleOwner, entry: string)

  /** What creating a component release publishes with it. */
  function InitialCollection(date: int): CollectionRow
  {
    CollectionRow(FloorSecond(date), COMPONENT_RELEASE, Some("INITIAL_RELEASE"), None, [])
  }

  function SetFormat(row: ArtifactRow, index: nat, f: Format): ArtifactRow
    requires index < |row.formats|
  {
    row.(formats := row.formats[index := f], revision := row.revision + 1)
  }

  /** A write whose target is missing, or whose identity is taken, leaves the tables alone. */
  function Apply(db: Db, w: Write): Db
  {
    match w
    case CreateRelease(uuid, meta, version, date) =>
      var key := CollectionKey(uuid, version);
      if uuid in db.releases || key in db.collections then db
      else db.(releases := db.releases[uuid := ReleaseRow(meta, [], 1)],
               collections := db.collections[key := InitialCollection(date)])
    case ImportRelease(uuid, meta) =>
      if uuid in db.releases then db else db.(releases := db.releases[uuid := ReleaseRow(meta, [], 1)])
    case AddDistribution(uuid, d) =>
      if uuid !in db.releases then db
      else
        var row := db.releases[uuid];
        db.(releases := db.releases[uuid := row.(distributions := row.distributions + [d],
                                                 revision := row.revision + 1)])
    case SetDistributionFile(uuid, index, url, sha256) =>
      if uuid !in db.releases || index >= |db.releases[uuid].distributions| then db
      else
        var row := db.releases[uuid];
        var d := row.distributions[index];
        var d' := d.(url := url, checksums := d.checksums + [sha256]);
        db.(releases := db.releases[uuid := row.(distributions := row.distributions[index := d'],
                                                 revision := row.revision + 1)])
    case AddArtifact(ref, meta, formats) =>
      if ref in db.artifacts then db else db.(artifacts := db.artifacts[ref := ArtifactRow(meta, formats, 1)])
    case SetFormatFile(ref, index, sha256) =>
      if ref !in db.artifacts || index >= |db.artifacts[ref].formats| then db
      else
        var row := db.artifacts[ref];
        db.(artifacts := db.artifacts[ref := SetFormat(row, index, row.formats[index].(checksums := [sha256]))])
    case SetSignatureFile(ref, index, sha256) =>
      if ref !in db.artifacts || index >= |db.artifacts[ref].formats| then db
      else
        var row := db.artifacts[ref];
        db.(artifacts := db.artifacts[ref := SetFormat(row, index, row.formats[index].(signature := Some(sha256)))])
    case AddCollection(key, row) =>
      if key in db.collections || !(forall r :: r in row.refs ==> r in db.artifacts) then db
      else db.(collections := db.collections[key := row])
    case AddLifecycleEntry(owner, entry) =>
      var old_ := if owner in db.lifecycles then db.lifecycles[owner] else Lifecycle([], 0);
      db.(lifecycles := db.lifecycles[owner := Lifecycle(old_.entries + [entry], old_.revision + 1)])
  }

  /** References are enforced by foreign key. */
  ghost predicate Intact(db: Db)
  {
    forall k, r :: k in db.collections && r in db.collections[k].refs ==> r in db.artifacts
  }

  /** Each state follows from the one before by one write. */
  ghost predicate Follows(h: seq<Db>, ws: seq<Write>, i: nat)
    requires |h| == |ws| + 1
  {
    i < |ws| ==> h[i + 1] == Apply(h[i], ws[i])
  }

  ghost predicate History(h: seq<Db>, ws: seq<Write>)
  {
    && |h| == |ws| + 1
    && Intact(h[0])
    && forall i: nat {:trigger Follows(h, ws, i)} :: Follows(h, ws, i)
  }

  // ---------------------------------------------------------------- counters detect every change

  ghost function LifecycleOf(db: Db, owner: LifecycleOwner): Lifecycle
  {
    if owner in db.lifecycles then db.lifecycles[owner] else Lifecycle([], 0)
  }

  ghost predicate ArtifactsKept(db: Db, db': Db)
  {
    forall r :: r in db.artifacts ==>
      && r in db'.artifacts
      && |db'.artifacts[r].formats| == |db.artifacts[r].formats|
      && (db'.artifacts[r] == db.artifacts[r] || db'.artifacts[r].revision > db.artifacts[r].revision)
  }

  ghost predicate ReleasesKept(db: Db, db': Db)
  {
    forall u :: u in db.releases ==>
      && u in db'.releases
      && |db'.releases[u].distributions| >= |db.releases[u].distributions|
      && (db'.releases[u] == db.releases[u] || db'.releases[u].revision > db.releases[u].revision)
  }

  ghost predicate CollectionsKept(db: Db, db': Db)
  {
    forall k :: k in db.collections ==> k in db'.collections && db'.collections[k] == db.collections[k]
  }

  ghost predicate LifecyclesKept(db: Db, db': Db)
  {
    forall u :: LifecycleOf(db', u) == LifecycleOf(db, u) || LifecycleOf(db', u).revision > LifecycleOf(db, u).revision
  }

  /** A write either leaves a row exactly as it was or raises its counter; nothing disappears, and
      stored collection versions never change. */
  lemma WriteEffect(db: Db, w: Write)
    ensures var db' := Apply(db, w);
      && ArtifactsKept(db, db')
      && ReleasesKept(db, db')
      && CollectionsKept(db, db')
      && LifecyclesKept(db, db')
      && (Intact(db) ==> Intact(db'))
  {
    ArtifactsEffect(db, w);
    ReleasesEffect(db, w);
    if Intact(db) {
      IntactEffect(db, w);
    }
  }

  /** Which writes take effect: those whose target is there, or whose identity is free. */
  lemma WritesLand(db: Db, w: Write)
    ensures Apply(db, w) != db <==>
              match w
              case CreateRelease(uuid, _, version, _) =>
                uuid !in db.releases && CollectionKey(uuid, version) !in db.collections
              case ImportRelease(uuid, _) => uuid !in db.releases
              case AddDistribution(uuid, _) => uuid in db.releases
              case SetDistributionFile(uuid, index, _, _) =>
                uuid in db.releases && index < |db.releases[uuid].distributions|
              case AddArtifact(ref, _, _) => ref !in db.artifacts
              case SetFormatFile(ref, index, _) => ref in db.artifacts && index < |db.artifacts[ref].formats|
              case SetSignatureFile(ref, index, _) => ref in db.artifacts && index < |db.artifacts[ref].formats|
              case AddCollection(key, row) => key !in db.collections && forall r :: r in row.refs ==> r in db.artifacts
              case AddLifecycleEntry(_, _) => true
  {
  }

  lemma ArtifactsEffect(db: Db, w: Write)
    ensures ArtifactsKept(db, Apply(db, w))
  {
  }

  lemma ReleasesEffect(db: Db, w: Write)
    ensures ReleasesKept(db, Apply(db, w))
  {
  }

  lemma IntactEffect(db: Db, w: Write)
    requires Intact(db)
    ensures Intact(Apply(db, w))
  {
  }

  lemma {:induction false} Grows(h: seq<Db>, ws: seq<Write>, i: nat, j: nat)
    requires History(h, ws) && i <= j < |h|
    ensures Intact(h[j])
    ensures forall r :: r in h[i].artifacts ==>
              r in h[j].artifacts && h[i].artifacts[r].revision <= h[j].artifacts[r].revision
    ensures forall r :: r in h[i].artifacts ==> |h[j].artifacts[r].formats| == |h[i].artifacts[r].formats|
    ensures forall u :: u in h[i].releases ==>
              u in h[j].releases && h[i].releases[u].revision <= h[j].releases[u].revision
    ensures forall u :: u in h[i].releases ==> |h[j].releases[u].distributions| >= |h[i].releases[u].distributions|
    ensures forall k :: k in h[i].collections ==> k in h[j].collections && h[j].collections[k] == h[i].collections[k]
    ensures forall u :: LifecycleOf(h[i], u).revision <= LifecycleOf(h[j], u).revision
    decreases j
  {
    if 0 < j {
      assert Follows(h, ws, j - 1);
      WriteEffect(h[j - 1], ws[j - 1]);
      Grows(h, ws, if i < j then i else j - 1, j - 1);
    }
  }

  /** Equal counters at two instants mean the artifact never changed in between. */
  lemma {:induction false} ArtifactConstant(h: seq<Db>, ws: seq<Write>, i: nat, m: nat, j: nat, r: ArtifactRef)
    requires History(h, ws) && i <= m <= j < |h| && r in h[i].artifacts
    requires r in h[j].artifacts && h[j].artifacts[r].revision == h[i].artifacts[r].revision
    ensures r in h[m].artifacts
    ensures h[m].artifacts[r] == h[i].artifacts[r]
    decreases j
  {
    if i < j {
      assert Follows(h, ws, j - 1);
      WriteEffect(h[j - 1], ws[j - 1]);
      Grows(h, ws, i, j - 1);
      assert h[j].artifacts[r] == h[j - 1].artifacts[r];
      ArtifactConstant(h, ws, i, if m < j then m else j - 1, j - 1, r);
    }
  }

  lemma {:induction false} ReleaseConstant(h: seq<Db>, ws: seq<Write>, i: nat, m: nat, j: nat, u: string)
    requires History(h, ws) && i <= m <= j < |h| && u in h[i].releases
    requires u in h[j].releases && h[j].releases[u].revision == h[i].releases[u].revision
    ensures u in h[m].releases && h[m].releases[u] == h[i].releases[u]
    decreases j
  {
    if i < j {
      assert Follows(h, ws, j - 1);
      WriteEffect(h[j - 1], ws[j - 1]);
      Grows(h, ws, i, j - 1);
      assert h[j].releases[u] == h[j - 1].releases[u];
      ReleaseConstant(h, ws, i, if m < j then m else j - 1, j - 1, u);
    }
  }

  lemma {:induction false} LifecycleConstant(h: seq<Db>, ws: seq<Write>, i: nat, m: nat, j: nat, u: LifecycleOwner)
    requires History(h, ws) && i <= m <= j < |h|
    requires LifecycleOf(h[j], u).revision == LifecycleOf(h[i], u).revision
    ensures LifecycleOf(h[m], u) == LifecycleOf(h[i], u)
    decreases j
  {
    if i < j {
      assert Follows(h, ws, j - 1);
      WriteEffect(h[j - 1], ws[j - 1]);
      Grows(h, ws, i, j - 1);
      assert LifecycleOf(h[j], u) == LifecycleOf(h[j - 1], u);
      LifecycleConstant(h, ws, i, if m < j then m else j - 1, j - 1, u);
    }
  }

  // ---------------------------------------------------------------- the latest collection

  ghost function Versions(db: Db, uuid: string, kind: OwnerKind): set<int>
  {
    set k | k in db.collections && k.uuid == uuid && db.collections[k].belongsTo == kind :: k.version
  }

  ghost predicate IsLatest(db: Db, uuid: string, kind: OwnerKind, v: int)
  {
    IsMax(v, Versions(db, uuid, kind))
  }

  lemma LatestExists(db: Db, uuid: string, kind: OwnerKind, v: int)
    requires CollectionKey(uuid, v) in db.collections && db.collections[CollectionKey(uuid, v)].belongsTo == kind
    ensures exists m: int :: IsLatest(db, uuid, kind, m)
  {
    var vs := Versions(db, uuid, kind);
    assert CollectionKey(uuid, v).version in vs;
    MaxExists(vs, v);
    var m: int :| IsMax(m, vs);
    assert IsLatest(db, uuid, kind, m);
  }

  lemma LatestStored(db: Db, uuid: string, kind: OwnerKind, v: int)
    requires IsLatest(db, uuid, kind, v)
    ensures CollectionKey(uuid, v) in db.collections
    ensures db.collections[CollectionKey(uuid, v)].belongsTo == kind
  {
  }

  /** The latest version never goes down, so if it is the same at two instants it is the same in between. */
  lemma LatestBetween(h: seq<Db>, ws: seq<Write>, i: nat, m: nat, j: nat, uuid: string, kind: OwnerKind, v: int)
    requires History(h, ws) && i <= m <= j < |h|
    requires IsLatest(h[i], uuid, kind, v) && IsLatest(h[j], uuid, kind, v)
    ensures IsLatest(h[m], uuid, kind, v)
  {
    var key := CollectionKey(uuid, v);
    Grows(h, ws, i, m);
    Grows(h, ws, m, j);
    assert key in h[m].collections && key.version in Versions(h[m], uuid, kind);
    forall x | x in Versions(h[m], uuid, kind)
      ensures x <= v
    {
      var k :| k in h[m].collections && k.uuid == uuid && h[m].collections[k].belongsTo == kind && k.version == x;
      assert k in h[j].collections && k.version in Versions(h[j], uuid, kind);
    }
  }

  // ---------------------------------------------------------------- entity-tag parts

  /** Anonymous callers share one tag suffix; a user's carries its entitlement counter. */
  datatype Principal = Anonymous | User(uuid: string, watermark: nat)

  function SuffixParts(p: Principal): seq<string>
  {
    match p
    case Anonymous => ["anon"]
    case User(uuid, watermark) => ["u", uuid, Itoa(watermark)]
  }

  /** Path uuids and user uuids contain neither separator. */
  predicate Token(s: string)
  {
    ':' !in s && ',' !in s
  }

  predicate TokenPrincipal(p: Principal)
  {
    p.User? ==> Token(p.uuid)
  }

  ghost function Revisions(db: Db, refs: seq<ArtifactRef>): (r: seq<nat>)
    requires forall x :: x in refs ==> x in db.artifacts
    ensures |r| == |refs|
    ensures forall i :: 0 <= i < |r| ==> r[i] == db.artifacts[refs[i]].revision
  {
    seq(|refs|, i requires 0 <= i < |refs| => db.artifacts[refs[i]].revision)
  }

  function ItoaAll(ns: seq<nat>): (r: seq<string>)
    ensures |r| == |ns| && forall i :: 0 <= i < |r| ==> r[i] == Itoa(ns[i])
  {
    seq(|ns|, i requires 0 <= i < |ns| => Itoa(ns[i]))
  }

  /** head holds the endpoint's name and identity and, for a release, its counter. */
  function TagParts(head: seq<string>, version: int, revisions: seq<nat>, p: Principal): seq<string>
  {
    head + [Itoa(version)] + ItoaAll(revisions) + SuffixParts(p)
  }

  predicate CleanHead(head: seq<string>)
  {
    forall s :: s in head ==> Token(s)
  }

  lemma TagPartsClean(head: seq<string>, version: int, revisions: seq<nat>, p: Principal)
    requires CleanHead(head) && TokenPrincipal(p)
    ensures forall s :: s in TagParts(head, version, revisions, p) ==> Token(s)
  {
  }

  /** The last part of a tag tells an anonymous caller's from a user's: no number is written anon. */
  lemma SuffixTells(head: seq<string>, v: int, rs: seq<nat>, p: Principal)
    ensures TagParts(head, v, rs, p)[|TagParts(head, v, rs, p)| - 1] == "anon" <==> p.Anonymous?
  {
    if p.User? {
      var s := Itoa(p.watermark);
      assert s[0] in s && !IsDigit("anon"[0]);
    }
  }

  /** At one endpoint equal tags mean equal identity, version, counters and caller. */
  lemma TagInjective(head: seq<string>, v: int, rs: seq<nat>, p: Principal,
                     head': seq<string>, v': int, rs': seq<nat>, p': Principal)
    requires CleanHead(head) && CleanHead(head') && |head| == |head'| && TokenPrincipal(p) && TokenPrincipal(p')
    requires BuildETag(TagParts(head, v, rs, p)) == BuildETag(TagParts(head', v', rs', p'))
    ensures (head, v, rs, p) == (head', v', rs', p')
  {
    TagPartsClean(head, v, rs, p);
    TagPartsClean(head', v', rs', p');
    BuildETagInjective(TagParts(head, v, rs, p), TagParts(head', v', rs', p'));
    SuffixTells(head, v, rs, p);
    SuffixTells(head', v', rs', p');
    PartsInjective(head, v, rs, p, head', v', rs', p');
  }

  lemma PartsInjective(head: seq<string>, v: int, rs: seq<nat>, p: Principal,
                       head': seq<string>, v': int, rs': seq<nat>, p': Principal)
    requires |head| == |head'| && p.User? == p'.User?
    requires TagParts(head, v, rs, p) == TagParts(head', v', rs', p')
    ensures head == head' && v == v' && rs == rs' && p == p'
  {
    var a, b := TagParts(head, v, rs, p), TagParts(head', v', rs', p');
    var n := |head|;
    assert head == a[..n] && head' == b[..n];
    assert Itoa(v) == a[n] && Itoa(v') == b[n];
    ItoaInjective(v, v');
    assert |rs| == |rs'|;
    forall i | 0 <= i < |rs|
      ensures rs[i] == rs'[i]
    {
      assert Itoa(rs[i]) == a[n + 1 + i] && Itoa(rs'[i]) == b[n + 1 + i];
      ItoaInjective(rs[i], rs'[i]);
    }
    if p.User? {
      assert p.uuid == a[|a| - 2] && p'.uuid == b[|b| - 2];
      assert Itoa(p.watermark) == a[|a| - 1] && Itoa(p'.watermark) == b[|b| - 1];
      ItoaInjective(p.watermark, p'.watermark);
    }
  }

  // ---------------------------------------------------------------- bodies

  datatype FormatView = FormatView(media: string, checksums: seq<string>)

  datatype ArtifactView = ArtifactView(ref: ArtifactRef, meta: string, formats: seq<FormatView>)

  datatype CollectionView = CollectionView(
    key: CollectionKey, date: int, belongsTo: OwnerKind, reason: Option<UpdateReason>, artifacts: seq<ArtifactView>)

  datatype ReleaseView = ReleaseView(uuid: string, meta: string, distributions: seq<Distribution>)

  function ViewFormat(f: Format): FormatView { FormatView(f.media, f.checksums) }

  function ViewArtifact(ref: ArtifactRef, row: ArtifactRow): (v: ArtifactView)
    ensures |v.formats| == |row.formats|
  {
    ArtifactView(ref, row.meta, seq(|row.formats|, i requires 0 <= i < |row.formats| => ViewFormat(row.formats[i])))
  }

  /** The collection version as it stands in one state. */
  ghost function LiveCollection(db: Db, key: CollectionKey): (v: CollectionView)
    requires Intact(db) && key in db.collections
  {
    var row := db.collections[key];
    CollectionView(key, row.date, row.belongsTo, ReadReason(row.reasonKind, row.reasonComment),
                   seq(|row.refs|, i requires 0 <= i < |row.refs| =>
                     ViewArtifact(row.refs[i], db.artifacts[row.refs[i]])))
  }

  ghost function LiveRelease(db: Db, uuid: string): ReleaseView
    requires uuid in db.releases
  {
    ReleaseView(uuid, db.releases[uuid].meta, db.releases[uuid].distributions)
  }

  /** The view shows the row's own columns. */
  predicate HeadOf(v: CollectionView, row: CollectionRow)
  {
    v.date == row.date && v.belongsTo == row.belongsTo && v.reason == ReadReason(row.reasonKind, row.reasonComment)
  }

  /** A body read piece by piece: every format of every artifact at its own instant of the window. */
  ghost predicate FormatReadIn(h: seq<Db>, lo: nat, hi: nat, ref: ArtifactRef, i: nat, f: FormatView)
    requires lo <= hi < |h|
  {
    exists t, t' :: lo <= t <= hi && lo <= t' <= hi && ref in h[t].artifacts && ref in h[t'].artifacts
                && i < |h[t].artifacts[ref].formats|
                && i < |h[t'].artifacts[ref].formats|
                && f.media == h[t].artifacts[ref].formats[i].media
                && f.checksums == h[t'].artifacts[ref].formats[i].checksums
  }

  ghost predicate ArtifactReadIn(h: seq<Db>, lo: nat, hi: nat, v: ArtifactView)
    requires lo <= hi < |h|
  {
    && (exists t :: lo <= t <= hi && v.ref in h[t].artifacts && v.meta == h[t].artifacts[v.ref].meta
                    && |v.formats| == |h[t].artifacts[v.ref].formats|)
    && forall i :: 0 <= i < |v.formats| ==> FormatReadIn(h, lo, hi, v.ref, i, v.formats[i])
  }

  ghost predicate CollectionReadIn(h: seq<Db>, lo: nat, hi: nat, v: CollectionView)
    requires lo <= hi < |h|
  {
    && (exists t :: lo <= t <= hi && v.key in h[t].collections
                    && var row := h[t].collections[v.key];
                    && HeadOf(v, row)
                    && |v.artifacts| == |row.refs|
                    && forall i :: 0 <= i < |row.refs| ==> v.artifacts[i].ref == row.refs[i])
    && forall i :: 0 <= i < |v.artifacts| ==> ArtifactReadIn(h, lo, hi, v.artifacts[i])
  }

  ghost predicate DistributionReadIn(h: seq<Db>, lo: nat, hi: nat, uuid: string, i: nat, d: Distribution)
    requires lo <= hi < |h|
  {
    exists t, t' :: lo <= t <= hi && lo <= t' <= hi && uuid in h[t].releases && uuid in h[t'].releases
                && i < |h[t].releases[uuid].distributions|
                && i < |h[t'].releases[uuid].distributions|
                && d.description == h[t].releases[uuid].distributions[i].description
                && d.url == h[t].releases[uuid].distributions[i].url
                && d.checksums == h[t'].releases[uuid].distributions[i].checksums
  }

  ghost predicate ReleaseReadIn(h: seq<Db>, lo: nat, hi: nat, v: ReleaseView)
    requires lo <= hi < |h|
  {
    && (exists t, t' :: lo <= t <= hi && lo <= t' <= hi && v.uuid in h[t].releases && v.uuid in h[t'].releases
                        && v.meta == h[t].releases[v.uuid].meta
                        && |v.distributions| == |h[t'].releases[v.uuid].distributions|)
    && forall i :: 0 <= i < |v.distributions| ==> DistributionReadIn(h, lo, hi, v.uuid, i, v.distributions[i])
  }

  /** If every listed artifact holds still over the window, a torn read is the live value. */
  lemma CollectionReadIsLive(h: seq<Db>, ws: seq<Write>, lo: nat, hi: nat, v: CollectionView, m: nat,
                             refs: seq<ArtifactRef>)
    requires History(h, ws) && lo <= hi < |h| && m < |h| && Intact(h[m])
    requires CollectionReadIn(h, lo, hi, v)
    requires v.key in h[lo].collections && h[lo].collections[v.key].refs == refs
    requires v.key in h[m].collections && h[m].collections[v.key] == h[lo].collections[v.key]
    requires forall r, t :: r in refs && lo <= t <= hi && r in h[t].artifacts ==>
               r in h[m].artifacts && h[t].artifacts[r] == h[m].artifacts[r]
    ensures v == LiveCollection(h[m], v.key)
  {
    var t :| lo <= t <= hi && v.key in h[t].collections
               && var row := h[t].collections[v.key];
               && HeadOf(v, row) && |v.artifacts| == |row.refs|
               && forall i :: 0 <= i < |row.refs| ==> v.artifacts[i].ref == row.refs[i];
    Grows(h, ws, lo, t);
    var live := LiveCollection(h[m], v.key);
    forall i | 0 <= i < |refs|
      ensures v.artifacts[i] == live.artifacts[i]
    {
      var a, row := v.artifacts[i], h[m].artifacts[refs[i]];
      assert a.ref == refs[i] && ArtifactReadIn(h, lo, hi, a);
      forall j | 0 <= j < |a.formats|
        ensures j < |row.formats| && a.formats[j] == ViewFormat(row.formats[j])
      {
        assert FormatReadIn(h, lo, hi, a.ref, j, a.formats[j]);
      }
      assert a.formats == ViewArtifact(refs[i], row).formats;
    }
    assert v.artifacts == live.artifacts;
  }

  // ---------------------------------------------------------------- soundness of 304

  /** The two entity-tag reads that concern a collection: its version, then its artifacts' counters. */
  ghost predicate CollectionTagRead(h: seq<Db>, i1: nat, i2: nat, key: CollectionKey, revisions: seq<nat>)
  {
    && i1 <= i2 < |h|
    && key in h[i1].collections && key in h[i2].collections
    && (forall r :: r in h[i2].collections[key].refs ==> r in h[i2].artifacts)
    && revisions == Revisions(h[i2], h[i2].collections[key].refs)
  }

  /** Equal version and counters in two tag reads, the body read in between: the body held is the
      collection as it is at any instant from the body's last read to the second tag's last. */
  lemma CollectionHeldIsLive(h: seq<Db>, ws: seq<Write>, e1: nat, e2: nat, lo: nat, hi: nat, f1: nat, f2: nat,
                             v: CollectionView, revisions: seq<nat>, m: nat)
    requires History(h, ws) && e1 <= e2 <= lo <= hi <= f1 <= f2 < |h| && hi <= m <= f2
    requires CollectionTagRead(h, e1, e2, v.key, revisions) && CollectionTagRead(h, f1, f2, v.key, revisions)
    requires CollectionReadIn(h, lo, hi, v)
    ensures v.key in h[m].collections
    ensures Intact(h[m])
    ensures v == LiveCollection(h[m], v.key)
  {
    Grows(h, ws, e1, e2);
    Grows(h, ws, e2, lo);
    Grows(h, ws, e2, m);
    Grows(h, ws, e2, f2);
    var refs := h[e2].collections[v.key].refs;
    forall r, t | r in refs && lo <= t <= hi && r in h[t].artifacts
      ensures r in h[m].artifacts && h[t].artifacts[r] == h[m].artifacts[r]
    {
      var k :| 0 <= k < |refs| && refs[k] == r;
      assert revisions[k] == h[e2].artifacts[r].revision == h[f2].artifacts[r].revision;
      ArtifactConstant(h, ws, e2, t, f2, r);
      ArtifactConstant(h, ws, e2, m, f2, r);
    }
    CollectionReadIsLive(h, ws, lo, hi, v, m, refs);
  }

  function ReleaseHead(uuid: string, revision: nat): seq<string>
  {
    ["componentRelease", uuid, Itoa(revision)]
  }

  /** The tag a component-release request computes: the release's counter at i0, the latest
      collection version v at i1 and that version's artifact counters at i2. */
  ghost predicate ReleaseTagIs(h: seq<Db>, i0: nat, i1: nat, i2: nat, uuid: string, p: Principal, tag: string,
                               v: int, revisions: seq<nat>)
  {
    && i0 <= i1 <= i2 < |h| && uuid in h[i0].releases
    && IsLatest(h[i1], uuid, COMPONENT_RELEASE, v)
    && CollectionTagRead(h, i1, i2, CollectionKey(uuid, v), revisions)
    && tag == BuildETag(TagParts(ReleaseHead(uuid, h[i0].releases[uuid].revision), v, revisions, p))
  }

  ghost predicate ReleaseTag(h: seq<Db>, i0: nat, i1: nat, i2: nat, uuid: string, p: Principal, tag: string)
  {
    exists v: int, revisions :: ReleaseTagIs(h, i0, i1, i2, uuid, p, tag, v, revisions)
  }

  /** What the client of a component-release response holds. */
  datatype Body = Body(release: ReleaseView, collection: CollectionView)

  ghost predicate BodyReadIn(h: seq<Db>, lo: nat, hi: nat, uuid: string, body: Body)
  {
    && lo <= hi < |h|
    && body.release.uuid == uuid
    && ReleaseReadIn(h, lo, hi, body.release)
    && body.collection.key.uuid == uuid
    && (exists t :: lo <= t <= hi && IsLatest(h[t], uuid, COMPONENT_RELEASE, body.collection.key.version))
    && CollectionReadIn(h, lo, hi, body.collection)
  }

  /** The body is the release with its latest collection as the state has them. */
  ghost predicate Current(db: Db, uuid: string, body: Body)
  {
    && uuid in db.releases && body.release == LiveRelease(db, uuid)
    && IsLatest(db, uuid, COMPONENT_RELEASE, body.collection.key.version)
    && Intact(db) && body.collection.key in db.collections
    && body.collection == LiveCollection(db, body.collection.key)
  }

  /** A client was given a tag (read at e0, e1, e2) with a body (read over [lo, hi]) and later sends
      the tag back. If the tag computed then (read at f0, f1, f2) matches, so that it is answered
      304, the body it holds is the release with its latest collection as they stood at f0, when
      that later request began its reads. */
  lemma NotModifiedIsSound(h: seq<Db>, ws: seq<Write>, e0: nat, e1: nat, e2: nat, lo: nat, hi: nat,
                           f0: nat, f1: nat, f2: nat, uuid: string, p: Principal, p': Principal,
                           tag: string, tag': string, body: Body)
    requires History(h, ws) && e2 <= lo && hi <= f0 && Token(uuid)
    requires TokenPrincipal(p) && TokenPrincipal(p')
    requires ReleaseTag(h, e0, e1, e2, uuid, p, tag) && BodyReadIn(h, lo, hi, uuid, body)
    requires ReleaseTag(h, f0, f1, f2, uuid, p', tag')
    requires Matches([tag], tag')
    ensures Current(h[f0], uuid, body)
  {
    var v: int, rs :| ReleaseTagIs(h, e0, e1, e2, uuid, p, tag, v, rs);
    var v': int, rs' :| ReleaseTagIs(h, f0, f1, f2, uuid, p', tag', v', rs');
    SameReleaseTag(uuid, h[e0].releases[uuid].revision, v, rs, p, h[f0].releases[uuid].revision, v', rs', p');
    ReleaseHeldIsLive(h, ws, e0, lo, hi, f0, body.release);
    var t :| lo <= t <= hi && IsLatest(h[t], uuid, COMPONENT_RELEASE, body.collection.key.version);
    LatestBetween(h, ws, e1, t, f1, uuid, COMPONENT_RELEASE, v);
    LatestBetween(h, ws, e1, f0, f1, uuid, COMPONENT_RELEASE, v);
    assert body.collection.key == CollectionKey(uuid, v);
    CollectionHeldIsLive(h, ws, e1, e2, lo, hi, f1, f2, body.collection, rs, f0);
  }

  lemma ReleaseHeldIsLive(h: seq<Db>, ws: seq<Write>, e0: nat, lo: nat, hi: nat, f0: nat, v: ReleaseView)
    requires History(h, ws) && e0 <= lo <= hi <= f0 < |h|
    requires v.uuid in h[e0].releases && v.uuid in h[f0].releases
    requires h[e0].releases[v.uuid].revision == h[f0].releases[v.uuid].revision
    requires ReleaseReadIn(h, lo, hi, v)
    ensures v == LiveRelease(h[f0], v.uuid)
  {
    forall t | lo <= t <= hi && v.uuid in h[t].releases
      ensures h[t].releases[v.uuid] == h[f0].releases[v.uuid]
    {
      ReleaseConstant(h, ws, e0, t, f0, v.uuid);
      ReleaseConstant(h, ws, e0, f0, f0, v.uuid);
    }
  }

  lemma SameReleaseTag(uuid: string, revision: nat, v: int, rs: seq<nat>, p: Principal,
                       revision': nat, v': int, rs': seq<nat>, p': Principal)
    requires Token(uuid) && TokenPrincipal(p) && TokenPrincipal(p')
    requires Matches([BuildETag(TagParts(ReleaseHead(uuid, revision), v, rs, p))],
                     BuildETag(TagParts(ReleaseHead(uuid, revision'), v', rs', p')))
    ensures (revision, v, rs) == (revision', v', rs')
  {
    var head, head' := ReleaseHead(uuid, revision), ReleaseHead(uuid, revision');
    assert Token("componentRelease");
    SameTag(head, v, rs, p, head', v', rs', p');
    assert Itoa(revision) == head[2] && Itoa(revision') == head'[2];
    ItoaInjective(revision, revision');
  }

  lemma SameTag(head: seq<string>, v: int, rs: seq<nat>, p: Principal,
                head': seq<string>, v': int, rs': seq<nat>, p': Principal)
    requires |head| == |head'| && TokenPrincipal(p) && TokenPrincipal(p')
    requires CleanHead(head) && CleanHead(head')
    requires Matches([BuildETag(TagParts(head, v, rs, p))], BuildETag(TagParts(head', v', rs', p')))
    ensures (head, v, rs) == (head', v', rs')
  {
    TagPartsClean(head, v, rs, p);
    ReplayMatchesIffEqual(TagParts(head, v, rs, p), TagParts(head', v', rs', p'));
    TagInjective(head, v, rs, p, head', v', rs', p');
  }

  function KindName(kind: OwnerKind): string
  {
    match kind case PRODUCT_RELEASE => "PRODUCT_RELEASE" case COMPONENT_RELEASE => "COMPONENT_RELEASE"
  }

  function CollectionHead(latest: bool, kind: OwnerKind, uuid: string): seq<string>
  {
    [if latest then "collection-latest" else "collection", KindName(kind), uuid]
  }

  lemma CollectionHeadClean(latest: bool, kind: OwnerKind, uuid: string)
    requires Token(uuid)
    ensures CleanHead(CollectionHead(latest, kind, uuid))
  {
  }

  /** The tag of one collection version, or of a release's latest collection. */
  ghost predicate CollectionTag(h: seq<Db>, latest: bool, i1: nat, i2: nat, key: CollectionKey, kind: OwnerKind,
                                p: Principal, tag: string, revisions: seq<nat>)
  {
    && CollectionTagRead(h, i1, i2, key, revisions)
    && (if latest then IsLatest(h[i1], key.uuid, kind, key.version) else h[i1].collections[key].belongsTo == kind)
    && tag == BuildETag(TagParts(CollectionHead(latest, kind, key.uuid), key.version, revisions, p))
  }

  /** The same for collection responses. A by-version body is current throughout the later request;
      a latest-collection body is still the latest when that request began. */
  lemma CollectionNotModifiedIsSound(h: seq<Db>, ws: seq<Write>, latest: bool, e1: nat, e2: nat, lo: nat, hi: nat,
                                     f1: nat, f2: nat, key: CollectionKey, key': CollectionKey, kind: OwnerKind,
                                     p: Principal, p': Principal, tag: string, tag': string,
                                     rs: seq<nat>, rs': seq<nat>, v: CollectionView, m: nat)
    requires History(h, ws) && e2 <= lo <= hi <= f1 <= m <= f2 && Token(key.uuid) && key'.uuid == key.uuid
    requires TokenPrincipal(p) && TokenPrincipal(p')
    requires CollectionTag(h, latest, e1, e2, key, kind, p, tag, rs)
    requires CollectionTag(h, latest, f1, f2, key', kind, p', tag', rs')
    requires CollectionReadIn(h, lo, hi, v) && v.key.uuid == key.uuid
    requires if latest then exists t :: lo <= t <= hi && IsLatest(h[t], key.uuid, kind, v.key.version) else v.key == key
    requires Matches([tag], tag')
    ensures key' == key == v.key
    ensures latest ==> IsLatest(h[f1], key.uuid, kind, v.key.version)
    ensures Intact(h[m])
    ensures v.key in h[m].collections
    ensures v == LiveCollection(h[m], v.key)
  {
    CollectionHeadClean(latest, kind, key.uuid);
    var head := CollectionHead(latest, kind, key.uuid);
    SameTag(head, key.version, rs, p, head, key'.version, rs', p');
    if latest {
      var t :| lo <= t <= hi && IsLatest(h[t], key.uuid, kind, v.key.version);
      LatestBetween(h, ws, e1, t, f1, key.uuid, kind, key.version);
    }
    CollectionHeldIsLive(h, ws, e1, e2, lo, hi, f1, f2, v, rs, m);
  }

  ghost function OneRelease(uuid: string): Db
  {
    Db(map[], map[uuid := ReleaseRow("", [], 1)],
       map[CollectionKey(uuid, 1) := InitialCollection(0)], map[])
  }

  /** Tag and body read in the first state, the tag recomputed across the second. */
  ghost predicate StaleAtTheLastRead(h: seq<Db>, uuid: string, p: Principal, tag: string, body: Body)
  {
    && |h| == 2
    && ReleaseTag(h, 0, 0, 0, uuid, p, tag)
    && BodyReadIn(h, 0, 0, uuid, body)
    && ReleaseTag(h, 0, 1, 1, uuid, p, tag)
    && uuid in h[1].releases
    && body.release != LiveRelease(h[1], uuid)
  }

  /** The instant f0 cannot be replaced by the last read f2: a write between the two is answered 304
      all the same, with a body that is no longer current. */
  lemma MayBeStaleAtTheLastRead(uuid: string, d: Distribution, p: Principal)
    ensures var w := AddDistribution(uuid, d);
      var h := [OneRelease(uuid), Apply(OneRelease(uuid), w)];
      && History(h, [w])
      && exists tag, body :: StaleAtTheLastRead(h, uuid, p, tag, body)
  {
    var db, w := OneRelease(uuid), AddDistribution(uuid, d);
    var h, key := [db, Apply(db, w)], CollectionKey(uuid, 1);
    forall i: nat
      ensures Follows(h, [w], i)
    {
    }
    assert key.version in Versions(h[0], uuid, COMPONENT_RELEASE);
    assert key.version in Versions(h[1], uuid, COMPONENT_RELEASE);
    assert IsLatest(h[0], uuid, COMPONENT_RELEASE, 1) && IsLatest(h[1], uuid, COMPONENT_RELEASE, 1);
    var tag := BuildETag(TagParts(ReleaseHead(uuid, 1), 1, [], p));
    assert Revisions(h[0], []) == [] && Revisions(h[1], []) == [];
    assert ReleaseTagIs(h, 0, 0, 0, uuid, p, tag, 1, []) && ReleaseTagIs(h, 0, 1, 1, uuid, p, tag, 1, []);
    var body := Body(ReleaseView(uuid, "", []), LiveCollection(h[0], key));
    assert h[0].collections[key].refs == [];
    assert CollectionReadIn(h, 0, 0, body.collection);
    assert BodyReadIn(h, 0, 0, uuid, body);
    assert |LiveRelease(h[1], uuid).distributions| == 1;
    assert StaleAtTheLastRead(h, uuid, p, tag, body);
  }

  // ---------------------------------------------------------------- exactly when the last read is current too

  /** Distributions and their checksums are only ever added. */
  function Size(ds: seq<Distribution>): nat
  {
    if ds == [] then 0 else Size(ds[..|ds| - 1]) + 1 + |ds[|ds| - 1].checksums|
  }

  lemma {:induction false} SizeOfUpdate(ds: seq<Distribution>, i: nat, d: Distribution)
    requires i < |ds| && |d.checksums| == |ds[i].checksums| + 1
    ensures Size(ds[i := d]) == Size(ds) + 1
    decreases |ds|
  {
    var init := ds[..|ds| - 1];
    if i < |init| {
      SizeOfUpdate(init, i, d);
      assert ds[i := d][..|ds| - 1] == init[i := d];
    } else {
      assert ds[i := d][..|ds| - 1] == init;
    }
  }

  ghost predicate SameOrLarger(before: ReleaseRow, after: ReleaseRow)
  {
    after == before || Size(after.distributions) > Size(before.distributions)
  }

  lemma WriteEnlarges(db: Db, w: Write, u: string)
    requires u in db.releases
    ensures u in Apply(db, w).releases
    ensures SameOrLarger(db.releases[u], Apply(db, w).releases[u])
  {
    var row := db.releases[u];
    if w.AddDistribution? && w.uuid == u {
      assert (row.distributions + [w.distribution])[..|row.distributions|] == row.distributions;
    } else if w.SetDistributionFile? && w.uuid == u && w.index < |row.distributions| {
      var d := row.distributions[w.index];
      SizeOfUpdate(row.distributions, w.index, d.(url := w.url, checksums := d.checksums + [w.sha256]));
    }
  }

  lemma {:induction false} ReleaseEnlarges(h: seq<Db>, ws: seq<Write>, i: nat, j: nat, u: string)
    requires History(h, ws) && i <= j < |h| && u in h[i].releases
    ensures u in h[j].releases
    ensures SameOrLarger(h[i].releases[u], h[j].releases[u])
    decreases j
  {
    if i < j {
      ReleaseEnlarges(h, ws, i, j - 1, u);
      assert Follows(h, ws, j - 1);
      WriteEnlarges(h[j - 1], ws[j - 1], u);
    }
  }

  /** The body kept on a 304 is still current at the request's last read exactly when the tag, read
      there in one go, would be the same. */
  lemma CurrentAtTheLastReadIff(h: seq<Db>, ws: seq<Write>, e0: nat, e1: nat, e2: nat, lo: nat, hi: nat,
                                f0: nat, f1: nat, f2: nat, uuid: string, p: Principal, p': Principal,
                                tag: string, tag': string, body: Body)
    requires History(h, ws) && e2 <= lo && hi <= f0 && Token(uuid)
    requires TokenPrincipal(p) && TokenPrincipal(p')
    requires ReleaseTag(h, e0, e1, e2, uuid, p, tag) && BodyReadIn(h, lo, hi, uuid, body)
    requires ReleaseTag(h, f0, f1, f2, uuid, p', tag')
    requires Matches([tag], tag')
    ensures Current(h[f2], uuid, body) <==> ReleaseTag(h, f2, f2, f2, uuid, p', tag')
  {
    if ReleaseTag(h, f2, f2, f2, uuid, p', tag') {
      NotModifiedIsSound(h, ws, e0, e1, e2, lo, hi, f2, f2, f2, uuid, p, p', tag, tag', body);
    }
    if Current(h[f2], uuid, body) {
      NotModifiedIsSound(h, ws, e0, e1, e2, lo, hi, f0, f1, f2, uuid, p, p', tag, tag', body);
      ReleaseEnlarges(h, ws, f0, f2, uuid);
      var v': int, rs' :| ReleaseTagIs(h, f0, f1, f2, uuid, p', tag', v', rs');
      SameVersion(h, ws, f0, f1, f2, uuid, body.collection.key.version, v');
      assert ReleaseTagIs(h, f2, f2, f2, uuid, p', tag', v', rs');
    }
  }

  /** A version that is the latest before and after another instant is the latest there. */
  lemma SameVersion(h: seq<Db>, ws: seq<Write>, i: nat, m: nat, j: nat, uuid: string, v: int, v': int)
    requires History(h, ws) && i <= m <= j < |h|
    requires IsLatest(h[i], uuid, COMPONENT_RELEASE, v) && IsLatest(h[j], uuid, COMPONENT_RELEASE, v)
    requires IsLatest(h[m], uuid, COMPONENT_RELEASE, v')
    ensures v == v'
  {
    LatestBetween(h, ws, i, m, j, uuid, COMPONENT_RELEASE, v);
  }
}
