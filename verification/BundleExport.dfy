/** Exporting a product: the manifest, the files, and what checking and importing them then gives. */
module BundleExport {
  import opened Basics
  import opened Schema
  import opened BundleImport
  import opened BundleOrder
  import opened BundleManifest
  import opened BundleStore
  import opened BundleFiles

  /** What the store holds about one product: its releases, and everything they may refer to. */
  datatype Source = Source(
    product: NamedEntry, releases: seq<ProductReleaseEntry>,
    components: map<string, NamedEntry>, componentReleases: map<string, ComponentReleaseEntry>,
    productCollections: map<string, seq<CollectionEntry>>, componentCollections: map<string, seq<CollectionEntry>>)

  function CollectionsOf(m: map<string, seq<CollectionEntry>>, uuid: string): seq<CollectionEntry>
  {
    if uuid in m then m[uuid] else []
  }

  /** Lookups by uuid give the entity of that uuid. */
  ghost predicate Keyed(src: Source)
  {
    && (forall u :: u in src.components ==> src.components[u].uuid == u)
    && (forall u :: u in src.componentReleases ==> src.componentReleases[u].uuid == u)
  }

  ghost predicate Resolvable(src: Source, l: ComponentLink)
  {
    l.component in src.components && (l.pinned.Some? ==> l.pinned.value in src.componentReleases)
  }

  ghost predicate AllResolvable(src: Source)
  {
    forall p, l :: p in src.releases && l in p.components ==> Resolvable(src, l)
  }

  /** The digests of what a link pins. */
  ghost function LinkHashes(src: Source, l: ComponentLink): set<string>
  {
    if l.pinned.Some? && l.pinned.value in src.componentReleases then
      DistributionHashes(src.componentReleases[l.pinned.value].distributions)
      + CollectionHashes(CollectionsOf(src.componentCollections, l.pinned.value))
    else {}
  }

  /** Every digest reachable from the product's releases. */
  ghost function Reachable(src: Source, ps: seq<ProductReleaseEntry>): set<string>
  {
    (set p, h | p in ps && h in CollectionHashes(CollectionsOf(src.productCollections, p.uuid)) :: h)
    + (set p, l, h | p in ps && l in p.components && h in LinkHashes(src, l) :: h)
  }

  // ---------------------------------------------------------------- what a manifest has to hold

  ghost predicate LinkedIn(src: Source, c: NamedEntry)
  {
    exists p, l :: p in src.releases && l in p.components
      && l.component in src.components && c == src.components[l.component]
  }

  ghost predicate PinnedIn(src: Source, r: ComponentReleaseEntry)
  {
    exists p, l :: p in src.releases && l in p.components
      && l.pinned.Some? && l.pinned.value in src.componentReleases && r == src.componentReleases[l.pinned.value]
  }

  /** Listed under a release of the product, or under a component release that one of them pins. */
  ghost predicate ListedIn(src: Source, e: CollectionEntry)
  {
    || (exists p :: p in src.releases && e in CollectionsOf(src.productCollections, p.uuid))
    || (exists p, l :: p in src.releases && l in p.components
          && l.pinned.Some? && e in CollectionsOf(src.componentCollections, l.pinned.value))
  }

  /** The manifest is the product with its whole history: all of it, nothing else, and no component twice. */
  ghost predicate Complete(src: Source, m: Manifest)
  {
    && m.product == src.product
    && m.productReleases == src.releases
    && (forall c :: c in m.components <==> LinkedIn(src, c))
    && (forall i, j :: 0 <= i < j < |m.components| ==> m.components[i].uuid != m.components[j].uuid)
    && (forall r :: r in m.componentReleases <==> PinnedIn(src, r))
    && (forall e :: e in m.collections <==> ListedIn(src, e))
  }

  // ---------------------------------------------------------------- building the manifest

  /** The manifest so far with what is kept beside it: components already entered, and digests. */
  datatype Building = Building(m: Manifest, seen: set<string>, hashes: set<string>)

  /** The manifest holds its product releases' collections, the components seen, and the pinned
      component releases with their collections. */
  ghost predicate Holds(src: Source, b: Building, pins: set<string>)
  {
    && b.m.product == src.product
    && HoldsComponents(src, b.m.components, b.seen)
    && pins <= src.componentReleases.Keys
    && (forall r :: r in b.m.componentReleases <==> r.uuid in pins && r == src.componentReleases[r.uuid])
    && (forall e :: e in b.m.collections <==>
          || (exists p :: p in b.m.productReleases && e in CollectionsOf(src.productCollections, p.uuid))
          || (exists u :: u in pins && e in CollectionsOf(src.componentCollections, u)))
    && b.hashes == Expected(b.m)
  }

  ghost predicate HoldsComponents(src: Source, cs: seq<NamedEntry>, seen: set<string>)
  {
    && seen <= src.components.Keys
    && (forall c :: c in cs <==> c.uuid in seen && c == src.components[c.uuid])
    && (forall i, j :: 0 <= i < j < |cs| ==> cs[i].uuid != cs[j].uuid)
  }

  /** The component of a link, entered the first time it is met. */
  method ExportComponent(src: Source, b: Building, uuid: string, ghost pins: set<string>) returns (r: Option<Building>)
    requires Keyed(src) && Holds(src, b, pins)
    ensures r.Some? <==> uuid in src.components
    ensures r.None? ||
            (&& Holds(src, r.value, pins)
             && r.value.seen == b.seen + {uuid}
             && r.value.m.productReleases == b.m.productReleases)
  {
    if uuid in b.seen {
      return Some(b);
    }
    if uuid !in src.components {
      return None;
    }
    var c := src.components[uuid];
    r := Some(b.(m := b.m.(components := b.m.components + [c]), seen := b.seen + {uuid}));
  }

  /** A pinned component release with its files and its collections, every time it is pinned. */
  method ExportPinned(src: Source, b: Building, uuid: string, ghost pins: set<string>) returns (r: Option<Building>)
    requires Keyed(src) && Holds(src, b, pins)
    ensures r.Some? <==> uuid in src.componentReleases
    ensures r.None? ||
            (&& Holds(src, r.value, pins + {uuid})
             && r.value.seen == b.seen
             && r.value.m.productReleases == b.m.productReleases)
  {
    if uuid !in src.componentReleases {
      return None;
    }
    var cr, es := src.componentReleases[uuid], CollectionsOf(src.componentCollections, uuid);
    var hashes := CollectDistributionFileHashes(b.hashes, cr.distributions);
    hashes := CollectFileHashes(hashes, es);
    r := Some(Building(WithPinned(b.m, cr, es), b.seen, hashes));
    PinnedHeld(src, b, uuid, pins, r.value);
  }

  function WithPinned(m: Manifest, cr: ComponentReleaseEntry, es: seq<CollectionEntry>): Manifest
  {
    m.(componentReleases := m.componentReleases + [cr], collections := m.collections + es)
  }

  lemma PinnedHeld(src: Source, b: Building, uuid: string, pins: set<string>, b': Building)
    requires Keyed(src) && Holds(src, b, pins) && uuid in src.componentReleases
    requires var cr, es := src.componentReleases[uuid], CollectionsOf(src.componentCollections, uuid);
      && b'.m == WithPinned(b.m, cr, es) && b'.seen == b.seen
      && b'.hashes == b.hashes + DistributionHashes(cr.distributions) + CollectionHashes(es)
    ensures Holds(src, b', pins + {uuid})
  {
    assert forall u :: u in pins + {uuid} <==> u in pins || u == uuid;
  }

  ghost function Names(ls: seq<ComponentLink>): set<string>
  {
    set l | l in ls :: l.component
  }

  ghost function Pins(ls: seq<ComponentLink>): set<string>
  {
    set l | l in ls && l.pinned.Some? :: l.pinned.value
  }

  method ExportLinks(src: Source, b: Building, ls: seq<ComponentLink>, ghost pins: set<string>)
    returns (r: Option<Building>)
    requires Keyed(src) && Holds(src, b, pins)
    ensures r.Some? <==> forall l :: l in ls ==> Resolvable(src, l)
    ensures r.None? ||
            (&& Holds(src, r.value, pins + Pins(ls))
             && r.value.seen == b.seen + Names(ls)
             && r.value.m.productReleases == b.m.productReleases)
  {
    r := Some(b);
    ghost var done: seq<ComponentLink> := [];
    assert pins + Pins(done) == pins;
    for i := 0 to |ls|
      invariant r.Some? && Holds(src, r.value, pins + Pins(done))
      invariant r.value.seen == b.seen + Names(done) && r.value.m.productReleases == b.m.productReleases
      invariant done == ls[..i] && forall l :: l in done ==> Resolvable(src, l)
    {
      assert ls[i] in ls;
      r := ExportLink(src, r.value, ls[i], pins + Pins(done));
      if r.None? {
        return;
      }
      NextPrefix(ls, i);
      LinksNext(done, ls[i], pins);
      done := done + [ls[i]];
    }
    WholePrefix(ls);
  }

  lemma LinksNext(ls: seq<ComponentLink>, l: ComponentLink, pins: set<string>)
    ensures Names(ls + [l]) == Names(ls) + {l.component}
    ensures pins + Pins(ls + [l]) == pins + Pins(ls) + Pins([l])
  {
    assert forall x :: x in ls + [l] <==> x in ls || x == l;
  }

  /** One link: its component, and what it pins. */
  method ExportLink(src: Source, b: Building, l: ComponentLink, ghost pins: set<string>) returns (r: Option<Building>)
    requires Keyed(src) && Holds(src, b, pins)
    ensures r.Some? <==> Resolvable(src, l)
    ensures r.None? ||
            (&& Holds(src, r.value, pins + Pins([l]))
             && r.value.seen == b.seen + {l.component}
             && r.value.m.productReleases == b.m.productReleases)
  {
    r := ExportComponent(src, b, l.component, pins);
    if l.pinned.None? {
      assert pins + Pins([l]) == pins;
    } else if r.Some? {
      assert Pins([l]) == {l.pinned.value};
      r := ExportPinned(src, r.value, l.pinned.value, pins);
    }
  }

  /** One product release with its own collections, and then its links. */
  method ExportRelease(src: Source, b: Building, p: ProductReleaseEntry, ghost pins: set<string>)
    returns (r: Option<Building>)
    requires Keyed(src) && Holds(src, b, pins)
    ensures r.Some? <==> forall l :: l in p.components ==> Resolvable(src, l)
    ensures r.None? ||
            (&& Holds(src, r.value, pins + Pins(p.components))
             && r.value.seen == b.seen + Names(p.components)
             && r.value.m.productReleases == b.m.productReleases + [p])
  {
    var es := CollectionsOf(src.productCollections, p.uuid);
    var hashes := CollectFileHashes(b.hashes, es);
    var m := b.m.(productReleases := b.m.productReleases + [p], collections := b.m.collections + es);
    r := ExportLinks(src, Building(m, b.seen, hashes), p.components, pins);
  }

  ghost function AllNames(ps: seq<ProductReleaseEntry>): set<string>
  {
    set p, l | p in ps && l in p.components :: l.component
  }

  ghost function AllPins(ps: seq<ProductReleaseEntry>): set<string>
  {
    set p, l | p in ps && l in p.components && l.pinned.Some? :: l.pinned.value
  }

  lemma ReleasesNext(ps: seq<ProductReleaseEntry>, p: ProductReleaseEntry)
    ensures AllNames(ps + [p]) == AllNames(ps) + Names(p.components)
    ensures AllPins(ps + [p]) == AllPins(ps) + Pins(p.components)
  {
    assert forall x :: x in ps + [p] <==> x in ps || x == p;
  }

  /** A successful export is the product's whole history. It has no dangling links, and its files are exactly
      the digests its manifest refers to, which are those reachable from the product, however often a
      release is pinned. */
  method BuildManifest(src: Source) returns (r: Option<(Manifest, set<string>)>)
    requires Keyed(src)
    ensures r.Some? <==> AllResolvable(src)
    ensures r.None? ||
            (&& Complete(src, r.value.0)
             && NoDangling(r.value.0)
             && r.value.1 == Expected(r.value.0) == Reachable(src, src.releases))
  {
    var b := Building(Manifest(src.product, [], [], [], []), {}, {});
    for i := 0 to |src.releases|
      invariant b.m.productReleases == src.releases[..i]
      invariant Holds(src, b, AllPins(b.m.productReleases)) && b.seen == AllNames(b.m.productReleases)
      invariant forall p, l :: p in b.m.productReleases && l in p.components ==> Resolvable(src, l)
    {
      assert src.releases[i] in src.releases;
      ReleasesNext(b.m.productReleases, src.releases[i]);
      var next := ExportRelease(src, b, src.releases[i], AllPins(b.m.productReleases));
      if next.None? {
        return None;
      }
      NextPrefix(src.releases, i);
      b := next.value;
    }
    WholePrefix(src.releases);
    HeldIsComplete(src, b);
    CompleteIsWhole(src, b.m);
    return Some((b.m, b.hashes));
  }

  lemma HeldIsComplete(src: Source, b: Building)
    requires Keyed(src) && b.m.productReleases == src.releases
    requires Holds(src, b, AllPins(src.releases)) && b.seen == AllNames(src.releases)
    ensures Complete(src, b.m)
  {
    forall c
      ensures c in b.m.components <==> LinkedIn(src, c)
    {
    }
    forall r
      ensures r in b.m.componentReleases <==> PinnedIn(src, r)
    {
    }
    forall e
      ensures e in b.m.collections <==> ListedIn(src, e)
    {
    }
  }

  /** What is complete has whole links, and refers to what is reachable. */
  lemma CompleteIsWhole(src: Source, m: Manifest)
    requires Keyed(src) && AllResolvable(src) && Complete(src, m)
    ensures NoDangling(m)
    ensures Expected(m) == Reachable(src, src.releases)
  {
    CompleteHashes(src, m);
    forall p, l | p in src.releases && l in p.components
      ensures !Dangles(m, l)
    {
      assert Resolvable(src, l);
      assert LinkedIn(src, src.components[l.component]);
      if l.pinned.Some? {
        assert PinnedIn(src, src.componentReleases[l.pinned.value]);
      }
    }
  }

  lemma CompleteHashes(src: Source, m: Manifest)
    requires AllResolvable(src) && Complete(src, m)
    ensures Expected(m) == Reachable(src, src.releases)
  {
    forall h | h in Expected(m)
      ensures h in Reachable(src, src.releases)
    {
      ExpectedReachable(src, m, h);
    }
    forall p, l, h | p in src.releases && l in p.components && h in LinkHashes(src, l)
      ensures h in Expected(m)
    {
    }
    forall p, h | p in src.releases && h in CollectionHashes(CollectionsOf(src.productCollections, p.uuid))
      ensures h in Expected(m)
    {
      var e :| e in CollectionsOf(src.productCollections, p.uuid) && h in EntryHashes(e);
      assert ListedIn(src, e);
    }
  }

  lemma ExpectedReachable(src: Source, m: Manifest, h: string)
    requires AllResolvable(src) && Complete(src, m) && h in Expected(m)
    ensures h in Reachable(src, src.releases)
  {
    if e :| e in m.collections && h in EntryHashes(e) {
      ListedHash(src, e, h);
    } else {
      var r :| r in m.componentReleases && h in DistributionHashes(r.distributions);
      assert PinnedIn(src, r);
      var p, l :| p in src.releases && l in p.components
        && l.pinned.Some? && l.pinned.value in src.componentReleases && r == src.componentReleases[l.pinned.value];
      assert h in LinkHashes(src, l);
    }
  }

  lemma ListedHash(src: Source, e: CollectionEntry, h: string)
    requires AllResolvable(src) && ListedIn(src, e) && h in EntryHashes(e)
    ensures h in Reachable(src, src.releases)
  {
    if p :| p in src.releases && e in CollectionsOf(src.productCollections, p.uuid) {
      assert h in CollectionHashes(CollectionsOf(src.productCollections, p.uuid));
    } else {
      var p, l :| p in src.releases && l in p.components
        && l.pinned.Some? && e in CollectionsOf(src.componentCollections, l.pinned.value);
      assert Resolvable(src, l);
      assert h in LinkHashes(src, l);
    }
  }

  // ---------------------------------------------------------------- writing the files

  /** One entry for each digest, with the content the blob store holds under it. */
  ghost predicate Written(entries: seq<Entry>, hashes: set<string>, blobs: map<string, string>)
  {
    && (forall e :: e in entries ==>
          PREFIX <= e.name && Claimed(e) in hashes && Claimed(e) in blobs && e.data == blobs[Claimed(e)])
    && (forall h :: h in hashes ==> h in blobs && Entry(PREFIX + h, blobs[h]) in entries)
  }

  /** Copies the blobs in any order, failing on the first that is missing. */
  method CopyBlobs(hashes: set<string>, blobs: map<string, string>) returns (r: Option<seq<Entry>>)
    ensures r.Some? <==> hashes <= blobs.Keys
    ensures r.None? || Written(r.value, hashes, blobs)
  {
    var todo, entries: seq<Entry> := hashes, [];
    while todo != {}
      invariant todo <= hashes && Written(entries, hashes - todo, blobs)
      decreases todo
    {
      var h :| h in todo;
      if h !in blobs {
        return None;
      }
      entries, todo := entries + [Entry(PREFIX + h, blobs[h])], todo - {h};
      assert hashes - todo == (hashes - (todo + {h})) + {h};
    }
    assert hashes - todo == hashes;
    return Some(entries);
  }

  /** Export succeeds exactly when every link resolves and every reachable blob is there. */
  method Export(src: Source, blobs: map<string, string>) returns (r: Option<(Manifest, seq<Entry>)>)
    requires Keyed(src)
    ensures r.Some? <==> AllResolvable(src) && Reachable(src, src.releases) <= blobs.Keys
    ensures r.None? ||
            (&& Complete(src, r.value.0)
             && NoDangling(r.value.0)
             && Expected(r.value.0) == Reachable(src, src.releases)
             && Written(r.value.1, Expected(r.value.0), blobs))
  {
    var built := BuildManifest(src);
    if built.None? {
      return None;
    }
    var entries := CopyBlobs(built.value.1, blobs);
    if entries.None? {
      return None;
    }
    return Some((built.value.0, entries.value));
  }

  // ---------------------------------------------------------------- checking and importing what was written

  /** The checker finds nothing missing and nothing orphaned in an export, and a mismatch exactly when
      the blob store holds something under a wrong name. */
  lemma ExportIsClean(entries: seq<Entry>, m: Manifest, blobs: map<string, string>, sha: string -> string, r: Report)
    requires Written(entries, Expected(m), blobs) && ReportOf(entries, m, sha, r)
    ensures r.missing == {} && r.orphans == {}
    ensures Clean(r) <==> forall h :: h in Expected(m) ==> sha(blobs[h]) == h
  {
    forall h | h in Expected(m)
      ensures h in PresentAll(entries) && (sha(blobs[h]) != h ==> PREFIX + h in Misnamed(entries, sha))
    {
      var e := Entry(PREFIX + h, blobs[h]);
      assert e in entries && Claimed(e) == h;
    }
    CleanIffMatching(entries, m, sha, r);
  }

  /** The importer's file stage accepts an export exactly when every blob is what its name says and none
      exceeds the size limit; the checker reads it through exactly when none does. */
  lemma ExportImports(entries: seq<Entry>, m: Manifest, blobs: map<string, string>, sha: string -> string, max: nat)
    requires Written(entries, Expected(m), blobs) && forall d :: sha(d) != ""
    ensures SizesOk(entries, max) <==> forall h :: h in Expected(m) ==> |blobs[h]| <= max
    ensures FilesImport(entries, m, sha, max) <==>
              forall h :: h in Expected(m) ==> |blobs[h]| <= max && sha(blobs[h]) == h
  {
    forall h | h in Expected(m)
      ensures Entry(PREFIX + h, blobs[h]) in entries
    {
    }
    if forall h :: h in Expected(m) ==> |blobs[h]| <= max && sha(blobs[h]) == h {
      forall h | h in Expected(m)
        ensures h in Served(entries)
      {
        var e := Entry(PREFIX + h, blobs[h]);
        assert ImportsAsFile(e) && Claimed(e) == h;
      }
    }
  }

  /** From the store to the checker and the importer: what export writes has no dangling link, no
      missing and no orphaned file; the checker reads it through iff no blob is too large, calls it
      clean iff every blob is what its name says, and the importer's file stage passes iff both. */
  method ExportCheckImport(src: Source, blobs: map<string, string>, sha: string -> string, max: nat)
    returns (out: Option<(Manifest, seq<Entry>)>, dangling: set<(string, ComponentLink)>, report: Option<Report>,
             ok: bool)
    requires Keyed(src) && forall d :: sha(d) != ""
    ensures out.Some? <==> AllResolvable(src) && Reachable(src, src.releases) <= blobs.Keys
    ensures out.None? ||
              var hs := Reachable(src, src.releases);
              && Complete(src, out.value.0)
              && dangling == {}
              && (report.Some? <==> forall h :: h in hs ==> |blobs[h]| <= max)
              && (report.Some? ==> report.value.missing == {} && report.value.orphans == {})
              && (report.Some? ==> (Clean(report.value) <==> forall h :: h in hs ==> sha(blobs[h]) == h))
              && (ok <==> forall h :: h in hs ==> |blobs[h]| <= max && sha(blobs[h]) == h)
  {
    dangling, report, ok := {}, None, false;
    out := Export(src, blobs);
    if out.None? {
      return;
    }
    var m, entries := out.value.0, out.value.1;
    dangling := CheckDanglingReferences(m);
    report := CheckFileHashes(entries, m, sha, max);
    ok := ImportFileStage(entries, m, sha, max);
    ExportImports(entries, m, blobs, sha, max);
    if report.Some? {
      ExportIsClean(entries, m, blobs, sha, report.value);
    }
  }

  // ---------------------------------------------------------------- importing an export back

  /** The items are rows of the store, up to what conflict checks ignore. */
  ghost predicate Held(db: Db, items: seq<Item>)
  {
    forall i :: i in items ==> i.key in db && MeaningOf(db[i.key]) == MeaningOf(i.content)
  }

  /** The source was read from the store. */
  ghost predicate ReadFrom(src: Source, db: Db)
  {
    && Held(db, [Item(ProductKey(src.product.uuid), src.product.content)])
    && Held(db, LifecycleItems("PRODUCT", src.product.uuid, src.product.cle))
    && (forall p :: p in src.releases ==> Held(db, ProductReleaseItems(p)) && Held(db, LinkItems(p)))
    && (forall c :: c in src.components.Values ==> Held(db, ComponentItems(c)))
    && (forall r :: r in src.componentReleases.Values ==> Held(db, ComponentReleaseItems(r)))
    && (forall u, e :: e in CollectionsOf(src.productCollections, u) ==> Held(db, CollectionItems(e)))
    && (forall u, e :: e in CollectionsOf(src.componentCollections, u) ==> Held(db, CollectionItems(e)))
  }

  lemma ExportedIsHeld(db: Db, src: Source, blobs: seq<(string, Content)>, m: Manifest, i: Item)
    requires ReadFrom(src, db) && Complete(src, m) && Held(db, BlobItems(blobs)) && i in Flatten(blobs, m)
    ensures i.key in db && MeaningOf(db[i.key]) == MeaningOf(i.content)
  {
    SectionsAre(blobs, m, i);
    LifecycleItemsAre("PRODUCT", m.product.uuid, m.product.cle, i);
  }

  /** A store that imports its own export is left as it is, and nothing is created. */
  lemma ExportImportsBackUnchanged(db: Db, src: Source, blobs: seq<(string, Content)>, m: Manifest)
    requires ReadFrom(src, db) && Complete(src, m) && Held(db, BlobItems(blobs))
    ensures NoOp(db, ImportAll(db, Flatten(blobs, m)))
  {
    forall i | i in Flatten(blobs, m)
      ensures i.key in db && MeaningOf(db[i.key]) == MeaningOf(i.content)
    {
      ExportedIsHeld(db, src, blobs, m, i);
    }
    MatchingItemsChangeNothing(db, Flatten(blobs, m));
  }
}
