/** Importing what was read from one store into an empty one. */
module BundleRestore {
  import opened Basics
  import opened Schema
  import opened BundleImport
  import opened BundleOrder
  import opened BundleManifest
  import opened BundleStore
  import opened BundleExport

  // ---------------------------------------------------------------- the order of the items

  ghost predicate Has(have: set<Key>, items: seq<Item>, n: nat, k: Key)
    requires n <= |items|
  {
    k in have || k in KeysOf(items[..n])
  }

  ghost predicate Supplied(have: set<Key>, items: seq<Item>, n: nat)
    requires n < |items|
  {
    || Has(have, items, n, items[n].key)
    || forall k :: k in Needs(items[n].key, items[n].content) ==> Has(have, items, n, k)
  }

  /** Whatever an item needs is there or comes before it. */
  ghost predicate Orderly(have: set<Key>, items: seq<Item>)
  {
    forall n :: 0 <= n < |items| ==> Supplied(have, items, n)
  }

  /** Items read from a store: they mean what its rows mean, and meet the constraints on the item alone. */
  ghost predicate ReadIn(db: Db, items: seq<Item>)
  {
    Held(db, items) && forall i :: i in items ==> WellFormed(i.key, i.content)
  }

  /** What was read from a store imports into an empty one exactly when everything an item needs comes
      before it, and then every row means what it means in the store it came from. */
  lemma IntoEmptyStore(db: Db, items: seq<Item>)
    requires Sound(db) && ReadIn(db, items)
    ensures ImportAll(map[], items).Ok? <==> Orderly({}, items)
    ensures ImportAll(map[], items).Ok? ==>
              var db' := ImportAll(map[], items).value.db;
              db'.Keys == KeysOf(items) && forall k :: k in db' ==> k in db && MeaningOf(db'[k]) == MeaningOf(db[k])
  {
    if ImportAll(map[], items).Ok? {
      ImportedIsOrderly(items);
    }
    if Orderly({}, items) {
      forall n | 0 <= n < |items|
        ensures Replayable(items, n, map[], db)
      {
        ReadIsReplayable(db, items, n);
      }
      Replay(items, map[], db, |items|);
      WholePrefix(items);
    }
  }

  lemma ImportedIsOrderly(items: seq<Item>)
    requires ImportAll(map[], items).Ok?
    ensures Orderly({}, items)
  {
    forall n | 0 <= n < |items|
      ensures Supplied({}, items, n)
    {
      AdmittedAt(map[], items, n);
      PrefixKeys(map[], items, n);
    }
  }

  lemma ReadIsReplayable(db: Db, items: seq<Item>, n: nat)
    requires Sound(db) && ReadIn(db, items) && n < |items| && Supplied({}, items, n)
    ensures Replayable(items, n, map[], db)
  {
    var item, empty: Db := items[n], map[];
    assert item in items;
    SameMeaningSameDates(db[item.key], item.content);
    StoredMeaning(item.content);
    assert empty.Keys + KeysOf(items[..n]) == KeysOf(items[..n]);
    forall k | k in KeysOf(items[..n])
      ensures k in db
    {
      var i :| i in items[..n] && i.key == k;
      assert i in items;
    }
    assert Excludes(item.key) * KeysOf(items[..n]) <= Excludes(item.key) * db.Keys;
  }

  // ---------------------------------------------------------------- what a manifest must carry

  ghost predicate TypedLifecycle(cle: Option<Lifecycle>)
  {
    cle.Some? ==>
      && (forall e :: e in cle.value.events ==> e.1.Event?)
      && (forall d :: d in cle.value.definitions ==> d.1.Support?)
  }

  ghost predicate TypedRelease(r: ComponentReleaseEntry)
  {
    && r.content.Release? && TypedLifecycle(r.cle)
    && forall d :: d in r.distributions ==> d.1.Distribution? && d.1.componentRelease == r.uuid
  }

  /** Every entry is of its kind; product releases are the product's, and distributions are those of the
      component release they are listed under. */
  ghost predicate Typed(blobs: seq<(string, Content)>, m: Manifest)
  {
    && (forall b :: b in blobs ==> b.1.Blob?)
    && m.product.content.Named? && TypedLifecycle(m.product.cle)
    && (forall p :: p in m.productReleases ==>
          p.content.Release? && p.content.parent == m.product.uuid && TypedLifecycle(p.cle))
    && (forall c :: c in m.components ==> c.content.Named? && TypedLifecycle(c.cle))
    && (forall r :: r in m.componentReleases ==> TypedRelease(r))
    && (forall e, a :: e in m.collections && a in e.artifacts ==> a.1.Artifact?)
  }

  /** The manifest carries whatever its entries refer to: the component of each component release, both
      ends and the pin of each link, and the distributions of each artifact. */
  ghost predicate Closed(m: Manifest)
  {
    && (forall r :: r in m.componentReleases && r.content.Release? ==> r.content.parent in ComponentUuids(m))
    && NoDangling(m)
    && (forall e, a, d :: e in m.collections && a in e.artifacts && a.1.Artifact? && d in a.1.distributions ==>
          d in DistributionIds(m))
  }

  ghost function DistributionIds(m: Manifest): set<string>
  {
    set r, d | r in m.componentReleases && d in r.distributions :: d.0
  }

  // ---------------------------------------------------------------- what imports is closed

  /** What an entity refers to depends on what it means only. */
  lemma SameRefers(db: Db, k: Key, row: Content, c: Content)
    requires MeaningOf(row) == MeaningOf(Stored(c)) && Refers(db, k, row)
    ensures Refers(db, k, c)
  {
    if c.Artifact? {
      assert forall d :: d in c.distributions ==> d in Elements(row.distributions);
    } else if c.Collection? {
      assert forall r :: r in c.refs ==> r in Elements(row.refs);
    }
  }

  lemma ArrivedRefers(blobs: seq<(string, Content)>, m: Manifest, db: Db, i: Item)
    requires Referential(db) && Arrived(map[], blobs, m, db) && Brings(blobs, m, i)
    ensures Refers(db, i.key, i.content)
  {
    assert RowMeans(db, i);
    SameRefers(db, i.key, db[i.key], i.content);
  }

  lemma Carried(blobs: seq<(string, Content)>, m: Manifest, k: Key)
    requires exists c :: Brings(blobs, m, Item(k, c))
    ensures match k
            case ComponentKey(u) => u in ComponentUuids(m)
            case ComponentReleaseKey(u) => u in ReleaseUuids(m)
            case DistributionKey(d) => d in DistributionIds(m)
            case _ => true
  {
    var c :| Brings(blobs, m, Item(k, c));
  }

  lemma LinkCarried(blobs: seq<(string, Content)>, m: Manifest, db: Db, p: ProductReleaseEntry, l: ComponentLink)
    requires Referential(db) && Arrived(map[], blobs, m, db) && p in m.productReleases && l in p.components
    ensures !Dangles(m, l)
  {
    ArrivedRefers(blobs, m, db, Item(LinkKey(p.uuid, l.component), Link(l.pinned)));
    Carried(blobs, m, ComponentKey(l.component));
    if l.pinned.Some? {
      Carried(blobs, m, ComponentReleaseKey(l.pinned.value));
    }
  }

  lemma ImportedIsClosed(blobs: seq<(string, Content)>, m: Manifest)
    requires ImportAll(map[], Flatten(blobs, m)).Ok?
    ensures Closed(m)
  {
    var db := ImportAll(map[], Flatten(blobs, m)).value.db;
    ImportKeepsReferences(map[], Flatten(blobs, m));
    BundleArrives(map[], blobs, m);
    forall r | r in m.componentReleases && r.content.Release?
      ensures r.content.parent in ComponentUuids(m)
    {
      ArrivedRefers(blobs, m, db, Item(ComponentReleaseKey(r.uuid), r.content));
      Carried(blobs, m, ComponentKey(r.content.parent));
    }
    forall p, l | p in m.productReleases && l in p.components
      ensures !Dangles(m, l)
    {
      LinkCarried(blobs, m, db, p, l);
    }
    forall e, a, d | e in m.collections && a in e.artifacts && a.1.Artifact? && d in a.1.distributions
      ensures d in DistributionIds(m)
    {
      ArrivedRefers(blobs, m, db, Item(ArtifactKey(a.0), a.1));
      Carried(blobs, m, DistributionKey(d));
    }
  }

  // ---------------------------------------------------------------- what is closed imports

  lemma OrderlyConcat(have: set<Key>, a: seq<Item>, b: seq<Item>)
    requires Orderly(have, a) && Orderly(have + KeysOf(a), b)
    ensures Orderly(have, a + b)
  {
    forall n | 0 <= n < |a + b|
      ensures Supplied(have, a + b, n)
    {
      if n < |a| {
        assert (a + b)[..n] == a[..n];
        assert Supplied(have, a, n);
      } else {
        assert (a + b)[..n] == a + b[..n - |a|];
        assert Supplied(have + KeysOf(a), b, n - |a|);
      }
    }
  }

  lemma OrderlyMore(have: set<Key>, more: set<Key>, items: seq<Item>)
    requires Orderly(have, items) && have <= more
    ensures Orderly(more, items)
  {
    forall n | 0 <= n < |items|
      ensures Supplied(more, items, n)
    {
      assert Supplied(have, items, n);
    }
  }

  lemma OrderlyPlain(have: set<Key>, items: seq<Item>)
    requires forall i :: i in items ==> Needs(i.key, i.content) <= have
    ensures Orderly(have, items)
  {
  }

  lemma {:induction false} OrderlyFlatMap<T>(have: set<Key>, f: T -> seq<Item>, xs: seq<T>)
    requires forall x :: x in xs ==> Orderly(have, f(x))
    ensures Orderly(have, FlatMap(f, xs))
    decreases |xs|
  {
    if xs != [] {
      var init, last := xs[..|xs| - 1], xs[|xs| - 1];
      assert last in xs;
      OrderlyFlatMap(have, f, init);
      OrderlyMore(have, have + KeysOf(FlatMap(f, init)), f(last));
      OrderlyConcat(have, FlatMap(f, init), f(last));
    }
  }

  lemma LifecycleNeedsNothing(ownerType: string, owner: string, cle: Option<Lifecycle>, i: Item)
    requires TypedLifecycle(cle) && InLifecycle(ownerType, owner, cle, i)
    ensures Needs(i.key, i.content) == {}
  {
  }

  lemma ProductReleaseIsOrderly(have: set<Key>, p: ProductReleaseEntry)
    requires p.content.Release? && ProductKey(p.content.parent) in have && TypedLifecycle(p.cle)
    ensures Orderly(have, ProductReleaseItems(p))
  {
    forall i | i in ProductReleaseItems(p)
      ensures Needs(i.key, i.content) <= have
    {
      LifecycleItemsAre("PRODUCT_RELEASE", p.uuid, p.cle, i);
      if InLifecycle("PRODUCT_RELEASE", p.uuid, p.cle, i) {
        LifecycleNeedsNothing("PRODUCT_RELEASE", p.uuid, p.cle, i);
      }
    }
    OrderlyPlain(have, ProductReleaseItems(p));
  }

  lemma ComponentIsOrderly(have: set<Key>, c: NamedEntry)
    requires c.content.Named? && TypedLifecycle(c.cle)
    ensures Orderly(have, ComponentItems(c))
  {
    forall i | i in ComponentItems(c)
      ensures Needs(i.key, i.content) == {}
    {
      LifecycleItemsAre("COMPONENT", c.uuid, c.cle, i);
      if InLifecycle("COMPONENT", c.uuid, c.cle, i) {
        LifecycleNeedsNothing("COMPONENT", c.uuid, c.cle, i);
      }
    }
    OrderlyPlain(have, ComponentItems(c));
  }

  /** A component release comes before its distributions. */
  lemma ReleaseIsOrderly(have: set<Key>, r: ComponentReleaseEntry)
    requires TypedRelease(r) && ComponentKey(r.content.parent) in have
    ensures Orderly(have, ComponentReleaseItems(r))
  {
    var items := ComponentReleaseItems(r);
    var first, rest := [items[0]], items[1..];
    assert items == first + rest;
    OrderlyPlain(have, first);
    forall i | i in rest
      ensures Needs(i.key, i.content) <= have + KeysOf(first)
    {
      ReleaseNeeds(have, r, i);
    }
    OrderlyPlain(have + KeysOf(first), rest);
    OrderlyConcat(have, first, rest);
  }

  lemma ReleaseNeeds(have: set<Key>, r: ComponentReleaseEntry, i: Item)
    requires TypedRelease(r) && ComponentKey(r.content.parent) in have && i in ComponentReleaseItems(r)
    ensures Needs(i.key, i.content) <= have + {ComponentReleaseKey(r.uuid)}
  {
    ComponentReleaseItemsAre(r, i);
    if InLifecycle("COMPONENT_RELEASE", r.uuid, r.cle, i) {
      LifecycleNeedsNothing("COMPONENT_RELEASE", r.uuid, r.cle, i);
    }
  }

  lemma LinksAreOrderly(have: set<Key>, p: ProductReleaseEntry)
    requires ProductReleaseKey(p.uuid) in have
    requires forall l :: l in p.components ==> ComponentKey(l.component) in have
    requires forall l :: l in p.components && l.pinned.Some? ==> ComponentReleaseKey(l.pinned.value) in have
    ensures Orderly(have, LinkItems(p))
  {
    forall i | i in LinkItems(p)
      ensures Needs(i.key, i.content) <= have
    {
      LinkItemsAre(p, i);
    }
    OrderlyPlain(have, LinkItems(p));
  }

  /** A collection comes after its artifacts. */
  lemma CollectionIsOrderly(have: set<Key>, e: CollectionEntry)
    requires forall a :: a in e.artifacts ==> a.1.Artifact?
    requires forall a, d :: a in e.artifacts && d in a.1.distributions ==> DistributionKey(d) in have
    ensures Orderly(have, CollectionItems(e))
  {
    var items, n := CollectionItems(e), |e.artifacts|;
    var first, last := items[..n], items[n];
    assert items == first + [last];
    forall i | i in first
      ensures Needs(i.key, i.content) <= have
    {
      var k :| 0 <= k < n && first[k] == i;
      assert e.artifacts[k] in e.artifacts;
    }
    OrderlyPlain(have, first);
    forall k | k in Needs(last.key, last.content)
      ensures k in have + KeysOf(first)
    {
      var j :| 0 <= j < n && k == ArtifactKey(e.artifacts[j].0);
      assert first[j] in first;
    }
    OrderlyPlain(have + KeysOf(first), [last]);
    OrderlyConcat(have, first, [last]);
  }

  // ---------------------------------------------------------------- the sections one after the other

  /** The keys that are there once section k is. */
  ghost function After(blobs: seq<(string, Content)>, m: Manifest, k: nat): set<Key>
  {
    KeysOf(Sections(blobs, m, k))
  }

  lemma {:induction false} InAfter(blobs: seq<(string, Content)>, m: Manifest, j: nat, k: nat, i: Item)
    requires j <= k && i in Section(blobs, m, j)
    ensures i.key in After(blobs, m, k)
  {
    if j < k {
      InAfter(blobs, m, j, k - 1, i);
    }
  }

  lemma ProductReleaseThere(blobs: seq<(string, Content)>, m: Manifest, p: ProductReleaseEntry)
    requires p in m.productReleases
    ensures ProductReleaseKey(p.uuid) in After(blobs, m, 3)
  {
    var i := ProductReleaseItems(p)[0];
    InFlatMap(ProductReleaseItems, m.productReleases, i);
    InAfter(blobs, m, 1, 3, i);
  }

  lemma ComponentThere(blobs: seq<(string, Content)>, m: Manifest, uuid: string)
    requires uuid in ComponentUuids(m)
    ensures forall k :: 2 <= k ==> ComponentKey(uuid) in After(blobs, m, k)
  {
    var c :| c in m.components && c.uuid == uuid;
    var i := ComponentItems(c)[0];
    InFlatMap(ComponentItems, m.components, i);
    forall k | 2 <= k { InAfter(blobs, m, 2, k, i); }
  }

  lemma ReleaseThere(blobs: seq<(string, Content)>, m: Manifest, uuid: string)
    requires uuid in ReleaseUuids(m)
    ensures ComponentReleaseKey(uuid) in After(blobs, m, 3)
  {
    var r :| r in m.componentReleases && r.uuid == uuid;
    var i := ComponentReleaseItems(r)[0];
    InFlatMap(ComponentReleaseItems, m.componentReleases, i);
    InAfter(blobs, m, 3, 3, i);
  }

  lemma DistributionThere(blobs: seq<(string, Content)>, m: Manifest, id: string)
    requires id in DistributionIds(m)
    ensures DistributionKey(id) in After(blobs, m, 4)
  {
    var r, d :| r in m.componentReleases && d in r.distributions && d.0 == id;
    var i := Item(DistributionKey(id), d.1);
    ComponentReleaseItemsAre(r, i);
    InFlatMap(ComponentReleaseItems, m.componentReleases, i);
    InAfter(blobs, m, 3, 4, i);
  }

  lemma LinkSectionIsOrderly(blobs: seq<(string, Content)>, m: Manifest)
    requires NoDangling(m)
    ensures Orderly(After(blobs, m, 3), FlatMap(LinkItems, m.productReleases))
  {
    forall p | p in m.productReleases
      ensures Orderly(After(blobs, m, 3), LinkItems(p))
    {
      ProductReleaseThere(blobs, m, p);
      forall l | l in p.components
        ensures ComponentKey(l.component) in After(blobs, m, 3)
        ensures l.pinned.Some? ==> ComponentReleaseKey(l.pinned.value) in After(blobs, m, 3)
      {
        assert !Dangles(m, l);
        ComponentThere(blobs, m, l.component);
        if l.pinned.Some? {
          ReleaseThere(blobs, m, l.pinned.value);
        }
      }
      LinksAreOrderly(After(blobs, m, 3), p);
    }
    OrderlyFlatMap(After(blobs, m, 3), LinkItems, m.productReleases);
  }

  lemma CollectionSectionIsOrderly(blobs: seq<(string, Content)>, m: Manifest)
    requires Typed(blobs, m) && Closed(m)
    ensures Orderly(After(blobs, m, 4), FlatMap(CollectionItems, m.collections))
  {
    forall e | e in m.collections
      ensures Orderly(After(blobs, m, 4), CollectionItems(e))
    {
      forall a, d | a in e.artifacts && a.1.Artifact? && d in a.1.distributions
        ensures DistributionKey(d) in After(blobs, m, 4)
      {
        DistributionThere(blobs, m, d);
      }
      CollectionIsOrderly(After(blobs, m, 4), e);
    }
    OrderlyFlatMap(After(blobs, m, 4), CollectionItems, m.collections);
  }

  lemma ProductSectionIsOrderly(blobs: seq<(string, Content)>, m: Manifest)
    requires Typed(blobs, m)
    ensures Orderly(After(blobs, m, 0), FlatMap(ProductReleaseItems, m.productReleases))
  {
    var have, product := After(blobs, m, 0), Item(ProductKey(m.product.uuid), m.product.content);
    InHead(blobs, m, product);
    InAfter(blobs, m, 0, 0, product);
    forall p | p in m.productReleases
      ensures Orderly(have, ProductReleaseItems(p))
    {
      ProductReleaseIsOrderly(have, p);
    }
    OrderlyFlatMap(have, ProductReleaseItems, m.productReleases);
  }

  lemma ReleaseSectionIsOrderly(blobs: seq<(string, Content)>, m: Manifest)
    requires Typed(blobs, m) && Closed(m)
    ensures Orderly(After(blobs, m, 2), FlatMap(ComponentReleaseItems, m.componentReleases))
  {
    var have := After(blobs, m, 2);
    forall r | r in m.componentReleases
      ensures Orderly(have, ComponentReleaseItems(r))
    {
      ComponentThere(blobs, m, r.content.parent);
      ReleaseIsOrderly(have, r);
    }
    OrderlyFlatMap(have, ComponentReleaseItems, m.componentReleases);
  }

  lemma ComponentSectionIsOrderly(blobs: seq<(string, Content)>, m: Manifest, have: set<Key>)
    requires Typed(blobs, m)
    ensures Orderly(have, FlatMap(ComponentItems, m.components))
  {
    forall c | c in m.components
      ensures Orderly(have, ComponentItems(c))
    {
      ComponentIsOrderly(have, c);
    }
    OrderlyFlatMap(have, ComponentItems, m.components);
  }

  lemma HeadIsOrderly(blobs: seq<(string, Content)>, m: Manifest)
    requires Typed(blobs, m)
    ensures Orderly({}, Sections(blobs, m, 0))
  {
    forall i | i in Section(blobs, m, 0)
      ensures Needs(i.key, i.content) == {}
    {
      InHead(blobs, m, i);
      BlobItemsAre(blobs, i);
      if InLifecycle("PRODUCT", m.product.uuid, m.product.cle, i) {
        LifecycleNeedsNothing("PRODUCT", m.product.uuid, m.product.cle, i);
      }
    }
    OrderlyPlain({}, Section(blobs, m, 0));
  }

  lemma NextSection(blobs: seq<(string, Content)>, m: Manifest, k: nat)
    requires Orderly({}, Sections(blobs, m, k)) && Orderly(After(blobs, m, k), Section(blobs, m, k + 1))
    ensures Orderly({}, Sections(blobs, m, k + 1))
  {
    assert {} + After(blobs, m, k) == After(blobs, m, k);
    OrderlyConcat({}, Sections(blobs, m, k), Section(blobs, m, k + 1));
  }

  lemma ClosedIsOrderly(blobs: seq<(string, Content)>, m: Manifest)
    requires Typed(blobs, m) && Closed(m)
    ensures Orderly({}, Flatten(blobs, m))
  {
    HeadIsOrderly(blobs, m);
    ProductSectionIsOrderly(blobs, m);
    NextSection(blobs, m, 0);
    ComponentSectionIsOrderly(blobs, m, After(blobs, m, 1));
    NextSection(blobs, m, 1);
    ReleaseSectionIsOrderly(blobs, m);
    NextSection(blobs, m, 2);
    LinkSectionIsOrderly(blobs, m);
    NextSection(blobs, m, 3);
    CollectionSectionIsOrderly(blobs, m);
    NextSection(blobs, m, 4);
  }

  // ---------------------------------------------------------------- exactly when a bundle restores

  /** Everything the bundle brings was read from the store. */
  ghost predicate BroughtFrom(db: Db, blobs: seq<(string, Content)>, m: Manifest)
  {
    forall i :: Brings(blobs, m, i) ==>
      i.key in db && MeaningOf(db[i.key]) == MeaningOf(i.content) && WellFormed(i.key, i.content)
  }

  /** A bundle read from a store imports into an empty one exactly when its manifest is closed. Then
      everything it brings has arrived, and means what it means in the store it came from. */
  lemma RestoresIffClosed(db: Db, blobs: seq<(string, Content)>, m: Manifest)
    requires Sound(db) && BroughtFrom(db, blobs, m) && Typed(blobs, m)
    ensures ImportAll(map[], Flatten(blobs, m)).Ok? <==> Closed(m)
    ensures Closed(m) ==>
              var db' := ImportAll(map[], Flatten(blobs, m)).value.db;
              && Arrived(map[], blobs, m, db')
              && forall k :: k in db' ==> k in db && MeaningOf(db'[k]) == MeaningOf(db[k])
  {
    var items := Flatten(blobs, m);
    forall i | i in items
      ensures Brings(blobs, m, i)
    {
      FlattenBrings(blobs, m, i);
    }
    IntoEmptyStore(db, items);
    if ImportAll(map[], items).Ok? {
      ImportedIsClosed(blobs, m);
      BundleArrives(map[], blobs, m);
    }
    if Closed(m) {
      ClosedIsOrderly(blobs, m);
    }
  }

  /** Every pinned component release is one of a linked component, and every distribution a listed
      artifact names is one of a pinned release. */
  ghost predicate Homed(src: Source)
  {
    && (forall r :: PinnedIn(src, r) && r.content.Release? ==>
          exists c :: LinkedIn(src, c) && c.uuid == r.content.parent)
    && (forall e, a, id :: ListedIn(src, e) && a in e.artifacts && a.1.Artifact? && id in a.1.distributions ==>
          exists r, d :: PinnedIn(src, r) && d in r.distributions && d.0 == id)
  }

  lemma ClosedIffHomed(src: Source, m: Manifest)
    requires Complete(src, m) && NoDangling(m)
    ensures Closed(m) <==> Homed(src)
  {
    if Homed(src) {
      forall r | r in m.componentReleases && r.content.Release?
        ensures r.content.parent in ComponentUuids(m)
      {
        assert PinnedIn(src, r);
      }
      forall e, a, id | e in m.collections && a in e.artifacts && a.1.Artifact? && id in a.1.distributions
        ensures id in DistributionIds(m)
      {
        assert ListedIn(src, e);
      }
    }
    if Closed(m) {
      ClosedIsHomed(src, m);
    }
  }

  lemma ClosedIsHomed(src: Source, m: Manifest)
    requires Complete(src, m) && Closed(m)
    ensures Homed(src)
  {
    forall r | PinnedIn(src, r) && r.content.Release?
      ensures exists c :: LinkedIn(src, c) && c.uuid == r.content.parent
    {
      var c :| c in m.components && c.uuid == r.content.parent;
      assert LinkedIn(src, c);
    }
    forall e, a, id | ListedIn(src, e) && a in e.artifacts && a.1.Artifact? && id in a.1.distributions
      ensures exists r, d :: PinnedIn(src, r) && d in r.distributions && d.0 == id
    {
      assert id in DistributionIds(m);
    }
  }

  /** So an export restores exactly when nothing pinned or listed points outside the product. */
  lemma ExportRestoresIff(db: Db, src: Source, blobs: seq<(string, Content)>, m: Manifest)
    requires Keyed(src) && AllResolvable(src) && Complete(src, m)
    requires Sound(db) && BroughtFrom(db, blobs, m) && Typed(blobs, m)
    ensures ImportAll(map[], Flatten(blobs, m)).Ok? <==> Homed(src)
  {
    RestoresIffClosed(db, blobs, m);
    CompleteIsWhole(src, m);
    ClosedIffHomed(src, m);
  }

  // ---------------------------------------------------------------- a manifest that is not closed

  function PlainRelease(parent: string): Content
  {
    Release(parent, "", "1", 0, None, false, [])
  }

  /** A release r of product p that links component c but pins release x of component d. */
  function ForeignPin(): Manifest
  {
    Manifest(NamedEntry("p", Named("p", []), None),
             [ProductReleaseEntry("r", PlainRelease("p"), None, [ComponentLink("c", Some("x"))])],
             [NamedEntry("c", Named("c", []), None)],
             [ComponentReleaseEntry("x", PlainRelease("d"), None, [])], [])
  }

  /** No link of it dangles, and yet it does not import into an empty store: component d is missing. */
  lemma ForeignPinDoesNotImport()
    ensures NoDangling(ForeignPin())
    ensures ImportAll(map[], Flatten([], ForeignPin())).Err?
  {
    var m := ForeignPin();
    assert m.components[0] in m.components && m.componentReleases[0] in m.componentReleases;
    assert "c" in ComponentUuids(m) && "x" in ReleaseUuids(m);
    if ImportAll(map[], Flatten([], m)).Ok? {
      ImportedIsClosed([], m);
    }
  }
}
