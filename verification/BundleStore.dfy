/** The order a manifest's entities are imported in, and the store that imports them in one
    transaction. The archive's verified files go in first. */
module BundleStore {
  import opened Basics
  import opened Schema
  import opened BundleImport
  import opened BundleManifest

  function LifecycleItems(ownerType: string, owner: string, cle: Option<Lifecycle>): seq<Item>
  {
    if cle.None? then []
    else
      seq(|cle.value.events|, i requires 0 <= i < |cle.value.events| =>
        Item(EventKey(ownerType, owner, cle.value.events[i].0), cle.value.events[i].1))
      + seq(|cle.value.definitions|, i requires 0 <= i < |cle.value.definitions| =>
        Item(SupportKey(ownerType, owner, cle.value.definitions[i].0), cle.value.definitions[i].1))
  }

  function ProductReleaseItems(e: ProductReleaseEntry): seq<Item>
  {
    [Item(ProductReleaseKey(e.uuid), e.content)] + LifecycleItems("PRODUCT_RELEASE", e.uuid, e.cle)
  }

  function ComponentItems(e: NamedEntry): seq<Item>
  {
    [Item(ComponentKey(e.uuid), e.content)] + LifecycleItems("COMPONENT", e.uuid, e.cle)
  }

  function ComponentReleaseItems(e: ComponentReleaseEntry): seq<Item>
  {
    [Item(ComponentReleaseKey(e.uuid), e.content)] + LifecycleItems("COMPONENT_RELEASE", e.uuid, e.cle)
    + seq(|e.distributions|, i requires 0 <= i < |e.distributions| =>
        Item(DistributionKey(e.distributions[i].0), e.distributions[i].1))
  }

  function LinkItems(e: ProductReleaseEntry): seq<Item>
  {
    seq(|e.components|, i requires 0 <= i < |e.components| =>
      Item(LinkKey(e.uuid, e.components[i].component), Link(e.components[i].pinned)))
  }

  /** A collection's artifacts, and then the collection with references to them. */
  function CollectionItems(e: CollectionEntry): seq<Item>
  {
    seq(|e.artifacts|, i requires 0 <= i < |e.artifacts| => Item(ArtifactKey(e.artifacts[i].0), e.artifacts[i].1))
    + [Item(VersionKey(CollectionKey(e.uuid, e.version)),
            Collection(e.date, e.belongsTo, e.reason,
                       seq(|e.artifacts|, i requires 0 <= i < |e.artifacts| => e.artifacts[i].0)))]
  }

  function FlatMap<T>(f: T -> seq<Item>, xs: seq<T>): seq<Item>
  {
    if xs == [] then [] else FlatMap(f, xs[..|xs| - 1]) + f(xs[|xs| - 1])
  }

  function BlobItems(blobs: seq<(string, Content)>): seq<Item>
  {
    seq(|blobs|, i requires 0 <= i < |blobs| => Item(BlobKey(blobs[i].0), blobs[i].1))
  }

  /** The steps of an import, in the order foreign keys require: links only once every release they
      may pin is there. */
  function Section(blobs: seq<(string, Content)>, m: Manifest, k: nat): seq<Item>
  {
    match k
    case 0 =>
      BlobItems(blobs) + [Item(ProductKey(m.product.uuid), m.product.content)]
      + LifecycleItems("PRODUCT", m.product.uuid, m.product.cle)
    case 1 => FlatMap(ProductReleaseItems, m.productReleases)
    case 2 => FlatMap(ComponentItems, m.components)
    case 3 => FlatMap(ComponentReleaseItems, m.componentReleases)
    case 4 => FlatMap(LinkItems, m.productReleases)
    case _ => FlatMap(CollectionItems, m.collections)
  }

  function Sections(blobs: seq<(string, Content)>, m: Manifest, k: nat): seq<Item>
  {
    if k == 0 then Section(blobs, m, 0) else Sections(blobs, m, k - 1) + Section(blobs, m, k)
  }

  function Flatten(blobs: seq<(string, Content)>, m: Manifest): seq<Item>
  {
    Sections(blobs, m, 5)
  }

  // ---------------------------------------------------------------- what a bundle brings

  /** The lifecycle document of (ownerType, owner), as the manifest has it. */
  ghost predicate HasLifecycle(m: Manifest, ownerType: string, owner: string, cle: Lifecycle)
  {
    || (ownerType == "PRODUCT" && m.product.uuid == owner && m.product.cle == Some(cle))
    || (ownerType == "PRODUCT_RELEASE" && exists p :: p in m.productReleases && p.uuid == owner && p.cle == Some(cle))
    || (ownerType == "COMPONENT" && exists c :: c in m.components && c.uuid == owner && c.cle == Some(cle))
    || (ownerType == "COMPONENT_RELEASE"
          && exists r :: r in m.componentReleases && r.uuid == owner && r.cle == Some(cle))
  }

  /** The collection content an entry stands for: its own fields, and references to its artifacts. */
  ghost predicate IsCollectionOf(e: CollectionEntry, c: Content)
  {
    && c.Collection? && c.date == e.date && c.belongsTo == e.belongsTo && c.reason == e.reason
    && |c.refs| == |e.artifacts| && forall i :: 0 <= i < |c.refs| ==> c.refs[i] == e.artifacts[i].0
  }

  /** The bundle brings this entity: said of each kind of entity by where the manifest has it. */
  ghost predicate Brings(blobs: seq<(string, Content)>, m: Manifest, i: Item)
  {
    match i.key
    case BlobKey(sha256) => (sha256, i.content) in blobs
    case ProductKey(u) => m.product.uuid == u && m.product.content == i.content
    case ProductReleaseKey(u) => exists p :: p in m.productReleases && p.uuid == u && p.content == i.content
    case ComponentKey(u) => exists c :: c in m.components && c.uuid == u && c.content == i.content
    case ComponentReleaseKey(u) => exists r :: r in m.componentReleases && r.uuid == u && r.content == i.content
    case DistributionKey(id) => exists r :: r in m.componentReleases && (id, i.content) in r.distributions
    case LinkKey(release, component) =>
      exists p, l :: p in m.productReleases && l in p.components
        && p.uuid == release && l.component == component && i.content == Link(l.pinned)
    case ArtifactKey(ref) => exists e :: e in m.collections && (ref, i.content) in e.artifacts
    case VersionKey(key) =>
      exists e :: e in m.collections && key == CollectionKey(e.uuid, e.version) && IsCollectionOf(e, i.content)
    case EventKey(ownerType, owner, number) =>
      exists cle :: HasLifecycle(m, ownerType, owner, cle) && (number, i.content) in cle.events
    case SupportKey(ownerType, owner, name) =>
      exists cle :: HasLifecycle(m, ownerType, owner, cle) && (name, i.content) in cle.definitions
  }

  lemma {:induction false} InFlatMap<T>(f: T -> seq<Item>, xs: seq<T>, i: Item)
    ensures i in FlatMap(f, xs) <==> exists x :: x in xs && i in f(x)
    decreases |xs|
  {
    if xs != [] {
      InFlatMap(f, xs[..|xs| - 1], i);
      assert xs == xs[..|xs| - 1] + [xs[|xs| - 1]];
    }
  }

  /** Of the items that one lifecycle document gives. */
  ghost predicate InLifecycle(ownerType: string, owner: string, cle: Option<Lifecycle>, i: Item)
  {
    && cle.Some?
    && match i.key
       case EventKey(t, o, n) => t == ownerType && o == owner && (n, i.content) in cle.value.events
       case SupportKey(t, o, n) => t == ownerType && o == owner && (n, i.content) in cle.value.definitions
       case _ => false
  }

  lemma LifecycleItemsAre(ownerType: string, owner: string, cle: Option<Lifecycle>, i: Item)
    ensures i in LifecycleItems(ownerType, owner, cle) <==> InLifecycle(ownerType, owner, cle, i)
  {
    if InLifecycle(ownerType, owner, cle, i) {
      var items, es := LifecycleItems(ownerType, owner, cle), cle.value.events;
      if i.key.EventKey? {
        var k :| 0 <= k < |es| && es[k] == (i.key.number, i.content);
        assert items[k] == i;
      } else {
        var k :| 0 <= k < |cle.value.definitions| && cle.value.definitions[k] == (i.key.name, i.content);
        assert items[|es| + k] == i;
      }
    }
  }

  lemma SectionsAre(blobs: seq<(string, Content)>, m: Manifest, i: Item)
    ensures i in Flatten(blobs, m) <==>
              || i in BlobItems(blobs) || i == Item(ProductKey(m.product.uuid), m.product.content)
              || InLifecycle("PRODUCT", m.product.uuid, m.product.cle, i)
              || (exists p :: p in m.productReleases && i in ProductReleaseItems(p))
              || (exists c :: c in m.components && i in ComponentItems(c))
              || (exists r :: r in m.componentReleases && i in ComponentReleaseItems(r))
              || (exists p :: p in m.productReleases && i in LinkItems(p))
              || (exists e :: e in m.collections && i in CollectionItems(e))
  {
    InSomeSection(blobs, m, i);
    InHead(blobs, m, i);
    InFlatMap(ProductReleaseItems, m.productReleases, i);
    InFlatMap(ComponentItems, m.components, i);
    InFlatMap(ComponentReleaseItems, m.componentReleases, i);
    InFlatMap(LinkItems, m.productReleases, i);
    InFlatMap(CollectionItems, m.collections, i);
  }

  lemma InHead(blobs: seq<(string, Content)>, m: Manifest, i: Item)
    ensures i in Section(blobs, m, 0) <==>
              || i in BlobItems(blobs) || i == Item(ProductKey(m.product.uuid), m.product.content)
              || InLifecycle("PRODUCT", m.product.uuid, m.product.cle, i)
  {
    LifecycleItemsAre("PRODUCT", m.product.uuid, m.product.cle, i);
  }

  lemma InSomeSection(blobs: seq<(string, Content)>, m: Manifest, i: Item)
    ensures i in Flatten(blobs, m) <==>
              || i in Section(blobs, m, 0)
              || i in FlatMap(ProductReleaseItems, m.productReleases) || i in FlatMap(ComponentItems, m.components)
              || i in FlatMap(ComponentReleaseItems, m.componentReleases)
              || i in FlatMap(LinkItems, m.productReleases) || i in FlatMap(CollectionItems, m.collections)
  {
    assert i in Sections(blobs, m, 1) <==> i in Section(blobs, m, 0) || i in Section(blobs, m, 1);
    assert i in Sections(blobs, m, 2) <==> i in Sections(blobs, m, 1) || i in Section(blobs, m, 2);
    assert i in Sections(blobs, m, 3) <==> i in Sections(blobs, m, 2) || i in Section(blobs, m, 3);
    assert i in Sections(blobs, m, 4) <==> i in Sections(blobs, m, 3) || i in Section(blobs, m, 4);
  }

  lemma OwnItemsAre(m: Manifest, i: Item)
    ensures forall p :: i in ProductReleaseItems(p) <==>
              i == Item(ProductReleaseKey(p.uuid), p.content) || InLifecycle("PRODUCT_RELEASE", p.uuid, p.cle, i)
    ensures forall c :: i in ComponentItems(c) <==>
              i == Item(ComponentKey(c.uuid), c.content) || InLifecycle("COMPONENT", c.uuid, c.cle, i)
  {
    forall p: ProductReleaseEntry { LifecycleItemsAre("PRODUCT_RELEASE", p.uuid, p.cle, i); }
    forall c: NamedEntry { LifecycleItemsAre("COMPONENT", c.uuid, c.cle, i); }
  }

  lemma ComponentReleaseItemsAre(r: ComponentReleaseEntry, i: Item)
    ensures i in ComponentReleaseItems(r) <==>
              || i == Item(ComponentReleaseKey(r.uuid), r.content)
              || InLifecycle("COMPONENT_RELEASE", r.uuid, r.cle, i)
              || (i.key.DistributionKey? && (i.key.id, i.content) in r.distributions)
  {
    LifecycleItemsAre("COMPONENT_RELEASE", r.uuid, r.cle, i);
    var items, ds := ComponentReleaseItems(r), r.distributions;
    if i.key.DistributionKey? && (i.key.id, i.content) in ds {
      var k :| 0 <= k < |ds| && ds[k] == (i.key.id, i.content);
      assert items[|items| - |ds| + k] == i;
    }
  }

  lemma LinkItemsAre(p: ProductReleaseEntry, i: Item)
    ensures i in LinkItems(p) <==>
              exists l :: l in p.components && i == Item(LinkKey(p.uuid, l.component), Link(l.pinned))
  {
    if l :| l in p.components && i == Item(LinkKey(p.uuid, l.component), Link(l.pinned)) {
      var k :| 0 <= k < |p.components| && p.components[k] == l;
      assert LinkItems(p)[k] == i;
    }
  }

  lemma CollectionItemsAre(e: CollectionEntry, i: Item)
    ensures i in CollectionItems(e) <==>
              || (i.key.ArtifactKey? && (i.key.ref, i.content) in e.artifacts)
              || (i.key == VersionKey(CollectionKey(e.uuid, e.version)) && IsCollectionOf(e, i.content))
  {
    var items, n := CollectionItems(e), |e.artifacts|;
    if i.key.ArtifactKey? && (i.key.ref, i.content) in e.artifacts {
      var k :| 0 <= k < n && e.artifacts[k] == (i.key.ref, i.content);
      assert items[k] == i;
    }
    if i.key == VersionKey(CollectionKey(e.uuid, e.version)) && IsCollectionOf(e, i.content) {
      assert i.content.refs == items[n].content.refs;
      assert items[n] == i;
    }
  }

  lemma BlobItemsAre(blobs: seq<(string, Content)>, i: Item)
    ensures i in BlobItems(blobs) <==> i.key.BlobKey? && (i.key.sha256, i.content) in blobs
  {
    if i.key.BlobKey? && (i.key.sha256, i.content) in blobs {
      var k :| 0 <= k < |blobs| && blobs[k] == (i.key.sha256, i.content);
      assert BlobItems(blobs)[k] == i;
    }
  }

  /** The items an import goes through are exactly what the bundle brings. */
  lemma FlattenBrings(blobs: seq<(string, Content)>, m: Manifest, i: Item)
    ensures i in Flatten(blobs, m) <==> Brings(blobs, m, i)
  {
    SectionsAre(blobs, m, i);
    BlobItemsAre(blobs, i);
    OwnItemsAre(m, i);
    forall r { ComponentReleaseItemsAre(r, i); }
    forall p { LinkItemsAre(p, i); }
    forall e { CollectionItemsAre(e, i); }
    match i.key
    case EventKey(t, o, n) => LifecycleBrought(m, i, t, o);
    case SupportKey(t, o, n) => LifecycleBrought(m, i, t, o);
    case _ =>
  }

  lemma LifecycleBrought(m: Manifest, i: Item, t: string, o: string)
    requires i.key.EventKey? || i.key.SupportKey?
    requires t == i.key.ownerType && o == i.key.owner
    ensures (|| InLifecycle("PRODUCT", m.product.uuid, m.product.cle, i)
             || (exists p :: p in m.productReleases && InLifecycle("PRODUCT_RELEASE", p.uuid, p.cle, i))
             || (exists c :: c in m.components && InLifecycle("COMPONENT", c.uuid, c.cle, i))
             || (exists r :: r in m.componentReleases && InLifecycle("COMPONENT_RELEASE", r.uuid, r.cle, i))) <==>
            exists cle :: HasLifecycle(m, t, o, cle) && InLifecycle(t, o, Some(cle), i)
  {
    if cle :| HasLifecycle(m, t, o, cle) && InLifecycle(t, o, Some(cle), i) {
    }
    if InLifecycle("PRODUCT", m.product.uuid, m.product.cle, i) {
      assert HasLifecycle(m, t, o, m.product.cle.value);
    }
    if p :| p in m.productReleases && InLifecycle("PRODUCT_RELEASE", p.uuid, p.cle, i) {
      assert HasLifecycle(m, t, o, p.cle.value);
    }
    if c :| c in m.components && InLifecycle("COMPONENT", c.uuid, c.cle, i) {
      assert HasLifecycle(m, t, o, c.cle.value);
    }
    if r :| r in m.componentReleases && InLifecycle("COMPONENT_RELEASE", r.uuid, r.cle, i) {
      assert HasLifecycle(m, t, o, r.cle.value);
    }
  }

  /** After a successful import every entity the bundle brings has a row that means what storing it gives,
      nothing else was added, and what was there is as it was. */
  ghost predicate Arrived(db: Db, blobs: seq<(string, Content)>, m: Manifest, db': Db)
  {
    && (forall i :: Brings(blobs, m, i) ==> RowMeans(db', i))
    && (forall k :: k in db' <==> k in db || exists c :: Brings(blobs, m, Item(k, c)))
    && (forall k :: k in db ==> k in db' && db'[k] == db[k])
  }

  lemma BundleArrives(db: Db, blobs: seq<(string, Content)>, m: Manifest)
    requires Sound(db) && ImportAll(db, Flatten(blobs, m)).Ok?
    ensures Arrived(db, blobs, m, ImportAll(db, Flatten(blobs, m)).value.db)
  {
    var items, db' := Flatten(blobs, m), ImportAll(db, Flatten(blobs, m)).value.db;
    ImportIsNonDestructive(db, items);
    forall i | Brings(blobs, m, i)
      ensures RowMeans(db', i)
    {
      FlattenBrings(blobs, m, i);
      var j :| 0 <= j < |items| && items[j] == i;
      RowOfItem(db, items, j);
    }
    forall k
      ensures k in KeysOf(items) <==> exists c :: Brings(blobs, m, Item(k, c))
    {
      KeysBrought(blobs, m, k);
    }
  }

  lemma KeysBrought(blobs: seq<(string, Content)>, m: Manifest, k: Key)
    ensures k in KeysOf(Flatten(blobs, m)) <==> exists c :: Brings(blobs, m, Item(k, c))
  {
    if i :| i in Flatten(blobs, m) && i.key == k {
      FlattenBrings(blobs, m, i);
      assert i == Item(k, i.content);
    }
    if c :| Brings(blobs, m, Item(k, c)) {
      FlattenBrings(blobs, m, Item(k, c));
    }
  }

  lemma {:induction false} FailedSection(start: Db, blobs: seq<(string, Content)>, m: Manifest, k: nat)
    requires k <= 5 && ImportAll(start, Sections(blobs, m, k)).Err?
    ensures ImportAll(start, Flatten(blobs, m)) == ImportAll(start, Sections(blobs, m, k))
    decreases 5 - k
  {
    if k < 5 {
      ImportConcat(start, Sections(blobs, m, k), Section(blobs, m, k + 1));
      FailedSection(start, blobs, m, k + 1);
    }
  }

  /** Importing one list and then another is importing their concatenation. */
  lemma {:induction false} ImportConcat(db: Db, xs: seq<Item>, ys: seq<Item>)
    ensures ImportAll(db, xs).Err? ==> ImportAll(db, xs + ys) == ImportAll(db, xs)
    ensures ImportAll(db, xs).Ok? ==>
              var mid := ImportAll(db, xs).value;
              match ImportAll(mid.db, ys)
              case Ok(r) => ImportAll(db, xs + ys) == Ok(Imported(r.db, mid.created + r.created))
              case Err(e) => ImportAll(db, xs + ys) == Err(e)
    decreases |ys|
  {
    if ys == [] {
      assert xs + ys == xs;
      if ImportAll(db, xs).Ok? {
        assert ImportAll(db, xs).value.created + [] == ImportAll(db, xs).value.created;
      }
    } else {
      var init, last := ys[..|ys| - 1], ys[|ys| - 1];
      ImportConcat(db, xs, init);
      assert (xs + ys)[..|xs + ys| - 1] == xs + init;
      if ImportAll(db, xs).Ok? && ImportAll(ImportAll(db, xs).value.db, init).Ok? {
        var mid := ImportAll(db, xs).value;
        var more := ImportAll(mid.db, init).value;
        var one := ImportOne(more.db, last);
        if one.Ok? {
          assert mid.created + (more.created + [one.value.1]) == (mid.created + more.created) + [one.value.1];
        }
      }
    }
  }

  /** The import of a whole, given that it got through a first part, agrees with it so far. */
  ghost predicate SoFar(start: Db, done: seq<Item>, rows: Db, created: seq<bool>)
  {
    ImportAll(start, done) == Ok(Imported(rows, created))
  }

  /** One more item: it extends the import so far, or ends it. */
  lemma ImportNext(start: Db, done: seq<Item>, rows: Db, created: seq<bool>, item: Item, rest: seq<Item>)
    requires SoFar(start, done, rows, created)
    ensures var one := ImportOne(rows, item);
      if one.Ok? then SoFar(start, done + [item], one.value.0, created + [one.value.1])
      else ImportAll(start, done + [item] + rest) == Err(one.error)
  {
    assert (done + [item])[..|done|] == done;
    if ImportOne(rows, item).Err? {
      ImportConcat(start, done + [item], rest);
    }
  }

  class Repo {
    var rows: Db

    constructor (rows: Db)
      ensures this.rows == rows
    {
      this.rows := rows;
    }

    /** Look up the identity; compare if it is there, insert if not. */
    method ImportEntity(item: Item) returns (r: Result<bool, Error>)
      modifies this
      ensures match ImportOne(old(rows), item)
              case Ok(v) => r == Ok(v.1) && rows == v.0
              case Err(e) => r == Err(e) && rows == old(rows)
    {
      if item.key in rows {
        ConflictsIffMeaningDiffers(rows[item.key], item.content);
        if Conflicts(rows[item.key], item.content) {
          return Err(IdentityConflict);
        }
        return Ok(false);
      }
      if Excludes(item.key) * rows.Keys != {} {
        return Err(CrossTypeReuse);
      }
      if !(WellFormed(item.key, item.content) && Needs(item.key, item.content) <= rows.Keys) {
        return Err(ConstraintFailed);
      }
      rows := rows[item.key := Stored(item.content)];
      return Ok(true);
    }

    /** One step of the import: entities in order until one fails. */
    method ImportStep(items: seq<Item>, created: seq<bool>, ghost start: Db, ghost done: seq<Item>)
      returns (r: Result<seq<bool>, Error>)
      requires SoFar(start, done, rows, created)
      modifies this
      ensures r.Ok? ==> SoFar(start, done + items, rows, r.value)
      ensures r.Err? ==> ImportAll(start, done + items) == Err(r.error)
    {
      var out := created;
      assert done + items[..0] == done;
      for i := 0 to |items|
        invariant SoFar(start, done + items[..i], rows, out)
      {
        ImportNext(start, done + items[..i], rows, out, items[i], items[i + 1..]);
        assert done + items[..i + 1] == (done + items[..i]) + [items[i]];
        assert done + items == (done + items[..i]) + [items[i]] + items[i + 1..];
        var one := ImportEntity(items[i]);
        if one.Err? {
          return Err(one.error);
        }
        out := out + [one.value];
      }
      assert items[..|items|] == items;
      return Ok(out);
    }

    method ImportEach<T>(f: T -> seq<Item>, entries: seq<T>, created: seq<bool>, ghost start: Db, ghost done: seq<Item>)
      returns (r: Result<seq<bool>, Error>)
      requires SoFar(start, done, rows, created)
      modifies this
      ensures r.Ok? ==> SoFar(start, done + FlatMap(f, entries), rows, r.value)
      ensures r.Err? ==> ImportAll(start, done + FlatMap(f, entries)) == Err(r.error)
    {
      var out := created;
      assert done + FlatMap(f, entries[..0]) == done;
      for i := 0 to |entries|
        invariant SoFar(start, done + FlatMap(f, entries[..i]), rows, out)
      {
        ghost var before := done + FlatMap(f, entries[..i]);
        assert entries[..i + 1][..i] == entries[..i];
        assert done + FlatMap(f, entries[..i + 1]) == before + f(entries[i]);
        var step := ImportStep(f(entries[i]), out, start, before);
        if step.Err? {
          ghost var rest := FlatMapSplit(f, entries, i + 1);
          ImportConcat(start, done + FlatMap(f, entries[..i + 1]), rest);
          assert done + FlatMap(f, entries) == (done + FlatMap(f, entries[..i + 1])) + rest;
          return Err(step.error);
        }
        out := step.value;
      }
      assert entries[..|entries|] == entries;
      return Ok(out);
    }

    /** The whole bundle in one transaction: the items in order, or no change at all. */
    method ImportBundle(blobs: seq<(string, Content)>, m: Manifest) returns (r: Result<seq<bool>, Error>)
      modifies this
      ensures match ImportAll(old(rows), Flatten(blobs, m))
              case Ok(v) => r == Ok(v.created) && rows == v.db
              case Err(e) => r == Err(e) && rows == old(rows)
      ensures r.Ok? && Sound(old(rows)) ==> Arrived(old(rows), blobs, m, rows)
    {
      var saved := rows;
      r := ImportAllEntities(blobs, m);
      if r.Err? {
        rows := saved;
      } else if Sound(saved) {
        BundleArrives(saved, blobs, m);
      }
    }

    method ImportAllEntities(blobs: seq<(string, Content)>, m: Manifest) returns (r: Result<seq<bool>, Error>)
      modifies this
      ensures r.Ok? ==> SoFar(old(rows), Flatten(blobs, m), rows, r.value)
      ensures r.Err? ==> ImportAll(old(rows), Flatten(blobs, m)) == Err(r.error)
    {
      ghost var start := rows;
      var head := BlobItems(blobs) + [Item(ProductKey(m.product.uuid), m.product.content)]
                  + LifecycleItems("PRODUCT", m.product.uuid, m.product.cle);
      assert [] + head == Sections(blobs, m, 0);
      r := ImportStep(head, [], start, []);
      if r.Err? {
        FailedSection(start, blobs, m, 0);
        return;
      }
      r := ImportEach(ProductReleaseItems, m.productReleases, r.value, start, Sections(blobs, m, 0));
      if r.Err? {
        FailedSection(start, blobs, m, 1);
        return;
      }
      r := ImportEach(ComponentItems, m.components, r.value, start, Sections(blobs, m, 1));
      if r.Err? {
        FailedSection(start, blobs, m, 2);
        return;
      }
      r := ImportEach(ComponentReleaseItems, m.componentReleases, r.value, start, Sections(blobs, m, 2));
      if r.Err? {
        FailedSection(start, blobs, m, 3);
        return;
      }
      r := ImportEach(LinkItems, m.productReleases, r.value, start, Sections(blobs, m, 3));
      if r.Err? {
        FailedSection(start, blobs, m, 4);
        return;
      }
      r := ImportEach(CollectionItems, m.collections, r.value, start, Sections(blobs, m, 4));
    }
  }

  ghost function FlatMapSplit<T>(f: T -> seq<Item>, xs: seq<T>, n: nat): (rest: seq<Item>)
    requires n <= |xs|
    ensures FlatMap(f, xs) == FlatMap(f, xs[..n]) + rest
    decreases |xs|
  {
    if n == |xs| then
      assert xs[..n] == xs;
      []
    else
      var init := xs[..|xs| - 1];
      assert init[..n] == xs[..n];
      FlatMapSplit(f, init, n) + f(xs[|xs| - 1])
  }
}
