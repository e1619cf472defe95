/** Importing a bundle: every entity is keyed by its identity, created if absent and compared if
    present, all in one transaction. */
module BundleImport {
  import opened Basics
  import opened Schema

  // ---------------------------------------------------------------- entities

  datatype Identifier = Identifier(idType: string, idValue: string)
  datatype Checksum = Checksum(algType: string, algValue: string)
  datatype VersionSpecifier = VersionSpecifier(version: string, range: string)
  datatype Format = Format(media: string, description: string, url: string, signatureURL: string,
                           checksums: seq<Checksum>)

  /** The identity an entity is imported under. */
  datatype Key =
    | BlobKey(sha256: string)
    | ProductKey(uuid: string) | ProductReleaseKey(uuid: string)
    | ComponentKey(uuid: string) | ComponentReleaseKey(uuid: string)
    | DistributionKey(id: string)
    | LinkKey(release: string, component: string)
    | ArtifactKey(ref: ArtifactRef)
    | VersionKey(key: CollectionKey)
    | EventKey(ownerType: string, owner: string, number: int)
    | SupportKey(ownerType: string, owner: string, name: string)

  datatype Content =
    | Blob(media: string, size: nat)
    | Named(name: string, identifiers: seq<Identifier>)
    | Release(parent: string, parentName: string, version: string, created: int, released: Option<int>,
              preRelease: bool, identifiers: seq<Identifier>)
    | Distribution(componentRelease: string, description: string, identifiers: seq<Identifier>,
                   url: string, signatureURL: string, checksums: seq<Checksum>)
    | Link(pinned: Option<string>)
    | Artifact(name: string, kind: string, dated: Option<int>, distributions: seq<string>, formats: seq<Format>)
    | Collection(date: int, belongsTo: string, reason: Option<UpdateReason>, refs: seq<ArtifactRef>)
    | Event(kind: string, effective: int, published: int, version: string, versions: seq<VersionSpecifier>,
            supportId: string, license: string, supersededBy: string, identifiers: seq<Identifier>,
            eventId: Option<int>, why: string, description: string, references: seq<string>)
    | Support(description: string, url: string)

  // ---------------------------------------------------------------- storing and comparing

  function FloorOption(t: Option<int>): Option<int>
  {
    if t.Some? then Some(FloorSecond(t.value)) else None
  }

  /** What the rows hold after the insert: dates lose their fraction. */
  function Stored(c: Content): Content
  {
    match c
    case Release(_, _, _, created, released, _, _) =>
      c.(created := FloorSecond(created), released := FloorOption(released))
    case Artifact(_, _, dated, _, _) => c.(dated := FloorOption(dated))
    case Collection(date, _, _, _) => c.(date := FloorSecond(date))
    case Event(_, effective, published, _, _, _, _, _, _, _, _, _, _) =>
      c.(effective := FloorSecond(effective), published := FloorSecond(published))
    case _ => c
  }

  predicate WholeOption(t: Option<int>) { t.Some? ==> WholeSecond(t.value) }

  predicate WholeDates(c: Content)
  {
    match c
    case Release(_, _, _, created, released, _, _) => WholeSecond(created) && WholeOption(released)
    case Artifact(_, _, dated, _, _) => WholeOption(dated)
    case Collection(date, _, _, _) => WholeSecond(date)
    case Event(_, effective, published, _, _, _, _, _, _, _, _, _, _) =>
      WholeSecond(effective) && WholeSecond(published)
    case _ => true
  }

  /** The comparison of two lists as sets: equal sizes without repeats, and one within the other. */
  predicate SetEqual<T(==)>(a: seq<T>, b: seq<T>)
  {
    |Elements(a)| == |Elements(b)| && forall x :: x in a ==> x in b
  }

  /** The identity of a format: checksums in any order, locations left out. */
  datatype FormatKey = FormatKey(media: string, description: string, checksums: multiset<Checksum>)

  function KeyOfFormat(f: Format): FormatKey
  {
    FormatKey(f.media, f.description, multiset(f.checksums))
  }

  function FormatKeys(fs: seq<Format>): (r: seq<FormatKey>)
    ensures |r| == |fs| && forall i :: 0 <= i < |r| ==> r[i] == KeyOfFormat(fs[i])
  {
    seq(|fs|, i requires 0 <= i < |fs| => KeyOfFormat(fs[i]))
  }

  /** Whether a stored entity differs from an incoming one of the same identity. Locations, cached
      parent names and blob media types do not count. */
  predicate Conflicts(old_: Content, c: Content)
  {
    match (old_, c)
    case (Blob(_, _), Blob(_, _)) => false
    case (Named(n, ids), Named(n', ids')) => n != n' || !SetEqual(ids, ids')
    case (Release(p, _, v, cr, re, pre, ids), Release(p', _, v', cr', re', pre', ids')) =>
      p != p' || v != v' || cr != cr' || re != re' || pre != pre' || !SetEqual(ids, ids')
    case (Distribution(r, d, ids, _, _, cs), Distribution(r', d', ids', _, _, cs')) =>
      r != r' || d != d' || !SetEqual(ids, ids') || !SetEqual(cs, cs')
    case (Link(p), Link(p')) => p != p'
    case (Artifact(n, k, t, ds, fs), Artifact(n', k', t', ds', fs')) =>
      n != n' || k != k' || t != t' || !SetEqual(ds, ds') || !SetEqual(FormatKeys(fs), FormatKeys(fs'))
    case (Collection(t, b, re, refs), Collection(t', b', re', refs')) =>
      b != b' || t != t' || re != re' || !SetEqual(refs, refs')
    case (Event(k, e, p, v, vs, s, l, sb, ids, ei, w, d, rs),
          Event(k', e', p', v', vs', s', l', sb', ids', ei', w', d', rs')) =>
      k != k' || e != e' || p != p' || v != v' || !SetEqual(vs, vs') || s != s' || l != l' || sb != sb'
      || !SetEqual(ids, ids') || ei != ei' || w != w' || d != d' || !SetEqual(rs, rs')
    case (Support(d, u), Support(d', u')) => d != d' || u != u'
    case (_, _) => true
  }

  /** What an entity is, apart from list order, repeats and the fields no comparison looks at. */
  datatype Meaning =
    | MBlob
    | MNamed(name: string, identifiers: set<Identifier>)
    | MRelease(parent: string, version: string, created: int, released: Option<int>, preRelease: bool,
               identifiers: set<Identifier>)
    | MDistribution(componentRelease: string, description: string, identifiers: set<Identifier>,
                    checksums: set<Checksum>)
    | MLink(pinned: Option<string>)
    | MArtifact(name: string, kind: string, dated: Option<int>, distributions: set<string>, formats: set<FormatKey>)
    | MCollection(date: int, belongsTo: string, reason: Option<UpdateReason>, refs: set<ArtifactRef>)
    | MEvent(kind: string, effective: int, published: int, version: string, versions: set<VersionSpecifier>,
             supportId: string, license: string, supersededBy: string, identifiers: set<Identifier>,
             eventId: Option<int>, why: string, description: string, references: set<string>)
    | MSupport(description: string, url: string)

  function MeaningOf(c: Content): Meaning
  {
    match c
    case Blob(_, _) => MBlob
    case Named(n, ids) => MNamed(n, Elements(ids))
    case Release(p, _, v, cr, re, pre, ids) => MRelease(p, v, cr, re, pre, Elements(ids))
    case Distribution(r, d, ids, _, _, cs) => MDistribution(r, d, Elements(ids), Elements(cs))
    case Link(p) => MLink(p)
    case Artifact(n, k, t, ds, fs) => MArtifact(n, k, t, Elements(ds), Elements(FormatKeys(fs)))
    case Collection(t, b, re, refs) => MCollection(t, b, re, Elements(refs))
    case Event(k, e, p, v, vs, s, l, sb, ids, ei, w, d, rs) =>
      MEvent(k, e, p, v, Elements(vs), s, l, sb, Elements(ids), ei, w, d, Elements(rs))
    case Support(d, u) => MSupport(d, u)
  }

  lemma {:induction false} SameSizeSubset<T>(a: set<T>, b: set<T>)
    requires a <= b && |a| == |b|
    ensures a == b
  {
    SubsetCount(a, b);
    assert |b - a| == |b| - |a|;
  }

  lemma SetEqualIsEquality<T>(a: seq<T>, b: seq<T>)
    ensures SetEqual(a, b) <==> Elements(a) == Elements(b)
  {
    if SetEqual(a, b) {
      SameSizeSubset(Elements(a), Elements(b));
    }
    if Elements(a) == Elements(b) {
      forall x | x in a
        ensures x in b
      {
        assert x in Elements(a);
      }
    }
  }

  /** The field-by-field conflict check accepts exactly entities with the same meaning. */
  lemma ConflictsIffMeaningDiffers(a: Content, b: Content)
    ensures Conflicts(a, b) <==> MeaningOf(a) != MeaningOf(b)
  {
    if a.Event? && b.Event? {
      EventConflicts(a, b);
    } else if a.Artifact? && b.Artifact? {
      ArtifactConflicts(a, b);
    } else if a.Distribution? && b.Distribution? {
      SetEqualIsEquality(a.identifiers, b.identifiers);
      SetEqualIsEquality(a.checksums, b.checksums);
    } else if a.Collection? && b.Collection? {
      SetEqualIsEquality(a.refs, b.refs);
    } else if (a.Named? && b.Named?) || (a.Release? && b.Release?) {
      SetEqualIsEquality(a.identifiers, b.identifiers);
    }
  }

  lemma ArtifactConflicts(a: Content, b: Content)
    requires a.Artifact? && b.Artifact?
    ensures Conflicts(a, b) <==> MeaningOf(a) != MeaningOf(b)
  {
    SetEqualIsEquality(a.distributions, b.distributions);
    SetEqualIsEquality(FormatKeys(a.formats), FormatKeys(b.formats));
  }

  lemma EventConflicts(a: Content, b: Content)
    requires a.Event? && b.Event?
    ensures Conflicts(a, b) <==> MeaningOf(a) != MeaningOf(b)
  {
    SetEqualIsEquality(a.versions, b.versions);
    SetEqualIsEquality(a.identifiers, b.identifiers);
    SetEqualIsEquality(a.references, b.references);
  }

  /** Something is in one list and not in the other. */
  ghost predicate Differ<T(!new)>(a: seq<T>, b: seq<T>)
  {
    exists x :: (x in a) != (x in b)
  }

  lemma DifferIff<T(!new)>(a: seq<T>, b: seq<T>)
    ensures Differ(a, b) <==> Elements(a) != Elements(b)
  {
    if Elements(a) == Elements(b) {
      assert forall x :: (x in a) == (x in Elements(a)) == (x in Elements(b)) == (x in b);
    }
  }

  /** Which fields of which kind make a conflict, one by one. */
  lemma ConflictsAre(a: Content, b: Content)
    ensures a.Named? && b.Named? ==>
              (Conflicts(a, b) <==> a.name != b.name || Differ(a.identifiers, b.identifiers))
    ensures a.Release? && b.Release? ==>
              (Conflicts(a, b) <==>
                || a.parent != b.parent || a.version != b.version || a.created != b.created
                || a.released != b.released || a.preRelease != b.preRelease || Differ(a.identifiers, b.identifiers))
    ensures a.Distribution? && b.Distribution? ==>
              (Conflicts(a, b) <==>
                || a.componentRelease != b.componentRelease || a.description != b.description
                || Differ(a.identifiers, b.identifiers) || Differ(a.checksums, b.checksums))
    ensures a.Link? && b.Link? ==> (Conflicts(a, b) <==> a.pinned != b.pinned)
    ensures a.Collection? && b.Collection? ==>
              (Conflicts(a, b) <==>
                a.date != b.date || a.belongsTo != b.belongsTo || a.reason != b.reason || Differ(a.refs, b.refs))
    ensures a.Support? && b.Support? ==> (Conflicts(a, b) <==> a.description != b.description || a.url != b.url)
    ensures a.Blob? && b.Blob? ==> !Conflicts(a, b)
  {
    ConflictsIffMeaningDiffers(a, b);
    if (a.Named? && b.Named?) || (a.Release? && b.Release?) {
      DifferIff(a.identifiers, b.identifiers);
    } else if a.Distribution? && b.Distribution? {
      DifferIff(a.identifiers, b.identifiers);
      DifferIff(a.checksums, b.checksums);
    } else if a.Collection? && b.Collection? {
      DifferIff(a.refs, b.refs);
    }
  }

  lemma ArtifactConflictsAre(a: Content, b: Content)
    requires a.Artifact? && b.Artifact?
    ensures Conflicts(a, b) <==>
              || a.name != b.name || a.kind != b.kind || a.dated != b.dated
              || Differ(a.distributions, b.distributions) || Differ(FormatKeys(a.formats), FormatKeys(b.formats))
  {
    ConflictsIffMeaningDiffers(a, b);
    DifferIff(a.distributions, b.distributions);
    DifferIff(FormatKeys(a.formats), FormatKeys(b.formats));
  }

  lemma EventConflictsAre(a: Content, b: Content)
    requires a.Event? && b.Event?
    ensures Conflicts(a, b) <==>
              || a.kind != b.kind || a.effective != b.effective || a.published != b.published || a.version != b.version
              || a.supportId != b.supportId || a.license != b.license || a.supersededBy != b.supersededBy
              || a.eventId != b.eventId || a.why != b.why || a.description != b.description
              || Differ(a.versions, b.versions) || Differ(a.identifiers, b.identifiers)
              || Differ(a.references, b.references)
  {
    ConflictsIffMeaningDiffers(a, b);
    DifferIff(a.versions, b.versions);
    DifferIff(a.identifiers, b.identifiers);
    DifferIff(a.references, b.references);
  }

  /** Storing keeps the meaning exactly when no date has a fraction. */
  lemma StoredMeaning(c: Content)
    ensures MeaningOf(Stored(c)) == MeaningOf(c) <==> WholeDates(c)
    ensures WholeDates(Stored(c))
  {
  }

  // ---------------------------------------------------------------- constraints

  const ID_TYPES: set<string> := {"CPE", "TEI", "PURL", "COMPLIANCE_DOCUMENT"}
  const ALG_TYPES: set<string> := {"MD5", "SHA-1", "SHA-256", "SHA-384", "SHA-512", "SHA3-256", "SHA3-384", "SHA3-512",
                                   "BLAKE2b-256", "BLAKE2b-384", "BLAKE2b-512", "BLAKE3"}
  const ARTIFACT_TYPES: set<string> := {"ATTESTATION", "BOM", "BUILD_META", "CERTIFICATION", "FORMULATION", "LICENSE",
                                        "RELEASE_NOTES", "SECURITY_TXT", "THREAT_MODEL", "VULNERABILITIES", "OTHER"}
  const OWNER_KINDS: set<string> := {"COMPONENT_RELEASE", "PRODUCT_RELEASE"}
  const CLE_OWNERS: set<string> := {"PRODUCT", "PRODUCT_RELEASE", "COMPONENT", "COMPONENT_RELEASE"}
  const EVENT_KINDS: set<string> := {"released", "endOfDevelopment", "endOfSupport", "endOfLife", "endOfDistribution",
                                     "endOfMarketing", "supersededBy", "componentRenamed", "withdrawn"}

  const COMPLIANCE_TYPES: set<string> := {
    "SOC_2_TYPE_I", "SOC_2_TYPE_II", "SOC_3", "ISO_27001", "ISO_27017", "ISO_27018", "ISO_27701", "ISO_42001",
    "PCI_DSS", "HIPAA", "FEDRAMP", "GDPR", "CSA_STAR", "NIST_800_53", "NIST_800_171", "CMMC", "HITRUST", "TISAX",
    "CYBER_ESSENTIALS", "CYBER_ESSENTIALS_PLUS", "EU_DECLARATION_OF_CONFORMITY"}

  /** A compliance document has a known type, and may be named only on components and their releases. */
  predicate IdentifiersOk(ids: seq<Identifier>, compliance: bool)
  {
    forall i :: i in ids ==>
      i.idType in ID_TYPES && (i.idType == "COMPLIANCE_DOCUMENT" ==> compliance && i.idValue in COMPLIANCE_TYPES)
  }

  predicate ChecksumsOk(cs: seq<Checksum>)
  {
    forall c :: c in cs ==> c.algType in ALG_TYPES
  }

  /** The constraints that look at the entity alone: CHECKs and the keys of its own list tables. */
  predicate WellFormed(k: Key, c: Content)
  {
    match c
    case Named(_, ids) => IdentifiersOk(ids, k.ComponentKey?)
    case Release(_, _, _, _, _, _, ids) => IdentifiersOk(ids, k.ComponentReleaseKey?)
    case Distribution(_, _, ids, _, _, cs) => IdentifiersOk(ids, false) && ChecksumsOk(cs)
    case Artifact(_, kind, _, ds, fs) =>
      kind in ARTIFACT_TYPES && NoDuplicates(ds) && forall f :: f in fs ==> ChecksumsOk(f.checksums)
    case Collection(_, b, re, refs) =>
      b in OWNER_KINDS && (re.Some? ==> re.value.kind in REASON_KINDS) && NoDuplicates(refs)
    case Event(kind, _, _, _, _, _, _, _, ids, _, _, _, _) =>
      kind in EVENT_KINDS && (k.EventKey? ==> k.ownerType in CLE_OWNERS) && IdentifiersOk(ids, false)
    case Support(_, _) => k.SupportKey? ==> k.ownerType in CLE_OWNERS
    case _ => true
  }

  /** The entities a foreign key requires. */
  function Needs(k: Key, c: Content): set<Key>
  {
    match c
    case Release(p, _, _, _, _, _, _) => {if k.ProductReleaseKey? then ProductKey(p) else ComponentKey(p)}
    case Distribution(r, _, _, _, _, _) => {ComponentReleaseKey(r)}
    case Link(p) =>
      (if k.LinkKey? then {ProductReleaseKey(k.release), ComponentKey(k.component)} else {})
      + (if p.Some? then {ComponentReleaseKey(p.value)} else {})
    case Artifact(_, _, _, ds, _) => set d | d in ds :: DistributionKey(d)
    case Collection(_, _, _, refs) => set r | r in refs :: ArtifactKey(r)
    case _ => {}
  }

  /** A product release and a component release may not share a uuid. */
  function Excludes(k: Key): set<Key>
  {
    match k
    case ProductReleaseKey(u) => {ComponentReleaseKey(u)}
    case ComponentReleaseKey(u) => {ProductReleaseKey(u)}
    case _ => {}
  }

  // ---------------------------------------------------------------- import

  type Db = map<Key, Content>

  datatype Item = Item(key: Key, content: Content)

  datatype Error = IdentityConflict | CrossTypeReuse | ConstraintFailed

  /** The tables after, and for each item whether it was created. */
  datatype Imported = Imported(db: Db, created: seq<bool>)

  /** What keeps an item from being inserted beside these identities. */
  function Obstacle(item: Item, keys: set<Key>): Option<Error>
  {
    if Excludes(item.key) * keys != {} then Some(CrossTypeReuse)
    else if !(WellFormed(item.key, item.content) && Needs(item.key, item.content) <= keys) then Some(ConstraintFailed)
    else None
  }

  /** An identity that is there must mean the same; one that is not is inserted, if it may be. */
  function ImportOne(db: Db, item: Item): Result<(Db, bool), Error>
  {
    if item.key in db then
      if MeaningOf(db[item.key]) != MeaningOf(item.content) then Err(IdentityConflict) else Ok((db, false))
    else if Obstacle(item, db.Keys).Some? then Err(Obstacle(item, db.Keys).value)
    else Ok((db[item.key := Stored(item.content)], true))
  }

  /** The items in order, stopping at the first failure. */
  function ImportAll(db: Db, items: seq<Item>): (r: Result<Imported, Error>)
    ensures r.Ok? ==> |r.value.created| == |items|
    decreases |items|
  {
    if items == [] then Ok(Imported(db, []))
    else
      var before := ImportAll(db, items[..|items| - 1]);
      if before.Err? then before
      else
        var one := ImportOne(before.value.db, items[|items| - 1]);
        if one.Err? then Err(one.error)
        else Ok(Imported(one.value.0, before.value.created + [one.value.1]))
  }

  function KeysOf(items: seq<Item>): set<Key>
  {
    set i | i in items :: i.key
  }

  /** Rows hold whole-second dates, and no uuid names a release of both kinds. */
  ghost predicate Sound(db: Db)
  {
    && (forall k :: k in db ==> WholeDates(db[k]))
    && (forall k :: k in db ==> Excludes(k) * db.Keys == {})
  }

  lemma ImportOneKeeps(db: Db, item: Item)
    requires Sound(db) && ImportOne(db, item).Ok?
    ensures Sound(ImportOne(db, item).value.0)
  {
    if item.key !in db {
      StoredMeaning(item.content);
      InsertKeeps(db, item.key, Stored(item.content));
    }
  }

  lemma InsertKeeps(db: Db, key: Key, row: Content)
    requires Sound(db) && key !in db && WholeDates(row) && Excludes(key) * db.Keys == {}
    ensures Sound(db[key := row])
  {
    var db' := db[key := row];
    forall k | k in db'
      ensures Excludes(k) * db'.Keys == {}
    {
      if k != key {
        assert key in Excludes(k) ==> k in Excludes(key) && k in db.Keys;
        assert k in Excludes(key) * db.Keys <==> k in Excludes(key) && k in db.Keys;
        assert Excludes(k) * db'.Keys <= (Excludes(k) * db.Keys) + {key};
      } else {
        assert k !in Excludes(k);
        assert Excludes(k) * db'.Keys == Excludes(k) * db.Keys;
      }
    }
  }

  /** Nothing that was there is changed or removed; the keys are exactly the old and the given. */
  ghost predicate Extends(db: Db, db': Db, keys: set<Key>)
  {
    (forall k :: k in db ==> k in db' && db'[k] == db[k]) && db'.Keys == db.Keys + keys
  }

  lemma KeysOfAppend(items: seq<Item>, item: Item)
    ensures KeysOf(items + [item]) == KeysOf(items) + {item.key}
  {
  }

  lemma {:induction false} ImportIsNonDestructive(db: Db, items: seq<Item>)
    requires ImportAll(db, items).Ok?
    ensures Extends(db, ImportAll(db, items).value.db, KeysOf(items))
    decreases |items|
  {
    if items != [] {
      var init, last := items[..|items| - 1], items[|items| - 1];
      ImportPrefix(db, items);
      ImportIsNonDestructive(db, init);
      assert items == init + [last];
      KeysOfAppend(init, last);
    }
  }

  lemma {:induction false} ImportKeepsSound(db: Db, items: seq<Item>)
    requires Sound(db) && ImportAll(db, items).Ok?
    ensures Sound(ImportAll(db, items).value.db)
    decreases |items|
  {
    if items != [] {
      ImportPrefix(db, items);
      ImportKeepsSound(db, items[..|items| - 1]);
      ImportOneKeeps(ImportAll(db, items[..|items| - 1]).value.db, items[|items| - 1]);
    }
  }

  /** So no uuid names a release of both kinds. */
  lemma ReleaseKindsExclude(db: Db)
    requires Sound(db)
    ensures forall u :: !(ProductReleaseKey(u) in db && ComponentReleaseKey(u) in db)
  {
    forall u | ProductReleaseKey(u) in db
      ensures ComponentReleaseKey(u) !in db
    {
      assert Excludes(ProductReleaseKey(u)) * db.Keys == {};
      assert ComponentReleaseKey(u) in db.Keys ==> ComponentReleaseKey(u) in Excludes(ProductReleaseKey(u)) * db.Keys;
    }
  }

  /** Everything a row refers to is there: its parent, the ends and the pin of a link, the release of a
      distribution, the distributions of an artifact, the artifacts of a collection. */
  ghost predicate Refers(db: Db, k: Key, c: Content)
  {
    && (k.ProductReleaseKey? && c.Release? ==> ProductKey(c.parent) in db)
    && (k.ComponentReleaseKey? && c.Release? ==> ComponentKey(c.parent) in db)
    && (k.LinkKey? && c.Link? ==> ProductReleaseKey(k.release) in db && ComponentKey(k.component) in db)
    && (c.Link? && c.pinned.Some? ==> ComponentReleaseKey(c.pinned.value) in db)
    && (c.Distribution? ==> ComponentReleaseKey(c.componentRelease) in db)
    && (c.Artifact? ==> forall d :: d in c.distributions ==> DistributionKey(d) in db)
    && (c.Collection? ==> forall r :: r in c.refs ==> ArtifactKey(r) in db)
  }

  ghost predicate Referential(db: Db)
  {
    forall k :: k in db ==> Refers(db, k, db[k])
  }

  /** Import keeps every reference good. */
  lemma {:induction false} ImportKeepsReferences(db: Db, items: seq<Item>)
    requires Referential(db) && ImportAll(db, items).Ok?
    ensures Referential(ImportAll(db, items).value.db)
    decreases |items|
  {
    if items != [] {
      var mid, last := ImportAll(db, items[..|items| - 1]).value.db, items[|items| - 1];
      ImportPrefix(db, items);
      ImportKeepsReferences(db, items[..|items| - 1]);
    }
  }

  /** What the tables' own constraints promise of a row. A compliance document may be named only on
      components and their releases. */
  ghost predicate Obeys(k: Key, c: Content)
  {
    && (c.Collection? ==> NoDuplicates(c.refs) && c.belongsTo in {"PRODUCT_RELEASE", "COMPONENT_RELEASE"})
    && (c.Collection? && c.reason.Some? ==> c.reason.value.kind in REASON_KINDS)
    && (c.Artifact? ==> c.kind in ARTIFACT_TYPES && NoDuplicates(c.distributions))
    && (c.Event? ==> c.kind in EVENT_KINDS)
    && (c.Artifact? ==> forall f, x :: f in c.formats && x in f.checksums ==> x.algType in ALG_TYPES)
    && (c.Distribution? ==> forall x :: x in c.checksums ==> x.algType in ALG_TYPES)
    && (forall i :: i in IdentifiersOf(c) ==>
          if i.idType == "COMPLIANCE_DOCUMENT"
          then (k.ComponentKey? || k.ComponentReleaseKey?) && i.idValue in COMPLIANCE_TYPES
          else i.idType in ID_TYPES)
  }

  function IdentifiersOf(c: Content): seq<Identifier>
  {
    if c.Named? || c.Release? || c.Distribution? || c.Event? then c.identifiers else []
  }

  ghost predicate Lawful(db: Db)
  {
    forall k :: k in db ==> Obeys(k, db[k])
  }

  lemma WellFormedObeys(k: Key, c: Content)
    requires WellFormed(k, c)
    ensures Obeys(k, Stored(c))
  {
  }

  /** Import keeps every row within its constraints. */
  lemma {:induction false} ImportKeepsConstraints(db: Db, items: seq<Item>)
    requires Lawful(db) && ImportAll(db, items).Ok?
    ensures Lawful(ImportAll(db, items).value.db)
    decreases |items|
  {
    if items != [] {
      var last := items[|items| - 1];
      ImportPrefix(db, items);
      ImportKeepsConstraints(db, items[..|items| - 1]);
      if WellFormed(last.key, last.content) {
        WellFormedObeys(last.key, last.content);
      }
    }
  }

  lemma ImportPrefix(db: Db, items: seq<Item>)
    requires items != [] && ImportAll(db, items).Ok?
    ensures ImportAll(db, items[..|items| - 1]).Ok?
    ensures ImportOne(ImportAll(db, items[..|items| - 1]).value.db, items[|items| - 1]).Ok?
    ensures ImportOne(ImportAll(db, items[..|items| - 1]).value.db, items[|items| - 1]).value.0 ==
            ImportAll(db, items).value.db
  {
  }

  /** After a successful import the row of every item means what storing the item gives. */
  lemma {:induction false} RowOfItem(db: Db, items: seq<Item>, j: nat)
    requires Sound(db) && ImportAll(db, items).Ok? && j < |items|
    ensures RowMeans(ImportAll(db, items).value.db, items[j])
    decreases |items|
  {
    ImportPrefix(db, items);
    if j < |items| - 1 {
      RowOfItem(db, items[..|items| - 1], j);
    } else {
      ImportKeepsSound(db, items[..|items| - 1]);
      RowOfOne(ImportAll(db, items[..|items| - 1]).value.db, items[j]);
    }
  }

  ghost predicate RowMeans(db: Db, item: Item)
  {
    item.key in db && MeaningOf(db[item.key]) == MeaningOf(Stored(item.content))
  }

  lemma RowOfOne(db: Db, item: Item)
    requires Sound(db) && ImportOne(db, item).Ok?
    ensures RowMeans(ImportOne(db, item).value.0, item)
  {
    if item.key in db {
      SameMeaningSameDates(db[item.key], item.content);
      StoredMeaning(item.content);
    }
  }

  lemma SameMeaningSameDates(a: Content, b: Content)
    requires MeaningOf(a) == MeaningOf(b)
    ensures WholeDates(a) <==> WholeDates(b)
  {
  }

  ghost predicate AllWhole(items: seq<Item>)
  {
    forall i :: i in items ==> WholeDates(i.content)
  }

  /** The import succeeded, created nothing and left the tables as they were. */
  ghost predicate NoOp(db: Db, r: Result<Imported, Error>)
  {
    r.Ok? && r.value.db == db && forall i :: 0 <= i < |r.value.created| ==> !r.value.created[i]
  }

  /** Items whose rows all mean the same import as no-ops. */
  lemma {:induction false} MatchingItemsChangeNothing(db: Db, items: seq<Item>)
    requires forall i :: i in items ==> i.key in db && MeaningOf(db[i.key]) == MeaningOf(i.content)
    ensures NoOp(db, ImportAll(db, items))
    decreases |items|
  {
    if items != [] {
      var init, last := items[..|items| - 1], items[|items| - 1];
      assert items == init + [last];
      MatchingItemsChangeNothing(db, init);
    }
  }

  lemma {:induction false} EveryItemChecked(db: Db, items: seq<Item>, j: nat)
    requires ImportAll(db, items).Ok? && j < |items| && items[j].key in db
    ensures MeaningOf(db[items[j].key]) == MeaningOf(items[j].content)
    decreases |items|
  {
    var init, last := items[..|items| - 1], items[|items| - 1];
    ImportPrefix(db, items);
    ImportIsNonDestructive(db, init);
    if j < |init| {
      assert init[j] == items[j];
      EveryItemChecked(db, init, j);
    }
  }

  /** Importing the same bundle again succeeds exactly when none of its dates has a fraction of a
      second, and then it creates nothing and changes nothing. */
  lemma SecondImport(db: Db, items: seq<Item>)
    requires Sound(db) && ImportAll(db, items).Ok?
    ensures var db' := ImportAll(db, items).value.db;
      && (ImportAll(db', items).Ok? <==> AllWhole(items))
      && (AllWhole(items) ==> NoOp(db', ImportAll(db', items)))
  {
    var db' := ImportAll(db, items).value.db;
    forall j | 0 <= j < |items|
      ensures items[j].key in db'
      ensures MeaningOf(db'[items[j].key]) == MeaningOf(items[j].content) <==> WholeDates(items[j].content)
    {
      RowOfItem(db, items, j);
      StoredMeaning(items[j].content);
    }
    if AllWhole(items) {
      MatchingItemsChangeNothing(db', items);
    }
    if ImportAll(db', items).Ok? {
      forall j | 0 <= j < |items|
        ensures WholeDates(items[j].content)
      {
        EveryItemChecked(db', items, j);
      }
    }
  }
}
