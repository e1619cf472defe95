/** A bundle's manifest, and the file digests it refers to. */
module BundleManifest {
  import opened Basics
  import opened Schema
  import opened BundleImport

  datatype Lifecycle = Lifecycle(events: seq<(int, Content)>, definitions: seq<(string, Content)>)

  /** A product or a component. */
  datatype NamedEntry = NamedEntry(uuid: string, content: Content, cle: Option<Lifecycle>)

  datatype ComponentLink = ComponentLink(component: string, pinned: Option<string>)

  datatype ProductReleaseEntry = ProductReleaseEntry(
    uuid: string, content: Content, cle: Option<Lifecycle>, components: seq<ComponentLink>)

  datatype ComponentReleaseEntry = ComponentReleaseEntry(
    uuid: string, content: Content, cle: Option<Lifecycle>, distributions: seq<(string, Content)>)

  datatype CollectionEntry = CollectionEntry(
    uuid: string, version: int, date: int, belongsTo: string, reason: Option<UpdateReason>,
    artifacts: seq<(ArtifactRef, Content)>)

  datatype Manifest = Manifest(
    product: NamedEntry, productReleases: seq<ProductReleaseEntry>, components: seq<NamedEntry>,
    componentReleases: seq<ComponentReleaseEntry>, collections: seq<CollectionEntry>)

  // ---------------------------------------------------------------- referenced digests

  const SHA256 := "SHA-256"

  ghost function Sha(cs: seq<Checksum>): set<string>
  {
    set c | c in cs && c.algType == SHA256 :: c.algValue
  }

  function FormatsOf(c: Content): seq<Format>
  {
    if c.Artifact? then c.formats else []
  }

  function ChecksumsOf(c: Content): seq<Checksum>
  {
    if c.Distribution? then c.checksums else []
  }

  ghost function ArtifactHashes(c: Content): set<string>
  {
    set f, h | f in FormatsOf(c) && h in Sha(f.checksums) :: h
  }

  ghost function EntryHashes(e: CollectionEntry): set<string>
  {
    set a, h | a in e.artifacts && h in ArtifactHashes(a.1) :: h
  }

  ghost function CollectionHashes(es: seq<CollectionEntry>): set<string>
  {
    set e, h | e in es && h in EntryHashes(e) :: h
  }

  ghost function DistributionHashes(ds: seq<(string, Content)>): set<string>
  {
    set d, h | d in ds && h in Sha(ChecksumsOf(d.1)) :: h
  }

  ghost function ReleaseHashes(rs: seq<ComponentReleaseEntry>): set<string>
  {
    set r, h | r in rs && h in DistributionHashes(r.distributions) :: h
  }

  /** Every SHA-256 digest the manifest refers to. */
  ghost function Expected(m: Manifest): set<string>
  {
    CollectionHashes(m.collections) + ReleaseHashes(m.componentReleases)
  }

  /** The digests a manifest refers to are those of SHA-256 checksums: of any format of any artifact of any
      collection, and of any distribution of any component release. */
  lemma ExpectedIff(m: Manifest, h: string)
    ensures h in Expected(m) <==>
              || (exists e, a, f :: e in m.collections && a in e.artifacts && a.1.Artifact? && f in a.1.formats
                    && Checksum("SHA-256", h) in f.checksums)
              || (exists r, d :: r in m.componentReleases && d in r.distributions && d.1.Distribution?
                    && Checksum("SHA-256", h) in d.1.checksums)
  {
    forall cs
      ensures h in Sha(cs) <==> Checksum("SHA-256", h) in cs
    {
    }
    if e, a, f :| e in m.collections && a in e.artifacts && a.1.Artifact? && f in a.1.formats
                  && Checksum("SHA-256", h) in f.checksums {
      assert f in FormatsOf(a.1) && h in ArtifactHashes(a.1) && h in EntryHashes(e);
    }
    if r, d :| r in m.componentReleases && d in r.distributions && d.1.Distribution?
               && Checksum("SHA-256", h) in d.1.checksums {
      assert h in Sha(ChecksumsOf(d.1)) && h in DistributionHashes(r.distributions);
    }
  }

  method CollectSHA256(hashes: set<string>, cs: seq<Checksum>) returns (out: set<string>)
    ensures out == hashes + Sha(cs)
  {
    out := hashes;
    for i := 0 to |cs|
      invariant out == hashes + Sha(cs[..i])
    {
      assert cs[..i + 1] == cs[..i] + [cs[i]];
      if cs[i].algType == SHA256 {
        out := out + {cs[i].algValue};
      }
    }
    assert cs[..|cs|] == cs;
  }

  method CollectArtifact(hashes: set<string>, c: Content) returns (out: set<string>)
    ensures out == hashes + ArtifactHashes(c)
  {
    out := hashes;
    var fs := FormatsOf(c);
    for i := 0 to |fs|
      invariant out == hashes + set f, h | f in fs[..i] && h in Sha(f.checksums) :: h
    {
      assert fs[..i + 1] == fs[..i] + [fs[i]];
      out := CollectSHA256(out, fs[i].checksums);
    }
    assert fs[..|fs|] == fs;
  }

  method CollectEntry(hashes: set<string>, e: CollectionEntry) returns (out: set<string>)
    ensures out == hashes + EntryHashes(e)
  {
    out := hashes;
    for i := 0 to |e.artifacts|
      invariant out == hashes + set a, h | a in e.artifacts[..i] && h in ArtifactHashes(a.1) :: h
    {
      assert e.artifacts[..i + 1] == e.artifacts[..i] + [e.artifacts[i]];
      out := CollectArtifact(out, e.artifacts[i].1);
    }
    assert e.artifacts[..|e.artifacts|] == e.artifacts;
  }

  method CollectFileHashes(hashes: set<string>, es: seq<CollectionEntry>) returns (out: set<string>)
    ensures out == hashes + CollectionHashes(es)
  {
    out := hashes;
    for i := 0 to |es|
      invariant out == hashes + CollectionHashes(es[..i])
    {
      assert es[..i + 1] == es[..i] + [es[i]];
      out := CollectEntry(out, es[i]);
    }
    assert es[..|es|] == es;
  }

  method CollectDistributionFileHashes(hashes: set<string>, ds: seq<(string, Content)>) returns (out: set<string>)
    ensures out == hashes + DistributionHashes(ds)
  {
    out := hashes;
    for i := 0 to |ds|
      invariant out == hashes + DistributionHashes(ds[..i])
    {
      assert ds[..i + 1] == ds[..i] + [ds[i]];
      out := CollectSHA256(out, ChecksumsOf(ds[i].1));
    }
    assert ds[..|ds|] == ds;
  }

  method ExpectedHashes(m: Manifest) returns (out: set<string>)
    ensures out == Expected(m)
  {
    out := CollectFileHashes({}, m.collections);
    var rs := m.componentReleases;
    for i := 0 to |rs|
      invariant out == CollectionHashes(m.collections) + ReleaseHashes(rs[..i])
    {
      assert rs[..i + 1] == rs[..i] + [rs[i]];
      out := CollectDistributionFileHashes(out, rs[i].distributions);
    }
    assert rs[..|rs|] == rs;
  }

  // ---------------------------------------------------------------- links

  ghost function ComponentUuids(m: Manifest): set<string>
  {
    set c | c in m.components :: c.uuid
  }

  ghost function ReleaseUuids(m: Manifest): set<string>
  {
    set r | r in m.componentReleases :: r.uuid
  }

  /** A product release's component link that names something the manifest does not carry. */
  ghost predicate Dangles(m: Manifest, l: ComponentLink)
  {
    l.component !in ComponentUuids(m) || (l.pinned.Some? && l.pinned.value !in ReleaseUuids(m))
  }

  ghost predicate NoDangling(m: Manifest)
  {
    forall p, l :: p in m.productReleases && l in p.components ==> !Dangles(m, l)
  }
}
