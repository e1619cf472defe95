/** The files of a bundle: what the standalone checker reports and what an import accepts. The digest
    is an uninterpreted function. */
module BundleFiles {
  import opened Basics

  import opened BundleManifest

  /** The checker reports exactly the links that dangle. */
  method CheckDanglingReferences(m: Manifest) returns (dangling: set<(string, ComponentLink)>)
    ensures forall x :: x in dangling <==>
              exists p :: p in m.productReleases && p.uuid == x.0 && x.1 in p.components && Dangles(m, x.1)
    ensures dangling == {} <==> NoDangling(m)
  {
    var components, releases := CollectUuids(m);
    dangling := {};
    for i := 0 to |m.productReleases|
      invariant forall x :: x in dangling <==> DanglesIn(m, m.productReleases[..i], x)
    {
      var found := DanglingOf(m, m.productReleases[i], components, releases);
      assert m.productReleases[..i + 1] == m.productReleases[..i] + [m.productReleases[i]];
      dangling := dangling + found;
    }
    assert m.productReleases[..|m.productReleases|] == m.productReleases;
    NothingDangles(m, dangling);
  }

  ghost predicate DanglesIn(m: Manifest, ps: seq<ProductReleaseEntry>, x: (string, ComponentLink))
  {
    exists p :: p in ps && p.uuid == x.0 && x.1 in p.components && Dangles(m, x.1)
  }

  lemma NothingDangles(m: Manifest, dangling: set<(string, ComponentLink)>)
    requires forall x :: x in dangling <==> DanglesIn(m, m.productReleases, x)
    ensures dangling == {} <==> NoDangling(m)
  {
    forall p, l | p in m.productReleases && l in p.components && Dangles(m, l)
      ensures (p.uuid, l) in dangling
    {
      assert DanglesIn(m, m.productReleases, (p.uuid, l));
    }
  }

  method CollectUuids(m: Manifest) returns (components: set<string>, releases: set<string>)
    ensures components == ComponentUuids(m)
    ensures releases == ReleaseUuids(m)
  {
    components, releases := {}, {};
    for i := 0 to |m.components|
      invariant components == set c | c in m.components[..i] :: c.uuid
    {
      assert m.components[..i + 1] == m.components[..i] + [m.components[i]];
      components := components + {m.components[i].uuid};
    }
    assert m.components[..|m.components|] == m.components;
    for i := 0 to |m.componentReleases|
      invariant releases == set r | r in m.componentReleases[..i] :: r.uuid
    {
      assert m.componentReleases[..i + 1] == m.componentReleases[..i] + [m.componentReleases[i]];
      releases := releases + {m.componentReleases[i].uuid};
    }
    assert m.componentReleases[..|m.componentReleases|] == m.componentReleases;
  }

  method DanglingOf(m: Manifest, p: ProductReleaseEntry, components: set<string>, releases: set<string>)
    returns (dangling: set<(string, ComponentLink)>)
    requires components == ComponentUuids(m) && releases == ReleaseUuids(m)
    ensures forall x :: x in dangling <==> x.0 == p.uuid && x.1 in p.components && Dangles(m, x.1)
  {
    dangling := {};
    for j := 0 to |p.components|
      invariant forall x :: x in dangling <==> x.0 == p.uuid && x.1 in p.components[..j] && Dangles(m, x.1)
    {
      var l := p.components[j];
      assert p.components[..j + 1] == p.components[..j] + [l];
      if l.component !in components || (l.pinned.Some? && l.pinned.value !in releases) {
        dangling := dangling + {(p.uuid, l)};
      }
    }
    assert p.components[..|p.components|] == p.components;
  }

  // ---------------------------------------------------------------- archives

  datatype Entry = Entry(name: string, data: string)

  const PREFIX := "files/"

  /** The digest a file entry claims. */
  function Claimed(e: Entry): string
    requires PREFIX <= e.name
  {
    e.name[|PREFIX|..]
  }

  /** Every file entry is within the size limit. */
  ghost predicate SizesOk(entries: seq<Entry>, max: nat)
  {
    forall e :: e in entries && PREFIX <= e.name ==> |e.data| <= max
  }

  datatype Report = Report(mismatches: set<string>, missing: set<string>, orphans: set<string>)

  predicate Clean(r: Report) { r.mismatches == {} && r.missing == {} }

  ghost function PresentAll(entries: seq<Entry>): set<string>
  {
    set e | e in entries && PREFIX <= e.name :: Claimed(e)
  }

  /** The files whose content does not match their name. */
  ghost function Misnamed(entries: seq<Entry>, sha: string -> string): set<string>
  {
    set e | e in entries && PREFIX <= e.name && sha(e.data) != Claimed(e) :: e.name
  }

  /** The standalone checker: every entry under files/ is read and compared with its name. */
  method CheckFileHashes(entries: seq<Entry>, m: Manifest, sha: string -> string, max: nat) returns (r: Option<Report>)
    ensures r.Some? <==> SizesOk(entries, max)
    ensures r.None? || ReportOf(entries, m, sha, r.value)
  {
    var expected := ExpectedHashes(m);
    var present: set<string> := {};
    var mismatches: set<string> := {};
    for i := 0 to |entries|
      invariant SizesOk(entries[..i], max)
      invariant present == PresentAll(entries[..i])
      invariant mismatches == Misnamed(entries[..i], sha)
    {
      var e := entries[i];
      assert entries[..i + 1] == entries[..i] + [e];
      if PREFIX <= e.name {
        present := present + {Claimed(e)};
        if |e.data| > max {
          assert e in entries;
          return None;
        }
        if sha(e.data) != Claimed(e) {
          mismatches := mismatches + {e.name};
        }
      }
    }
    assert entries[..|entries|] == entries;
    return Some(Report(mismatches, expected - present, present - expected));
  }

  /** The importer skips an entry named exactly files/. */
  predicate ImportsAsFile(e: Entry)
  {
    |e.name| > |PREFIX| && PREFIX <= e.name
  }

  ghost function Served(entries: seq<Entry>): set<string>
  {
    set e | e in entries && ImportsAsFile(e) :: Claimed(e)
  }

  method MissingFileHashes(entries: seq<Entry>, m: Manifest) returns (missing: set<string>)
    ensures missing == Expected(m) - Served(entries)
  {
    var expected := ExpectedHashes(m);
    var present: set<string> := {};
    for i := 0 to |entries|
      invariant present == Served(entries[..i])
    {
      assert entries[..i + 1] == entries[..i] + [entries[i]];
      if ImportsAsFile(entries[i]) {
        present := present + {Claimed(entries[i])};
      }
    }
    assert entries[..|entries|] == entries;
    return expected - present;
  }

  /** Stores each file under its real digest; fails on the first that is too large or misnamed.
      Returns the digests now served. */
  method ImportBlobs(entries: seq<Entry>, sha: string -> string, max: nat) returns (served: Option<set<string>>)
    ensures served.Some? <==>
              forall e :: e in entries && ImportsAsFile(e) ==> |e.data| <= max && sha(e.data) == Claimed(e)
    ensures served.Some? ==> served.value == Served(entries)
  {
    var out: set<string> := {};
    for i := 0 to |entries|
      invariant forall e :: e in entries[..i] && ImportsAsFile(e) ==> |e.data| <= max && sha(e.data) == Claimed(e)
      invariant out == Served(entries[..i])
    {
      var e := entries[i];
      assert entries[..i + 1] == entries[..i] + [e];
      if ImportsAsFile(e) {
        if |e.data| > max || sha(e.data) != Claimed(e) {
          assert e in entries;
          return None;
        }
        out := out + {sha(e.data)};
      }
    }
    assert entries[..|entries|] == entries;
    return Some(out);
  }

  /** The file stage of a checked import: nothing missing, and every file is what its name says. */
  method ImportFileStage(entries: seq<Entry>, m: Manifest, sha: string -> string, max: nat) returns (ok: bool)
    ensures ok <==> FilesImport(entries, m, sha, max)
  {
    var missing := MissingFileHashes(entries, m);
    if missing != {} {
      assert exists h :: h in missing && h in Expected(m) && h !in Served(entries);
      return false;
    }
    assert forall h :: h in Expected(m) && h !in Served(entries) ==> h in missing;
    var served := ImportBlobs(entries, sha, max);
    return served.Some?;
  }

  ghost predicate FilesImport(entries: seq<Entry>, m: Manifest, sha: string -> string, max: nat)
  {
    && Expected(m) <= Served(entries)
    && forall e :: e in entries && ImportsAsFile(e) ==> |e.data| <= max && sha(e.data) == Claimed(e)
  }

  /** What the checker's report is, as CheckFileHashes promises it. */
  ghost predicate ReportOf(entries: seq<Entry>, m: Manifest, sha: string -> string, r: Report)
  {
    && r.mismatches == Misnamed(entries, sha)
    && r.missing == Expected(m) - PresentAll(entries)
    && r.orphans == PresentAll(entries) - Expected(m)
  }

  /** For archives within the size limit the importer's file stage and the checker agree unless some
      entry is named exactly files/. Such an entry always makes the checker complain, and the
      importer never sees it. */
  lemma CheckerAgreesWithImport(entries: seq<Entry>, m: Manifest, sha: string -> string, max: nat, r: Report)
    requires SizesOk(entries, max) && ReportOf(entries, m, sha, r)
    requires forall d :: sha(d) != ""
    ensures (forall e :: e in entries ==> e.name != PREFIX) ==> (Clean(r) <==> FilesImport(entries, m, sha, max))
    ensures (exists e :: e in entries && e.name == PREFIX) ==> !Clean(r)
  {
    if forall e :: e in entries ==> e.name != PREFIX {
      forall e | e in entries
        ensures PREFIX <= e.name <==> ImportsAsFile(e)
      {
        assert PREFIX <= e.name && |e.name| == |PREFIX| ==> e.name == PREFIX;
      }
      assert PresentAll(entries) == Served(entries);
      CleanIffMatching(entries, m, sha, r);
    }
    if e :| e in entries && e.name == PREFIX {
      assert Claimed(e) == "";
      assert e.name in Misnamed(entries, sha);
    }
  }

  lemma CleanIffMatching(entries: seq<Entry>, m: Manifest, sha: string -> string, r: Report)
    requires ReportOf(entries, m, sha, r)
    ensures Clean(r) <==>
              && Expected(m) <= PresentAll(entries)
              && forall e :: e in entries && PREFIX <= e.name ==> sha(e.data) == Claimed(e)
  {
    if Clean(r) {
      forall e | e in entries && PREFIX <= e.name
        ensures sha(e.data) == Claimed(e)
      {
        assert e.name !in Misnamed(entries, sha);
      }
      assert forall h :: h in Expected(m) ==> h !in r.missing;
    }
  }

  /** Adding or removing an entry named exactly files/ does not change what the importer does. */
  lemma BareEntryIsIgnored(entries: seq<Entry>, e: Entry, m: Manifest, sha: string -> string, max: nat)
    requires e.name == PREFIX
    ensures FilesImport(entries + [e], m, sha, max) <==> FilesImport(entries, m, sha, max)
  {
  }
}
