/** Which rules apply to a request: the stepwise expansion through the tables, and the containment
    of resources in scopes that it has to agree with. */
module AuthzStore {
  import opened Basics
  import opened Schema
  import opened Authz

  // ---------------------------------------------------------------- tables

  /** The things an entitlement can be scoped to. */
  datatype Node =
    | AllProducts
    | ProductGroup(uuid: string) | Product(uuid: string)
    | ReleaseGroup(uuid: string) | ProductRelease(uuid: string)
    | Component(uuid: string) | ComponentRelease(uuid: string)
    | Collection(uuid: string) | Artifact(uuid: string)

  datatype Entitlement = Entitlement(
    uuid: string, subject: SubjectType, subjectId: string, template: string, revision: int, scope: Node,
    active: bool, validFrom: Option<int>, validUntil: Option<int>)

  datatype Rule = Rule(template: string, revision: int, capability: string, artifactType: Option<string>,
                       verdict: Verdict)

  datatype Member = Member(group: string, uuid: string)

  /** Whose a collection version is. */
  datatype Ownership = Ownership(uuid: string, belongsTo: OwnerKind)

  datatype Reference = Reference(collection: string, artifact: string)

  datatype Db = Db(
    entitlements: seq<Entitlement>, rules: seq<Rule>,
    productGroups: seq<Member>, releaseGroups: seq<Member>,
    productReleases: map<string, string>, componentReleases: map<string, string>,
    collections: seq<Ownership>, references: seq<Reference>)

  /** Who asks for what, and when. An empty user is anonymous. */
  datatype Query = Query(user: string, capability: string, artifactType: string, now: int)

  /** A comparison with NULL is never true, so an unset artifact type meets only untyped rules. */
  predicate TypeMatches(rule: Option<string>, asked: string)
  {
    rule.None? || (asked != "" && rule.value == asked)
  }

  predicate SubjectMatches(e: Entitlement, user: string)
  {
    && (e.subject == Everyone || user != "")
    && (e.subject == PrincipalSubject ==> e.subjectId == user)
  }

  /** Validity is compared at whole seconds. */
  predicate InWindow(e: Entitlement, now: int)
  {
    && (e.validFrom.Some? ==> e.validFrom.value <= FloorSecond(now))
    && (e.validUntil.Some? ==> e.validUntil.value >= FloorSecond(now))
  }

  predicate Applies(e: Entitlement, r: Rule, q: Query)
  {
    && r.template == e.template && r.revision == e.revision
    && r.capability == q.capability
    && TypeMatches(r.artifactType, q.artifactType)
    && e.active && InWindow(e, q.now) && SubjectMatches(e, q.user)
  }

  /** The specificity of a scope. Components rank with products and component releases with
      product releases. */
  function Tier(n: Node): nat
  {
    match n
    case AllProducts => 0
    case ProductGroup(_) => 1
    case Product(_) => 2
    case Component(_) => 2
    case ReleaseGroup(_) => 3
    case ProductRelease(_) => 4
    case ComponentRelease(_) => 4
    case Collection(_) => 5
    case Artifact(_) => 6
  }

  function Candidate(e: Entitlement, r: Rule): CandidateRule
  {
    CandidateRule(e.uuid, e.template, e.revision, Tier(e.scope), e.subject, r.verdict)
  }

  // ---------------------------------------------------------------- containment

  /** The kind recorded on the first row of a collection's versions. */
  function FirstKind(rows: seq<Ownership>, uuid: string): Option<OwnerKind>
  {
    if rows == [] then None else if rows[0].uuid == uuid then Some(rows[0].belongsTo) else FirstKind(rows[1..], uuid)
  }

  /** A collection can be reached only while the release that owns it exists. */
  predicate CollectionLive(db: Db, uuid: string)
  {
    match FirstKind(db.collections, uuid)
    case None => false
    case Some(PRODUCT_RELEASE) => uuid in db.productReleases
    case Some(COMPONENT_RELEASE) => uuid in db.componentReleases
  }

  /** What directly contains what. */
  ghost predicate Parent(db: Db, x: Node, y: Node)
  {
    match x
    case AllProducts => false
    case ProductGroup(_) => false
    case ReleaseGroup(_) => false
    case Product(p) => y == AllProducts || (y.ProductGroup? && Member(y.uuid, p) in db.productGroups)
    case ProductRelease(r) =>
      || (r in db.productReleases && y == Product(db.productReleases[r]))
      || (y.ReleaseGroup? && Member(y.uuid, r) in db.releaseGroups)
    case Component(_) => y == AllProducts
    case ComponentRelease(r) => r in db.componentReleases && y == Component(db.componentReleases[r])
    case Collection(c) =>
      || (FirstKind(db.collections, c) == Some(PRODUCT_RELEASE) && y == ProductRelease(c))
      || (FirstKind(db.collections, c) == Some(COMPONENT_RELEASE) && y == ComponentRelease(c))
    case Artifact(a) =>
      || y == AllProducts
      || (y.Collection? && CollectionLive(db, y.uuid) && Reference(y.uuid, a) in db.references)
  }

  /** x lies in y: y is x, or contains something that directly contains x. */
  ghost predicate Within(db: Db, x: Node, y: Node)
    decreases Tier(x)
  {
    x == y || exists z :: Parent(db, x, z) && Tier(z) < Tier(x) && Within(db, z, y)
  }

  /** A resource can be checked when everything its expansion has to look up exists. Groups and the
      whole product set are scopes, never resources. */
  predicate NodeLive(db: Db, n: Node)
  {
    match n
    case ProductRelease(r) => r in db.productReleases
    case ComponentRelease(r) => r in db.componentReleases
    case Collection(c) => CollectionLive(db, c)
    case Product(_) => true
    case Component(_) => true
    case Artifact(_) => true
    case _ => false
  }

  /** What a check is made against; an artifact may be reached through one known collection. */
  datatype Resource = Direct(node: Node) | ArtifactVia(artifact: string, collection: string)

  ghost predicate Covers(db: Db, scope: Node, res: Resource)
  {
    match res
    case Direct(n) => Within(db, n, scope)
    case ArtifactVia(a, c) =>
      scope == AllProducts || scope == Artifact(a) || (CollectionLive(db, c) && Within(db, Collection(c), scope))
  }

  /** The entitlement's rule is in force for the query, and its scope contains the resource. */
  ghost predicate Governs(db: Db, q: Query, res: Resource, e: Entitlement, r: Rule)
  {
    e in db.entitlements && r in db.rules && Applies(e, r, q) && Covers(db, e.scope, res)
  }

  /** Every rule in force whose scope contains the resource. */
  ghost predicate InPolicy(db: Db, q: Query, res: Resource, c: CandidateRule)
  {
    exists e, r :: Governs(db, q, res, e, r) && c == Candidate(e, r)
  }

  // ---------------------------------------------------------------- expansion

  ghost predicate AtScope(db: Db, q: Query, scope: Node, c: CandidateRule)
  {
    exists e, r :: e in db.entitlements && r in db.rules && Applies(e, r, q) && e.scope == scope && c == Candidate(e, r)
  }

  /** The rules gathered at any of the scopes a predicate holds of. */
  ghost predicate Gathers(db: Db, q: Query, out: seq<CandidateRule>, scopes: iset<Node>)
  {
    forall c :: c in out <==> exists n :: n in scopes && AtScope(db, q, n, c)
  }

  lemma GathersUnion(db: Db, q: Query, a: seq<CandidateRule>, sa: iset<Node>, b: seq<CandidateRule>, sb: iset<Node>)
    requires Gathers(db, q, a, sa) && Gathers(db, q, b, sb)
    ensures Gathers(db, q, a + b, sa + sb)
  {
  }

  method RulesOfEntitlement(db: Db, q: Query, e: Entitlement) returns (out: seq<CandidateRule>)
    ensures forall c :: c in out <==> exists r :: r in db.rules && Applies(e, r, q) && c == Candidate(e, r)
  {
    out := [];
    for i := 0 to |db.rules|
      invariant forall c :: c in out <==> exists r :: r in db.rules[..i] && Applies(e, r, q) && c == Candidate(e, r)
    {
      assert db.rules[..i + 1] == db.rules[..i] + [db.rules[i]];
      if Applies(e, db.rules[i], q) {
        out := out + [Candidate(e, db.rules[i])];
      }
    }
    assert db.rules[..|db.rules|] == db.rules;
  }

  /** The one query every expansion step runs: entitlements at a scope joined with their rules. */
  method CandidateRulesAtScope(db: Db, q: Query, scope: Node) returns (out: seq<CandidateRule>)
    ensures Gathers(db, q, out, iset{scope})
  {
    out := [];
    for i := 0 to |db.entitlements|
      invariant forall c :: c in out ==> AtScope(db, q, scope, c)
      invariant forall k, r :: 0 <= k < i && db.entitlements[k].scope == scope && r in db.rules ==>
                  Applies(db.entitlements[k], r, q) ==> Candidate(db.entitlements[k], r) in out
    {
      var e := db.entitlements[i];
      if e.scope == scope {
        var joined := RulesOfEntitlement(db, q, e);
        forall c | c in joined
          ensures AtScope(db, q, scope, c)
        {
        }
        out := out + joined;
      }
    }
    forall c | AtScope(db, q, scope, c)
      ensures c in out
    {
      var e, r :| e in db.entitlements && r in db.rules && Applies(e, r, q) && e.scope == scope && c == Candidate(e, r);
      var k :| 0 <= k < |db.entitlements| && db.entitlements[k] == e;
    }
  }

  /** The groups a row set puts a uuid in. */
  method ListGroupsContaining(members: seq<Member>, uuid: string) returns (groups: seq<string>)
    ensures forall g :: g in groups <==> Member(g, uuid) in members
  {
    groups := [];
    for i := 0 to |members|
      invariant forall g :: g in groups <==> Member(g, uuid) in members[..i]
    {
      assert members[..i + 1] == members[..i] + [members[i]];
      if members[i].uuid == uuid {
        groups := groups + [members[i].group];
      }
    }
    assert members[..|members|] == members;
  }

  ghost function Ancestors(db: Db, x: Node): iset<Node>
  {
    iset y | Within(db, x, y)
  }

  lemma WithinRoot(db: Db, x: Node, y: Node)
    requires x.AllProducts? || x.ProductGroup? || x.ReleaseGroup?
    ensures Within(db, x, y) <==> x == y
  {
  }

  /** The scopes of x are x and the scopes of what directly contains it. */
  lemma AncestorsUnfold(db: Db, x: Node, y: Node)
    ensures Within(db, x, y) <==> x == y || exists z :: Parent(db, x, z) && Within(db, z, y)
  {
    forall z | Parent(db, x, z)
      ensures Tier(z) < Tier(x)
    {
    }
  }

  lemma AncestorsOfComponent(db: Db, u: string)
    ensures Ancestors(db, Component(u)) == iset{AllProducts} + iset{Component(u)}
  {
    assert Parent(db, Component(u), AllProducts);
    forall y
      ensures Within(db, Component(u), y) <==> y == AllProducts || y == Component(u)
    {
      AncestorsUnfold(db, Component(u), y);
      WithinRoot(db, AllProducts, y);
    }
  }

  method CandidateRulesForComponent(db: Db, q: Query, uuid: string) returns (out: seq<CandidateRule>)
    ensures Gathers(db, q, out, Ancestors(db, Component(uuid)))
  {
    var allProducts := CandidateRulesAtScope(db, q, AllProducts);
    var own := CandidateRulesAtScope(db, q, Component(uuid));
    out := allProducts + own;
    GathersUnion(db, q, allProducts, iset{AllProducts}, own, iset{Component(uuid)});
    AncestorsOfComponent(db, uuid);
  }

  lemma AncestorsOfComponentRelease(db: Db, u: string)
    requires u in db.componentReleases
    ensures Ancestors(db, ComponentRelease(u)) ==
            Ancestors(db, Component(db.componentReleases[u])) + iset{ComponentRelease(u)}
  {
  }

  method CandidateRulesForComponentRelease(db: Db, q: Query, uuid: string) returns (out: Option<seq<CandidateRule>>)
    ensures out.Some? <==> uuid in db.componentReleases
    ensures out.Some? ==> Gathers(db, q, out.value, Ancestors(db, ComponentRelease(uuid)))
  {
    if uuid !in db.componentReleases {
      return None;
    }
    var component := db.componentReleases[uuid];
    var inherited := CandidateRulesForComponent(db, q, component);
    var own := CandidateRulesAtScope(db, q, ComponentRelease(uuid));
    GathersUnion(db, q, inherited, Ancestors(db, Component(component)), own, iset{ComponentRelease(uuid)});
    AncestorsOfComponentRelease(db, uuid);
    return Some(inherited + own);
  }

  ghost function GroupsOf(members: seq<Member>, uuid: string): iset<string>
  {
    iset g | Member(g, uuid) in members
  }

  lemma AncestorsOfProduct(db: Db, u: string)
    ensures Ancestors(db, Product(u)) ==
            iset{AllProducts} + (iset g | g in GroupsOf(db.productGroups, u) :: ProductGroup(g)) + iset{Product(u)}
  {
    assert Parent(db, Product(u), AllProducts);
    forall y
      ensures Within(db, Product(u), y) <==>
                y == AllProducts || y == Product(u) || (y.ProductGroup? && Member(y.uuid, u) in db.productGroups)
    {
      AncestorsUnfold(db, Product(u), y);
      WithinRoot(db, AllProducts, y);
      forall g { WithinRoot(db, ProductGroup(g), y); }
    }
  }

  method CandidateRulesForProduct(db: Db, q: Query, uuid: string) returns (out: seq<CandidateRule>)
    ensures Gathers(db, q, out, Ancestors(db, Product(uuid)))
  {
    out := CandidateRulesAtScope(db, q, AllProducts);
    ghost var done := iset{AllProducts};
    var groups := ListGroupsContaining(db.productGroups, uuid);
    for i := 0 to |groups|
      invariant done == iset{AllProducts} + (iset g | g in groups[..i] :: ProductGroup(g))
      invariant Gathers(db, q, out, done)
    {
      var candidates := CandidateRulesAtScope(db, q, ProductGroup(groups[i]));
      GathersUnion(db, q, out, done, candidates, iset{ProductGroup(groups[i])});
      out := out + candidates;
      done := done + iset{ProductGroup(groups[i])};
      assert groups[..i + 1] == groups[..i] + [groups[i]];
    }
    assert groups[..|groups|] == groups;
    var own := CandidateRulesAtScope(db, q, Product(uuid));
    GathersUnion(db, q, out, done, own, iset{Product(uuid)});
    out := out + own;
    AncestorsOfProduct(db, uuid);
    assert done + iset{Product(uuid)} == Ancestors(db, Product(uuid));
  }

  lemma AncestorsOfRelease(db: Db, u: string)
    requires u in db.productReleases
    ensures Ancestors(db, ProductRelease(u)) ==
            Ancestors(db, Product(db.productReleases[u]))
            + (iset g | g in GroupsOf(db.releaseGroups, u) :: ReleaseGroup(g)) + iset{ProductRelease(u)}
  {
    var product := Product(db.productReleases[u]);
    assert Parent(db, ProductRelease(u), product);
    forall y
      ensures Within(db, ProductRelease(u), y) <==>
                || y == ProductRelease(u) || Within(db, product, y)
                || (y.ReleaseGroup? && Member(y.uuid, u) in db.releaseGroups)
    {
      AncestorsUnfold(db, ProductRelease(u), y);
      forall g { WithinRoot(db, ReleaseGroup(g), y); }
    }
  }

  method CandidateRulesForRelease(db: Db, q: Query, uuid: string) returns (r: Option<seq<CandidateRule>>)
    ensures r.Some? <==> uuid in db.productReleases
    ensures r.Some? ==> Gathers(db, q, r.value, Ancestors(db, ProductRelease(uuid)))
  {
    if uuid !in db.productReleases {
      return None;
    }
    var product := db.productReleases[uuid];
    var out := CandidateRulesForProduct(db, q, product);
    ghost var done := Ancestors(db, Product(product));
    var groups := ListGroupsContaining(db.releaseGroups, uuid);
    for i := 0 to |groups|
      invariant done == Ancestors(db, Product(product)) + (iset g | g in groups[..i] :: ReleaseGroup(g))
      invariant Gathers(db, q, out, done)
    {
      var candidates := CandidateRulesAtScope(db, q, ReleaseGroup(groups[i]));
      GathersUnion(db, q, out, done, candidates, iset{ReleaseGroup(groups[i])});
      out := out + candidates;
      done := done + iset{ReleaseGroup(groups[i])};
      assert groups[..i + 1] == groups[..i] + [groups[i]];
    }
    assert groups[..|groups|] == groups;
    var own := CandidateRulesAtScope(db, q, ProductRelease(uuid));
    GathersUnion(db, q, out, done, own, iset{ProductRelease(uuid)});
    AncestorsOfRelease(db, uuid);
    assert done + iset{ProductRelease(uuid)} == Ancestors(db, ProductRelease(uuid));
    return Some(out + own);
  }

  lemma AncestorsOfCollection(db: Db, c: string)
    requires CollectionLive(db, c)
    ensures Ancestors(db, Collection(c)) ==
            Ancestors(db, if FirstKind(db.collections, c) == Some(PRODUCT_RELEASE) then ProductRelease(c)
                          else ComponentRelease(c)) + iset{Collection(c)}
  {
  }

  method FirstKindOf(rows: seq<Ownership>, uuid: string) returns (kind: Option<OwnerKind>)
    ensures kind == FirstKind(rows, uuid)
  {
    for i := 0 to |rows|
      invariant FirstKind(rows, uuid) == FirstKind(rows[i..], uuid)
    {
      if rows[i].uuid == uuid {
        return Some(rows[i].belongsTo);
      }
      assert rows[i..][1..] == rows[i + 1..];
    }
    return None;
  }

  method CandidateRulesForCollection(db: Db, q: Query, uuid: string) returns (r: Option<seq<CandidateRule>>)
    ensures r.Some? <==> CollectionLive(db, uuid)
    ensures r.Some? ==> Gathers(db, q, r.value, Ancestors(db, Collection(uuid)))
  {
    var kind := FirstKindOf(db.collections, uuid);
    if kind.None? {
      return None;
    }
    if kind.value == PRODUCT_RELEASE {
      r := CandidateRulesForRelease(db, q, uuid);
    } else {
      r := CandidateRulesForComponentRelease(db, q, uuid);
    }
    if r.None? {
      return;
    }
    var own := CandidateRulesAtScope(db, q, Collection(uuid));
    ghost var owner := if kind.value == PRODUCT_RELEASE then ProductRelease(uuid) else ComponentRelease(uuid);
    GathersUnion(db, q, r.value, Ancestors(db, owner), own, iset{Collection(uuid)});
    AncestorsOfCollection(db, uuid);
    return Some(r.value + own);
  }

  ghost predicate ReachedThrough(db: Db, cs: seq<string>, y: Node)
  {
    exists c :: c in cs && CollectionLive(db, c) && Within(db, Collection(c), y)
  }

  /** The scopes an artifact reached through the given collections lies in. */
  ghost function ThroughCollections(db: Db, a: string, cs: seq<string>): iset<Node>
  {
    iset{AllProducts} + iset{Artifact(a)} + (iset y | ReachedThrough(db, cs, y))
  }

  method ListCollectionsContainingArtifact(db: Db, a: string) returns (cs: seq<string>)
    ensures forall c :: c in cs <==> Reference(c, a) in db.references
  {
    cs := [];
    for i := 0 to |db.references|
      invariant forall c :: c in cs <==> Reference(c, a) in db.references[..i]
    {
      assert db.references[..i + 1] == db.references[..i] + [db.references[i]];
      if db.references[i].artifact == a && db.references[i].collection !in cs {
        cs := cs + [db.references[i].collection];
      }
    }
    assert db.references[..|db.references|] == db.references;
  }

  lemma AncestorsOfArtifact(db: Db, a: string, cs: seq<string>)
    requires forall c :: c in cs <==> Reference(c, a) in db.references
    ensures Ancestors(db, Artifact(a)) == ThroughCollections(db, a, cs)
  {
    assert Parent(db, Artifact(a), AllProducts);
    forall y
      ensures Within(db, Artifact(a), y) <==> y == Artifact(a) || y == AllProducts || ReachedThrough(db, cs, y)
    {
      AncestorsUnfold(db, Artifact(a), y);
      WithinRoot(db, AllProducts, y);
      if ReachedThrough(db, cs, y) {
        var c :| c in cs && CollectionLive(db, c) && Within(db, Collection(c), y);
        assert Parent(db, Artifact(a), Collection(c));
      }
    }
  }

  /** An unreachable collection is passed over. */
  method CandidateRulesForArtifact(db: Db, q: Query, a: string, via: Option<string>) returns (out: seq<CandidateRule>)
    ensures via.None? ==> Gathers(db, q, out, Ancestors(db, Artifact(a)))
    ensures via.Some? ==> Gathers(db, q, out, ThroughCollections(db, a, [via.value]))
  {
    var allProducts := CandidateRulesAtScope(db, q, AllProducts);
    var own := CandidateRulesAtScope(db, q, Artifact(a));
    GathersUnion(db, q, allProducts, iset{AllProducts}, own, iset{Artifact(a)});
    out := allProducts + own;
    var cs: seq<string>;
    if via.Some? {
      cs := [via.value];
    } else {
      cs := ListCollectionsContainingArtifact(db, a);
    }
    ghost var done := iset{AllProducts} + iset{Artifact(a)};
    for i := 0 to |cs|
      invariant done == ThroughCollections(db, a, cs[..i])
      invariant Gathers(db, q, out, done)
    {
      assert cs[..i + 1] == cs[..i] + [cs[i]];
      var candidates := CandidateRulesForCollection(db, q, cs[i]);
      if candidates.Some? {
        GathersUnion(db, q, out, done, candidates.value, Ancestors(db, Collection(cs[i])));
        out := out + candidates.value;
        done := done + Ancestors(db, Collection(cs[i]));
      }
    }
    assert cs[..|cs|] == cs;
    if via.None? {
      AncestorsOfArtifact(db, a, cs);
    }
  }

  /** The dispatch on the kind of resource; None when it has no kind that can be checked, or
      something it must look up is missing. */
  method CandidateRules(db: Db, q: Query, res: Resource) returns (out: Option<seq<CandidateRule>>)
    ensures out.Some? <==> (res.Direct? ==> NodeLive(db, res.node))
    ensures out.Some? ==> forall c :: c in out.value <==> InPolicy(db, q, res, c)
  {
    match res {
      case ArtifactVia(a, c) =>
        var rules := CandidateRulesForArtifact(db, q, a, Some(c));
        out := Some(rules);
      case Direct(Artifact(a)) =>
        var rules := CandidateRulesForArtifact(db, q, a, None);
        out := Some(rules);
      case Direct(Collection(c)) =>
        out := CandidateRulesForCollection(db, q, c);
      case Direct(ProductRelease(r)) =>
        out := CandidateRulesForRelease(db, q, r);
      case Direct(Product(p)) =>
        var rules := CandidateRulesForProduct(db, q, p);
        out := Some(rules);
      case Direct(ComponentRelease(r)) =>
        out := CandidateRulesForComponentRelease(db, q, r);
      case Direct(Component(c)) =>
        var rules := CandidateRulesForComponent(db, q, c);
        out := Some(rules);
      case _ =>
        out := None;
    }
    if out.Some? {
      ScopesAreCovering(db, q, res, out.value, ScopesOf(db, res));
    }
  }

  /** The scopes the expansion gathers at. */
  ghost function ScopesOf(db: Db, res: Resource): iset<Node>
  {
    match res
    case Direct(n) => Ancestors(db, n)
    case ArtifactVia(a, c) => ThroughCollections(db, a, [c])
  }

  lemma ScopesAreCovering(db: Db, q: Query, res: Resource, out: seq<CandidateRule>, scopes: iset<Node>)
    requires scopes == ScopesOf(db, res)
    requires Gathers(db, q, out, scopes)
    ensures forall c :: c in out <==> InPolicy(db, q, res, c)
  {
    assert forall n :: n in scopes <==> Covers(db, n, res) by {
      if res.ArtifactVia? {
        assert forall c :: c in [res.collection] <==> c == res.collection;
      }
    }
    forall c
      ensures c in out <==> InPolicy(db, q, res, c)
    {
      if c in out {
        var n :| n in scopes && AtScope(db, q, n, c);
      }
      if InPolicy(db, q, res, c) {
        var e, r :| Governs(db, q, res, e, r) && c == Candidate(e, r);
        assert e.scope in scopes && AtScope(db, q, e.scope, c);
      }
    }
  }

  // ---------------------------------------------------------------- the decision

  /** The policy read off the entitlement table: some rule in force covers the resource, and no
      such rule denies unless another one is narrower. */
  ghost predicate PolicyAllows(db: Db, q: Query, res: Resource)
  {
    && (exists e, r :: Governs(db, q, res, e, r))
    && forall e, r :: Governs(db, q, res, e, r) && r.verdict == Deny ==>
         exists e', r' :: Governs(db, q, res, e', r') && Narrower(Candidate(e', r'), Candidate(e, r))
  }

  /** The engine over the store decides the policy; a missing resource is an error, which callers
      treat as a refusal. */
  method Authorize(db: Db, q: Query, res: Resource) returns (d: Option<Decision>)
    ensures d.Some? <==> (res.Direct? ==> NodeLive(db, res.node))
    ensures d.Some? ==> (d.value.allowed <==> PolicyAllows(db, q, res))
  {
    var candidates := CandidateRules(db, q, res);
    if candidates.None? {
      return None;
    }
    var decision := Decide(candidates.value);
    AllowedIsPolicy(db, q, res, Elements(candidates.value));
    return Some(decision);
  }

  lemma AllowedIsPolicy(db: Db, q: Query, res: Resource, s: set<CandidateRule>)
    requires forall c :: c in s <==> InPolicy(db, q, res, c)
    ensures Allowed(s) <==> PolicyAllows(db, q, res)
  {
    if Allowed(s) {
      AllowedImpliesPolicy(db, q, res, s);
    }
    if PolicyAllows(db, q, res) {
      PolicyImpliesAllowed(db, q, res, s);
    }
  }

  lemma AllowedImpliesPolicy(db: Db, q: Query, res: Resource, s: set<CandidateRule>)
    requires (forall c :: c in s <==> InPolicy(db, q, res, c)) && Allowed(s)
    ensures PolicyAllows(db, q, res)
  {
    var c :| c in s;
    var e, r :| Governs(db, q, res, e, r) && c == Candidate(e, r);
    forall e, r | Governs(db, q, res, e, r) && r.verdict == Deny
      ensures exists e', r' :: Governs(db, q, res, e', r') && Narrower(Candidate(e', r'), Candidate(e, r))
    {
      assert InPolicy(db, q, res, Candidate(e, r));
      assert !MostSpecific(Candidate(e, r), s);
      var x :| x in s && Narrower(x, Candidate(e, r));
      var e', r' :| Governs(db, q, res, e', r') && x == Candidate(e', r');
    }
  }

  lemma PolicyImpliesAllowed(db: Db, q: Query, res: Resource, s: set<CandidateRule>)
    requires forall c :: c in s <==> InPolicy(db, q, res, c)
    requires PolicyAllows(db, q, res)
    ensures Allowed(s)
  {
    forall e, r | Governs(db, q, res, e, r)
      ensures Candidate(e, r) in s
    {
      assert InPolicy(db, q, res, Candidate(e, r));
    }
    forall c | MostSpecific(c, s)
      ensures c.verdict == Allow
    {
      var e, r :| Governs(db, q, res, e, r) && c == Candidate(e, r);
    }
  }
}
