/** Which entitlements and rules can bear on a decision, read off their own columns. */
module AuthzEffect {
  import opened Basics
  import opened Authz
  import opened AuthzStore

  /** The entitlement cannot bear on the query: it is not active, is another's or asks for somebody to
      be signed in when nobody is, or its validity does not include the second of the query. */
  predicate Idle(e: Entitlement, q: Query)
  {
    || !e.active
    || (e.subject == PrincipalSubject && (q.user == "" || e.subjectId != q.user))
    || (e.subject == Authenticated && q.user == "")
    || (e.validFrom.Some? && e.validFrom.value > q.now - q.now % SECOND)
    || (e.validUntil.Some? && e.validUntil.value < q.now - q.now % SECOND)
  }

  /** The rule cannot bear on the query: it is about another capability or another artifact type. */
  predicate IdleRule(r: Rule, q: Query)
  {
    || r.capability != q.capability
    || (r.artifactType.Some? && (q.artifactType == "" || r.artifactType.value != q.artifactType))
  }

  predicate SameTemplate(e: Entitlement, r: Rule)
  {
    e.template == r.template && e.revision == r.revision
  }

  /** Containment does not depend on who is entitled to what. */
  lemma {:induction false} SameWithin(db: Db, db': Db, x: Node, y: Node)
    requires db' == db.(entitlements := db'.entitlements, rules := db'.rules)
    ensures Within(db, x, y) <==> Within(db', x, y)
    decreases Tier(x)
  {
    forall z | Parent(db, x, z) && Tier(z) < Tier(x)
      ensures Within(db, z, y) <==> Within(db', z, y)
    {
      SameWithin(db, db', z, y);
    }
  }

  lemma SameCovers(db: Db, db': Db, scope: Node, res: Resource)
    requires db' == db.(entitlements := db'.entitlements, rules := db'.rules)
    ensures Covers(db, scope, res) <==> Covers(db', scope, res)
  {
    SameWithin(db, db', if res.Direct? then res.node else Collection(res.collection), scope);
  }

  /** The two stores give the same answer, and the same error if something is missing. */
  ghost predicate SameAnswer(db: Db, db': Db, q: Query, res: Resource)
  {
    && (PolicyAllows(db, q, res) <==> PolicyAllows(db', q, res))
    && (res.Direct? ==> (NodeLive(db, res.node) <==> NodeLive(db', res.node)))
  }

  /** Taking away an entitlement that cannot bear on the query changes nothing: not one of another
      principal, nor one for the signed-in when nobody is, nor an inactive one, nor one out of its time. */
  lemma IdleEntitlementIsIgnored(db: Db, es: seq<Entitlement>, q: Query, res: Resource, idle: Entitlement)
    requires Idle(idle, q) && forall e :: e in es <==> e in db.entitlements && e != idle
    ensures SameAnswer(db, db.(entitlements := es), q, res)
  {
    var db' := db.(entitlements := es);
    forall e, r
      ensures Governs(db, q, res, e, r) <==> Governs(db', q, res, e, r)
    {
      SameCovers(db, db', e.scope, res);
    }
  }

  /** Taking away a rule of another capability or artifact type, or of a template revision nobody is
      entitled to, changes nothing. */
  lemma IdleRuleIsIgnored(db: Db, rs: seq<Rule>, q: Query, res: Resource, idle: Rule)
    requires IdleRule(idle, q) || forall e :: e in db.entitlements ==> !SameTemplate(e, idle)
    requires forall r :: r in rs <==> r in db.rules && r != idle
    ensures SameAnswer(db, db.(rules := rs), q, res)
  {
    var db' := db.(rules := rs);
    forall e, r
      ensures Governs(db, q, res, e, r) <==> Governs(db', q, res, e, r)
    {
      SameCovers(db, db', e.scope, res);
    }
  }

  /** One entitlement with one allow rule permits exactly when both bear on the query, belong together,
      and the scope contains the resource. */
  lemma LoneAllow(db: Db, q: Query, res: Resource, e: Entitlement, r: Rule)
    requires db.entitlements == [e] && db.rules == [r] && r.verdict == Allow
    ensures PolicyAllows(db, q, res) <==>
              !Idle(e, q) && !IdleRule(r, q) && SameTemplate(e, r) && Covers(db, e.scope, res)
  {
    if !Idle(e, q) && !IdleRule(r, q) && SameTemplate(e, r) && Covers(db, e.scope, res) {
      assert Governs(db, q, res, e, r);
    }
  }

  /** From the broadest scope to the narrowest; components rank with products, and their releases with
      product releases. */
  predicate Broader(a: Node, b: Node)
  {
    match a
    case AllProducts => !b.AllProducts?
    case ProductGroup(_) => !b.AllProducts? && !b.ProductGroup?
    case Product(_) => b.ReleaseGroup? || b.ProductRelease? || b.ComponentRelease? || b.Collection? || b.Artifact?
    case Component(_) => b.ReleaseGroup? || b.ProductRelease? || b.ComponentRelease? || b.Collection? || b.Artifact?
    case ReleaseGroup(_) => b.ProductRelease? || b.ComponentRelease? || b.Collection? || b.Artifact?
    case ProductRelease(_) => b.Collection? || b.Artifact?
    case ComponentRelease(_) => b.Collection? || b.Artifact?
    case Collection(_) => b.Artifact?
    case Artifact(_) => false
  }

  predicate BroaderSubject(a: SubjectType, b: SubjectType)
  {
    (a == Everyone && b != Everyone) || (a == Authenticated && b == PrincipalSubject)
  }

  /** Of one deny and one allow that both govern the resource, the allow prevails exactly when its scope
      is narrower, or neither scope is and its subject is narrower. */
  lemma DenyAgainstAllow(db: Db, q: Query, res: Resource, deny: Entitlement, d: Rule, allow: Entitlement, a: Rule)
    requires db.entitlements == [deny, allow] && db.rules == [d, a]
    requires d.verdict == Deny && a.verdict == Allow && d.template != a.template
    requires Governs(db, q, res, deny, d) && Governs(db, q, res, allow, a)
    ensures PolicyAllows(db, q, res) <==>
              || Broader(deny.scope, allow.scope)
              || (!Broader(allow.scope, deny.scope) && BroaderSubject(deny.subject, allow.subject))
  {
    OutranksIs(deny, d, allow, a);
  }

  lemma OutranksIs(e: Entitlement, r: Rule, e': Entitlement, r': Rule)
    ensures Narrower(Candidate(e', r'), Candidate(e, r)) <==>
              Broader(e.scope, e'.scope) || (!Broader(e'.scope, e.scope) && BroaderSubject(e.subject, e'.subject))
  {
  }
}
