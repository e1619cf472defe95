/** The policy engine: ranking candidate rules and deciding. */
module Authz {
  import opened Basics

  datatype SubjectType = Everyone | Authenticated | PrincipalSubject

  datatype Verdict = Allow | Deny

  /** scope is the specificity tier, broadest (0) to narrowest (6). */
  datatype CandidateRule = CandidateRule(
    entitlement: string, template: string, revision: int, scope: nat, subject: SubjectType, verdict: Verdict)

  datatype Reason = NoApplicableRule | ExplicitDeny | ExplicitAllow

  datatype Decision = Decision(allowed: bool, reason: Reason, matched: Option<CandidateRule>)

  function SubjectRank(s: SubjectType): nat
  {
    match s case PrincipalSubject => 2 case Authenticated => 1 case Everyone => 0
  }

  /** One order: narrower resource scope first, then narrower subject. */
  predicate Narrower(a: CandidateRule, b: CandidateRule)
  {
    a.scope > b.scope || (a.scope == b.scope && SubjectRank(a.subject) > SubjectRank(b.subject))
  }

  ghost predicate MostSpecific(c: CandidateRule, s: set<CandidateRule>)
  {
    c in s && forall x :: x in s ==> !Narrower(x, c)
  }

  /** The declared policy: something applies, and nothing at the most specific tier denies. */
  ghost predicate Allowed(s: set<CandidateRule>)
  {
    s != {} && forall c :: MostSpecific(c, s) ==> c.verdict == Allow
  }

  method NarrowestByResourceScope(candidates: seq<CandidateRule>) returns (out: seq<CandidateRule>)
    requires candidates != []
    ensures out != []
    ensures forall c :: c in out <==> c in candidates && forall x :: x in candidates ==> x.scope <= c.scope
  {
    var maxScope := candidates[0].scope;
    for i := 1 to |candidates|
      invariant exists j :: 0 <= j < i && candidates[j].scope == maxScope
      invariant forall j :: 0 <= j < i ==> candidates[j].scope <= maxScope
    {
      if candidates[i].scope > maxScope {
        maxScope := candidates[i].scope;
      }
    }
    out := [];
    for i := 0 to |candidates|
      invariant forall c :: c in out ==> c in candidates && c.scope == maxScope
      invariant forall j :: 0 <= j < i && candidates[j].scope == maxScope ==> candidates[j] in out
    {
      if candidates[i].scope == maxScope {
        out := out + [candidates[i]];
      }
    }
  }

  method NarrowestBySubject(candidates: seq<CandidateRule>) returns (out: seq<CandidateRule>)
    requires candidates != []
    ensures out != []
    ensures forall c :: c in out <==>
              c in candidates && forall x :: x in candidates ==> SubjectRank(x.subject) <= SubjectRank(c.subject)
  {
    var maxRank := SubjectRank(candidates[0].subject);
    for i := 1 to |candidates|
      invariant exists j :: 0 <= j < i && SubjectRank(candidates[j].subject) == maxRank
      invariant forall j :: 0 <= j < i ==> SubjectRank(candidates[j].subject) <= maxRank
    {
      var r := SubjectRank(candidates[i].subject);
      if r > maxRank {
        maxRank := r;
      }
    }
    out := [];
    for i := 0 to |candidates|
      invariant forall c :: c in out ==> c in candidates && SubjectRank(c.subject) == maxRank
      invariant forall j :: 0 <= j < i && SubjectRank(candidates[j].subject) == maxRank ==> candidates[j] in out
    {
      if SubjectRank(candidates[i].subject) == maxRank {
        out := out + [candidates[i]];
      }
    }
  }

  /** The two narrowing passes and the deny scan decide exactly the declared policy, on the set of
      candidates alone, and name a most specific rule with the verdict they report. */
  method Decide(candidates: seq<CandidateRule>) returns (d: Decision)
    ensures d.allowed <==> Allowed(Elements(candidates))
    ensures candidates == [] <==> d.reason == NoApplicableRule
    ensures candidates != [] ==>
              && d.matched.Some?
              && MostSpecific(d.matched.value, Elements(candidates))
              && (d.matched.value.verdict == Allow <==> d.allowed)
              && d.reason == if d.allowed then ExplicitAllow else ExplicitDeny
  {
    if |candidates| == 0 {
      return Decision(false, NoApplicableRule, None);
    }
    assert candidates[0] in Elements(candidates);
    var atNarrowestScope := NarrowestByResourceScope(candidates);
    var final := NarrowestBySubject(atNarrowestScope);
    NarrowingIsLexicographic(candidates, atNarrowestScope, final);
    for i := 0 to |final|
      invariant forall j :: 0 <= j < i ==> final[j].verdict == Allow
    {
      if final[i].verdict == Deny {
        assert final[i] in final;
        return Decision(false, ExplicitDeny, Some(final[i]));
      }
    }
    assert final[0] in final;
    return Decision(true, ExplicitAllow, Some(final[0]));
  }

  /** Narrowing by scope and then by subject keeps exactly the lexicographically narrowest rules. */
  lemma NarrowingIsLexicographic(all: seq<CandidateRule>, byScope: seq<CandidateRule>, final: seq<CandidateRule>)
    requires byScope != []
    requires forall c :: c in byScope <==> c in all && forall x :: x in all ==> x.scope <= c.scope
    requires forall c :: c in final <==>
               c in byScope && forall x :: x in byScope ==> SubjectRank(x.subject) <= SubjectRank(c.subject)
    ensures forall c :: c in final <==> MostSpecific(c, Elements(all))
  {
    assert byScope[0] in byScope;
    forall c | MostSpecific(c, Elements(all))
      ensures c in final
    {
      forall x | x in all
        ensures x.scope <= c.scope && !Narrower(x, c)
      {
        assert x in Elements(all);
      }
      assert c in byScope;
      forall x | x in byScope
        ensures SubjectRank(x.subject) <= SubjectRank(c.subject)
      {
        assert c.scope <= x.scope;
      }
    }
  }

  /** Adding a deny never turns a refusal into permission. */
  lemma AddedDenyNeverAllows(s: set<CandidateRule>, d: CandidateRule)
    requires d.verdict == Deny && Allowed(s + {d})
    ensures Allowed(s)
  {
  }

  /** Adding an allow turns a refusal into permission exactly when it is narrower than every rule
      already there. */
  lemma AddedAllowMustBeNarrower(s: set<CandidateRule>, a: CandidateRule)
    requires a.verdict == Allow && !Allowed(s)
    ensures Allowed(s + {a}) <==> forall x :: x in s ==> Narrower(a, x)
  {
  }
}
