/** What each draft operation answers, read off the draft's own columns. */
module DraftRules {
  import opened Basics
  import opened Schema
  import opened Draft
  import opened DraftRuns

  /** A put is refused for a release or artifact that does not exist, then for a lock that has not run
      out, then for a revision other than the caller expects; no draft counts as revision 0. */
  lemma PutRefusals(s: Store, o: Owner, actor: string, credential: string, refs: seq<ArtifactRef>,
                    reason: Option<UpdateReason>, ttl: int, expected: Option<int>, tLock: int, tExpiry: int)
    ensures ErrorOf(Put(s, o, actor, credential, refs, reason, ttl, expected, tLock, tExpiry).result) ==
            if o !in s.releases || (exists r :: r in refs && r !in s.artifacts) then Some(NotFound)
            else if o in s.drafts && s.drafts[o].lockExpiresAt.Some? && s.drafts[o].lockExpiresAt.value > tLock
            then Some(DraftLocked)
            else if expected.Some? && expected.value != (if o in s.drafts then s.drafts[o].revision else 0)
            then Some(RevisionConflict)
            else None
  {
  }

  /** A put that goes through raises the revision by one and takes back approval and lock. */
  lemma PutResets(s: Store, o: Owner, actor: string, credential: string, refs: seq<ArtifactRef>,
                  reason: Option<UpdateReason>, ttl: int, expected: Option<int>, tLock: int, tExpiry: int)
    requires Put(s, o, actor, credential, refs, reason, ttl, expected, tLock, tExpiry).result.Ok?
    ensures var row := Put(s, o, actor, credential, refs, reason, ttl, expected, tLock, tExpiry).store.drafts[o];
      && row.revision == (if o in s.drafts then s.drafts[o].revision else 0) + 1
      && row.expiresAt <= tExpiry + ttl < row.expiresAt + SECOND
      && row.approval == Undecided && row.approvalExpiresAt.None? && row.decidedBy.None?
      && row.lockExpiresAt.None? && row.lockDate.None?
  {
  }

  /** A decision is refused without a draft, then under a lock that has not run out, then to the drafter
      and to the drafter's credential. */
  lemma DecisionRefusals(s: Store, o: Owner, actor: string, credential: string, comment: string, approve: bool,
                         ttl: int, tLock: int, tExpiry: int, tAt: int)
    ensures ErrorOf(Decide(s, o, actor, credential, comment, approve, ttl, tLock, tExpiry, tAt).result) ==
            if o !in s.drafts then Some(NotFound)
            else if s.drafts[o].lockExpiresAt.Some? && s.drafts[o].lockExpiresAt.value > tLock then Some(DraftLocked)
            else if actor == s.drafts[o].draftedBy then Some(SelfApproval)
            else if credential != "" && s.drafts[o].draftedByCredential == Some(credential) then Some(SelfApproval)
            else None
  {
  }

  /** A decision that goes through is stored as what it was, at the draft's revision, by whom it was;
      only an approval gets an expiry. The content, the lock and the revision stay. */
  lemma DecisionIsStored(s: Store, o: Owner, actor: string, credential: string, comment: string, approve: bool,
                         ttl: int, tLock: int, tExpiry: int, tAt: int)
    requires Decide(s, o, actor, credential, comment, approve, ttl, tLock, tExpiry, tAt).result.Ok?
    ensures var s' := Decide(s, o, actor, credential, comment, approve, ttl, tLock, tExpiry, tAt).store;
      var row, row' := s.drafts[o], s'.drafts[o];
      && (row'.approval == Approved <==> approve) && (row'.approval == Rejected <==> !approve)
      && row'.decidedBy == Some(actor) && OrEmpty(row'.decidedByCredential) == credential
      && row'.decidedAtRevision == Some(row.revision) && row'.revision == row.revision
      && (row'.approvalExpiresAt.Some? <==> approve) && OrEmpty(row'.approvalComment) == comment
      && (approve ==> row'.approvalExpiresAt.value <= tExpiry + ttl < row'.approvalExpiresAt.value + SECOND)
      && row'.lockExpiresAt == row.lockExpiresAt && row'.lockDate == row.lockDate
      && DraftRefs(s', o) == DraftRefs(s, o)
  {
  }

  /** A prepare is refused without a draft; then unless the draft is approved, at its own revision, and
      the approval has not run out; then if a listed artifact does not exist. Nothing else stops it. */
  lemma PrepareRefusals(s: Store, o: Owner, ttl: int, tApproval: int, tDate: int, tLock: int)
    ensures ErrorOf(Prepare(s, o, ttl, tApproval, tDate, tLock).result) ==
            if o !in s.drafts then Some(NotFound)
            else if !(&& s.drafts[o].approval == Approved && s.drafts[o].decidedAtRevision == Some(s.drafts[o].revision)
                      && s.drafts[o].approvalExpiresAt.Some? && s.drafts[o].approvalExpiresAt.value > tApproval)
            then Some(ApprovalRequired)
            else if exists r :: r in DraftRefs(s, o) && r !in s.artifacts then Some(NotFound)
            else None
  {
  }

  /** Every prepare of every run rests on an approval of the draft as it is, by someone other than the
      drafter, that has not run out when the prepare looks at it. */
  lemma PrepareIsApproved(run: Run, r: nat)
    requires ValidRun(run) && r < |run.events| && run.events[r].EPrepare? && Succeeds(run, r)
    ensures exists a: nat :: ApprovalOrigin(run, a, r, run.events[r].o) && UnexpiredAt(run.events[a], run.events[r].t0)
  {
    var e, s := run.events[r], run.stores[r];
    assert StepsAt(run, r);
    PrepareRefusals(s, e.o, e.ttl, e.t0, e.t1, e.t2);
    FindApproval(run, r, e.o);
    var a: nat :| ApprovalOrigin(run, a, r, e.o);
    assert UnexpiredAt(run.events[a], e.t0);
  }

  /** The approval given by e, whose expiry is kept to the second, lasts beyond t. */
  ghost predicate UnexpiredAt(e: Event, t: int)
  {
    e.EDecide? && FloorSecond(e.t1 + e.ttl) > t
  }

  /** A cancel goes on only while a lock is held. */
  lemma CancelRefusals(s: Store, o: Owner, tLock: int)
    ensures ErrorOf(CancelRead(s, o, tLock)) ==
            if o !in s.drafts then Some(NotFound)
            else if s.drafts[o].lockExpiresAt.Some? && s.drafts[o].lockExpiresAt.value > tLock then None
            else Some(LockNotHeld)
  {
  }

  /** Evidence once bound to a certificate stays as it is, whatever happens. */
  lemma EvidenceIsPermanent(s: Store, e: Event)
    ensures forall f :: f in s.evidence ==>
              f in Step(s, e).store.evidence && Step(s, e).store.evidence[f] == s.evidence[f]
  {
    if e.ECommit? && Step(s, e).error.None? {
      CommitStore(s, e.o, e.input, e.t0, e.t1);
    }
  }
}
