/** What is signed and what is published: the commit handler peeks, checks the signature over what it
    saw, and commits as a separate step, with anything in between. */
module DraftSigning {
  import opened Basics
  import opened Schema
  import opened Draft
  import opened DraftRuns
  import opened DraftLock
  import DraftRepo

  // ---------------------------------------------------------------- the statements of a peek

  /** The statements of one peek see stores of the run in order, none later than instant n. */
  ghost predicate Schedule(stores: seq<Store>, at: nat -> nat, n: nat)
  {
    && n < |stores|
    && (forall k: nat :: at(k) <= n)
    && (forall j: nat, k: nat :: j <= k ==> at(j) <= at(k))
  }

  /** What a peek saw: the draft's row, then its artifact list, then each artifact, then the highest
      version, each at its own instant. */
  ghost predicate PeekedAt(stores: seq<Store>, at: nat -> nat, o: Owner, t0: int, t1: int, w: Collection)
    requires forall k: nat :: at(k) < |stores|
  {
    var refs := DraftRefs(stores[at(1)], o);
    && o in stores[at(0)].drafts
    && var row := stores[at(0)].drafts[o];
    && LockHeld(row, t0)
    && ApprovalCurrent(row, t1)
    && row.lockDate == Some(w.date)
    && w.reason == ReadReason(row.reasonKind, row.reasonComment)
    && w.belongsTo == o.kind
    && Refs(w.artifacts) == refs
    && (forall i :: 0 <= i < |refs| ==> ArtifactAt(stores[at(2 + i)], refs[i], w.artifacts[i]))
    && w.key == CollectionKey(o.uuid, NextVersion(stores[at(2 + |refs|)].collections, o.uuid))
  }

  ghost predicate ArtifactAt(s: Store, ref: ArtifactRef, a: Artifact)
  {
    ref in s.artifacts && a == Artifact(ref, s.artifacts[ref])
  }

  method PeekCollectionDraftCommit(stores: seq<Store>, at: nat -> nat, o: Owner, tLock: int, tApproval: int)
    returns (r: Result<Collection, Error>)
    requires forall k: nat :: at(k) < |stores|
    ensures r.Ok? ==> PeekedAt(stores, at, o, tLock, tApproval, r.value)
    ensures r.Err? ==> forall w :: !PeekedAt(stores, at, o, tLock, tApproval, w)
    ensures o !in stores[at(0)].drafts ==> r == Err(NotFound)
    ensures o in stores[at(0)].drafts && !LockHeld(stores[at(0)].drafts[o], tLock) ==> r == Err(LockNotHeld)
    ensures (&& o in stores[at(0)].drafts && LockHeld(stores[at(0)].drafts[o], tLock)
             && !ApprovalCurrent(stores[at(0)].drafts[o], tApproval)) ==> r == Err(ApprovalRequired)
  {
    if o !in stores[at(0)].drafts {
      return Err(NotFound);
    }
    var row := stores[at(0)].drafts[o];
    if !LockHeld(row, tLock) {
      return Err(LockNotHeld);
    }
    if row.approval != Approved || row.decidedAtRevision != Some(row.revision) || row.approvalExpiresAt.None?
       || !(row.approvalExpiresAt.value > tApproval) {
      return Err(ApprovalRequired);
    }
    var refs := DraftRefs(stores[at(1)], o);
    var artifacts: seq<Artifact> := [];
    for i := 0 to |refs|
      invariant |artifacts| == i
      invariant forall j :: 0 <= j < i ==> ArtifactAt(stores[at(2 + j)], refs[j], artifacts[j])
    {
      if refs[i] !in stores[at(2 + i)].artifacts {
        return Err(NotFound);
      }
      artifacts := artifacts + [Artifact(refs[i], stores[at(2 + i)].artifacts[refs[i]])];
    }
    var version := DraftRepo.NextCollectionVersion(stores[at(2 + |refs|)].collections, o.uuid);
    if row.lockDate.None? {
      return Err(LockWithoutDate);
    }
    assert Refs(artifacts) == refs;
    r := Ok(Collection(CollectionKey(o.uuid, version), row.lockDate.value, o.kind, artifacts,
                       ReadReason(row.reasonKind, row.reasonComment)));
  }

  /** A peek whose statements all see one state answers what that state's would-be collection is. */
  lemma OneInstantIsPeek(stores: seq<Store>, n: nat, o: Owner, t0: int, t1: int, w: Collection)
    requires n < |stores|
    ensures PeekedAt(stores, k => n, o, t0, t1, w) <==> Peek(stores[n], o, t0, t1) == Ok(w)
  {
    var s, at := stores[n], (k: nat) => n;
    var refs := DraftRefs(s, o);
    if PeekedAt(stores, at, o, t0, t1, w) {
      forall i | 0 <= i < |refs|
        ensures ArtifactAt(s, refs[i], w.artifacts[i])
      {
        assert ArtifactAt(stores[at(2 + i)], refs[i], w.artifacts[i]);
      }
      assert AllExist(s.artifacts, refs);
      assert w.artifacts == Resolve(s.artifacts, refs);
    }
    if Peek(s, o, t0, t1) == Ok(w) {
      ResolveRefs(s.artifacts, refs);
      assert PeekedAt(stores, at, o, t0, t1, w);
    }
  }

  /** While the lock is undisturbed it does not matter when the statements run: whatever a peek
      answers is what the prepare answered. */
  lemma PeekedIsPrepared(run: Run, r: nat, n: nat, at: nat -> nat, t0: int, t1: int, w: Collection)
    requires ValidRun(run) && r < n <= |run.events| && run.events[r].EPrepare? && Succeeds(run, r)
    requires Undisturbed(run, r, n, run.events[r].o, DraftRefs(run.stores[r], run.events[r].o))
    requires run.clocks[n] < LockEnd(run.events[r])
    requires Schedule(run.stores, at, n) && r < at(0) && PeekedAt(run.stores, at, run.events[r].o, t0, t1, w)
    ensures run.outcomes[r].answer == Some(w)
  {
    var o, s := run.events[r].o, run.stores[r + 1];
    PreparedAt(run, r);
    forall k: nat
      ensures SameWouldBe(s, run.stores[at(k)], o)
    {
      assert at(0) <= at(k);
      ClockMonotone(run, at(k), n);
      FrozenSince(run, r, at(k));
    }
    FrozenPeek(s, run.stores, at, o, t0, t1, w);
    AnsweredAsPeeked(run, r, t0, t1, w);
  }

  lemma AnsweredAsPeeked(run: Run, r: nat, t0: int, t1: int, w: Collection)
    requires ValidRun(run) && r < |run.events| && run.events[r].EPrepare? && Succeeds(run, r)
    requires Peek(run.stores[r + 1], run.events[r].o, t0, t1) == Ok(w)
    ensures run.outcomes[r].answer == Some(w)
  {
    assert StepsAt(run, r);
  }

  /** Statements that all see the same draft, artifacts and versions see what one instant shows. */
  lemma FrozenPeek(s: Store, stores: seq<Store>, at: nat -> nat, o: Owner, t0: int, t1: int, w: Collection)
    requires forall k: nat :: at(k) < |stores| && SameWouldBe(s, stores[at(k)], o)
    requires PeekedAt(stores, at, o, t0, t1, w) && o in s.drafts && AllExist(s.artifacts, DraftRefs(s, o))
    ensures Peek(s, o, t0, t1) == Ok(w)
  {
    var refs := DraftRefs(s, o);
    assert SameDraft(s, stores[at(0)], o) && SameDraft(s, stores[at(1)], o);
    forall i | 0 <= i < |refs|
      ensures w.artifacts[i] == Artifact(refs[i], s.artifacts[refs[i]])
    {
      assert SameWouldBe(s, stores[at(2 + i)], o);
      assert ArtifactAt(stores[at(2 + i)], refs[i], w.artifacts[i]);
    }
    assert w.artifacts == Resolve(s.artifacts, refs);
  }

  // ---------------------------------------------------------------- signed and published

  /** Everything the peek saw is as it is when the commit runs: the date the lock fixed, the reason,
      the artifact list, each listed artifact and the next version number. */
  ghost predicate AsSeen(stores: seq<Store>, at: nat -> nat, s: Store, o: Owner)
    requires (forall k: nat :: at(k) < |stores|) && o in stores[at(0)].drafts && o in s.drafts
  {
    var seen, row, refs := stores[at(0)].drafts[o], s.drafts[o], DraftRefs(stores[at(1)], o);
    && seen.lockDate == row.lockDate
    && ReadReason(seen.reasonKind, seen.reasonComment) == ReadReason(row.reasonKind, row.reasonComment)
    && refs == DraftRefs(s, o)
    && (forall i :: 0 <= i < |refs| ==> SameArtifact(stores[at(2 + i)], s, refs[i]))
    && NextVersion(stores[at(2 + |refs|)].collections, o.uuid) == NextVersion(s.collections, o.uuid)
  }

  ghost predicate SameArtifact(s: Store, s': Store, ref: ArtifactRef)
  {
    ref in s.artifacts && ref in s'.artifacts && s.artifacts[ref] == s'.artifacts[ref]
  }

  /** For every peek, statement by statement, and every later commit for the same release, whatever
      happened in between: what is published is what was seen exactly when everything the peek saw
      is still so when the commit runs. */
  lemma SignedIsPublished(run: Run, at: nat -> nat, j: nat, t0: int, t1: int, w: Collection)
    requires ValidRun(run) && j < |run.events| && run.events[j].ECommit? && Succeeds(run, j)
    requires Schedule(run.stores, at, j) && PeekedAt(run.stores, at, run.events[j].o, t0, t1, w)
    ensures run.events[j].o in run.stores[j].drafts
    ensures run.outcomes[j].answer == Some(w) <==> AsSeen(run.stores, at, run.stores[j], run.events[j].o)
  {
    var o, s := run.events[j].o, run.stores[j];
    CommitPublishesWouldBe(run, j);
    var v := run.outcomes[j].answer.value;
    var refs := DraftRefs(run.stores[at(1)], o);
    if AsSeen(run.stores, at, s, o) {
      forall i | 0 <= i < |refs|
        ensures w.artifacts[i] == v.artifacts[i]
      {
        assert ArtifactAt(run.stores[at(2 + i)], refs[i], w.artifacts[i]);
        assert SameArtifact(run.stores[at(2 + i)], s, refs[i]);
      }
      assert w.artifacts == v.artifacts;
    }
    if v == w {
      ResolveRefs(s.artifacts, DraftRefs(s, o));
      forall i | 0 <= i < |refs|
        ensures SameArtifact(run.stores[at(2 + i)], s, refs[i])
      {
        assert ArtifactAt(run.stores[at(2 + i)], refs[i], w.artifacts[i]);
      }
    }
  }

  /** The handler lets a commit through only with evidence over the digest of what it peeked at. The
      evidence stored with the published version attests that version under the same condition, unless
      the two collide under the digest. */
  lemma EvidenceAttestsPublication(run: Run, at: nat -> nat, j: nat, t0: int, t1: int, w: Collection,
                                   digest: Collection -> string)
    requires ValidRun(run) && j < |run.events| && run.events[j].ECommit? && Succeeds(run, j)
    requires Schedule(run.stores, at, j) && PeekedAt(run.stores, at, run.events[j].o, t0, t1, w)
    requires run.events[j].input.digest == digest(w)
    requires run.outcomes[j].answer.Some? && digest(run.outcomes[j].answer.value) == digest(w) ==>
               run.outcomes[j].answer.value == w
    ensures var e := run.events[j];
      && run.outcomes[j].answer.Some? && e.o in run.stores[j].drafts
      && e.input.fingerprint in run.stores[j + 1].evidence
      && var published, evidence := run.outcomes[j].answer.value, run.stores[j + 1].evidence[e.input.fingerprint];
      && evidence.owner == OfCollection(published.key)
      && (evidence.digest == digest(published) <==> AsSeen(run.stores, at, run.stores[j], e.o))
  {
    var e := run.events[j];
    assert StepsAt(run, j);
    SignedIsPublished(run, at, j, t0, t1, w);
    CommitPublishesWouldBe(run, j);
    CommitStore(run.stores[j], e.o, e.input, e.t0, e.t1);
  }
}
