/** Whole runs of the collection-draft protocol: every interleaving of its operations, with a clock
    that never goes back. */
module DraftRuns {
  import opened Basics
  import opened Schema
  import opened Draft

  // ---------------------------------------------------------------- runs

  ghost function Readings(e: Event): seq<int>
  {
    match e
    case EPut(_, _, _, _, _, _, _, t0, t1) => [t0, t1]
    case EDecide(_, _, _, _, _, _, t0, t1, t2) => [t0, t1, t2]
    case EPrepare(_, _, t0, t1, t2) => [t0, t1, t2]
    case EPeek(_, t0, t1) => [t0, t1]
    case ECancelRead(_, t0) => [t0]
    case ECommit(_, _, t0, t1) => [t0, t1]
    case ECreateCollection(_, _, _, t0) => [t0]
    case _ => []
  }

  ghost predicate OnTime(now: int, e: Event)
  {
    var ts := Readings(e);
    && (forall i :: 0 <= i < |ts| ==> now <= ts[i])
    && (forall i, j :: 0 <= i < j < |ts| ==> ts[i] <= ts[j])
  }

  ghost function ClockAfter(now: int, e: Event): int
  {
    var ts := Readings(e);
    if ts == [] then now else ts[|ts| - 1]
  }

  /** A recorded run: event n takes stores[n] and clocks[n] to stores[n + 1] and clocks[n + 1]
      with the outcome outcomes[n]. */
  datatype Run = Run(stores: seq<Store>, clocks: seq<int>, events: seq<Event>, outcomes: seq<Outcome>)

  ghost predicate Shaped(run: Run)
  {
    |run.stores| == |run.clocks| == |run.events| + 1 == |run.outcomes| + 1
  }

  ghost predicate StepsAt(run: Run, n: nat)
    requires Shaped(run)
  {
    n < |run.events| ==>
      && OnTime(run.clocks[n], run.events[n])
      && run.outcomes[n] == Step(run.stores[n], run.events[n])
      && run.stores[n + 1] == run.outcomes[n].store
      && run.clocks[n + 1] == ClockAfter(run.clocks[n], run.events[n])
  }

  ghost predicate Succeeds(run: Run, n: nat)
    requires n < |run.outcomes|
  {
    run.outcomes[n].error.None?
  }

  /** Collection evidence names versions that exist. */
  ghost predicate EvidenceOwned(s: Store)
  {
    forall f :: f in s.evidence && s.evidence[f].owner.OfCollection? ==> s.evidence[f].owner.key in s.collections
  }

  /** A run starts before any draft exists; artifacts, releases and collections are arbitrary. */
  ghost predicate ValidRun(run: Run)
  {
    && Shaped(run)
    && run.stores[0].drafts == map[]
    && run.stores[0].draftArtifacts == map[]
    && EvidenceOwned(run.stores[0])
    && forall n: nat {:trigger StepsAt(run, n)} :: StepsAt(run, n)
  }

  // ---------------------------------------------------------------- what every step keeps

  ghost predicate RowInv(s: Store, now: int, o: Owner)
    requires o in s.drafts
  {
    var row := s.drafts[o];
    && o in s.draftArtifacts
    && AllExist(s.artifacts, s.draftArtifacts[o])
    && row.lockExpiresAt.Some? == row.lockDate.Some?
    && (row.lockDate.Some? ==> WholeSecond(row.lockDate.value))
    && (row.approval == Approved ==> row.decidedAtRevision == Some(row.revision) && row.approvalExpiresAt.Some?)
    && (LockHeld(row, now) ==> row.approval == Approved)
  }

  ghost predicate Inv(s: Store, now: int)
  {
    && EvidenceOwned(s)
    && forall o :: o in s.drafts ==> RowInv(s, now, o)
  }

  /** A refused step changes nothing. */
  lemma RefusedStepIsNoOp(s: Store, e: Event)
    requires Step(s, e).error.Some?
    ensures Step(s, e).store == s
  {
  }

  /** The events that can change the draft of o. */
  ghost predicate Touches(e: Event, o: Owner)
  {
    (e.EPut? || e.EDecide? || e.EPrepare? || e.ECancelWrite? || e.EDelete? || e.ECommit?) && e.o == o
  }

  ghost predicate SameDraft(s: Store, s': Store, o: Owner)
  {
    && (o in s.drafts <==> o in s'.drafts)
    && (o in s.drafts ==> s.drafts[o] == s'.drafts[o])
    && DraftRefs(s, o) == DraftRefs(s', o)
    && (o in s.draftArtifacts <==> o in s'.draftArtifacts)
  }

  lemma UntouchedDraft(s: Store, e: Event, o: Owner)
    requires !Touches(e, o) || Step(s, e).error.Some?
    ensures SameDraft(s, Step(s, e).store, o)
  {
    if Step(s, e).error.Some? {
      RefusedStepIsNoOp(s, e);
    } else if e.ECommit? {
      UntouchedByCommit(s, e, o);
    } else if e.EPut? || e.EDecide? || e.EPrepare? || e.ECancelWrite? || e.EDelete? {
    }
  }

  lemma UntouchedByCommit(s: Store, e: Event, o: Owner)
    requires e.ECommit? && e.o != o && Step(s, e).error.None?
    ensures SameDraft(s, Step(s, e).store, o)
  {
    CommitStore(s, e.o, e.input, e.t0, e.t1);
  }

  /** Artifacts and collection versions never disappear, and stored versions never change. */
  lemma TablesGrow(s: Store, e: Event)
    ensures var s' := Step(s, e).store;
      && (forall r :: r in s.artifacts ==> r in s'.artifacts)
      && (forall k :: k in s.collections ==> k in s'.collections && s'.collections[k] == s.collections[k])
  {
    if Step(s, e).error.Some? {
      RefusedStepIsNoOp(s, e);
    } else if e.ECommit? || e.ECreateCollection? {
      PublishingGrows(s, e);
    }
  }

  lemma PublishingGrows(s: Store, e: Event)
    requires (e.ECommit? || e.ECreateCollection?) && Step(s, e).error.None?
    ensures var s' := Step(s, e).store;
      && s'.artifacts == s.artifacts
      && (forall k :: k in s.collections ==> k in s'.collections && s'.collections[k] == s.collections[k])
  {
    NextVersionIsFresh(s.collections, e.o.uuid);
    if e.ECommit? {
      CommitStore(s, e.o, e.input, e.t0, e.t1);
    }
  }

  /** What a successful commit leaves in the tables. */
  lemma CommitStore(s: Store, o: Owner, input: EvidenceInput, t0: int, t1: int)
    requires Commit(s, o, input, t0, t1).result.Ok?
    ensures var w := WouldBe(s, o, true, t0, t1, t1);
      var s' := Commit(s, o, input, t0, t1).store;
      && w.Ok?
      && o in s.releases
      && Insertable(s, w.value.reason, DraftRefs(s, o))
      && w.value.key == CollectionKey(o.uuid, NextVersion(s.collections, o.uuid))
      && s'.releases == s.releases && s'.artifacts == s.artifacts
      && s'.collections == s.collections[w.value.key :=
           CollectionRow(FloorSecond(w.value.date), o.kind, ReasonKindColumn(w.value.reason),
                         ReasonCommentColumn(w.value.reason), DraftRefs(s, o))]
      && s'.drafts == s.drafts - {o}
      && s'.draftArtifacts == s.draftArtifacts - {o}
      && input.fingerprint in s'.evidence
      && s'.evidence == s.evidence[input.fingerprint := s'.evidence[input.fingerprint]]
      && s'.evidence[input.fingerprint] ==
           Evidence(OfCollection(w.value.key), input.digest, input.signature, input.certificate)
  {
    ResolveRefs(s.artifacts, DraftRefs(s, o));
  }

  lemma EvidenceStaysOwned(s: Store, e: Event)
    requires EvidenceOwned(s)
    ensures EvidenceOwned(Step(s, e).store)
  {
    TablesGrow(s, e);
    if e.ECommit? && Step(s, e).error.None? {
      CommitStore(s, e.o, e.input, e.t0, e.t1);
    }
  }

  lemma RowInvStep(s: Store, now: int, e: Event, o: Owner)
    requires Inv(s, now) && OnTime(now, e)
    requires o in Step(s, e).store.drafts
    ensures RowInv(Step(s, e).store, ClockAfter(now, e), o)
  {
    var s' := Step(s, e).store;
    var ts := Readings(e);
    assert now <= ClockAfter(now, e);
    TablesGrow(s, e);
    if !Touches(e, o) || Step(s, e).error.Some? {
      UntouchedDraft(s, e, o);
      assert RowInv(s, now, o);
    } else if e.EPut? {
    } else if e.ECommit? {
      CommitStore(s, e.o, e.input, e.t0, e.t1);
    } else {
      assert RowInv(s, now, o);
      if e.EDecide? {
        assert ts[0] <= ts[2];
      } else if e.EPrepare? {
        FloorSecondFixed(e.t1);
      }
    }
  }

  /** The protocol invariant is kept by every step. */
  lemma InvStep(s: Store, now: int, e: Event)
    requires Inv(s, now) && OnTime(now, e)
    ensures Inv(Step(s, e).store, ClockAfter(now, e))
  {
    EvidenceStaysOwned(s, e);
    forall o | o in Step(s, e).store.drafts
      ensures RowInv(Step(s, e).store, ClockAfter(now, e), o)
    {
      RowInvStep(s, now, e, o);
    }
  }

  lemma {:induction false} InvAt(run: Run, n: nat)
    requires ValidRun(run) && n <= |run.events|
    ensures Inv(run.stores[n], run.clocks[n])
  {
    if n > 0 {
      InvAt(run, n - 1);
      assert StepsAt(run, n - 1);
      InvStep(run.stores[n - 1], run.clocks[n - 1], run.events[n - 1]);
    }
  }

  lemma {:induction false} ClockMonotone(run: Run, i: nat, j: nat)
    requires ValidRun(run) && i <= j <= |run.events|
    ensures run.clocks[i] <= run.clocks[j]
  {
    if i < j {
      ClockMonotone(run, i, j - 1);
      assert StepsAt(run, j - 1);
    }
  }

  // ---------------------------------------------------------------- where a draft's state comes from

  /** Replaces or removes the draft of o. */
  ghost predicate Resets(e: Event, o: Owner)
  {
    (e.EPut? || e.EDelete? || e.ECommit?) && e.o == o
  }

  ghost predicate Decides(e: Event, o: Owner)
  {
    Resets(e, o) || (e.EDecide? && e.o == o)
  }

  ghost predicate Relocks(e: Event, o: Owner)
  {
    Resets(e, o) || ((e.EPrepare? || e.ECancelWrite?) && e.o == o)
  }

  /** The draft of o at n carries the content put at p, and nothing replaced it in between. */
  ghost predicate PutOrigin(run: Run, p: nat, n: nat, o: Owner)
  {
    && Shaped(run) && p < n <= |run.events| && Succeeds(run, p)
    && var e := run.events[p];
    && e.EPut? && e.o == o
    && (forall i :: p < i < n && Succeeds(run, i) ==> !Resets(run.events[i], o))
    && o in run.stores[n].drafts
    && var row := run.stores[n].drafts[o];
    && row.draftedBy == e.actor
    && row.draftedByCredential == NullIfEmpty(e.credential)
    && ReadReason(row.reasonKind, row.reasonComment) == e.reason
    && DraftRefs(run.stores[n], o) == e.refs
  }

  /** The approval on the draft of o at n was given at a, by someone other than the drafter. */
  ghost predicate ApprovalOrigin(run: Run, a: nat, n: nat, o: Owner)
  {
    && Shaped(run) && a < n <= |run.events| && Succeeds(run, a)
    && var e := run.events[a];
    && e.EDecide? && e.o == o && e.approve
    && (forall i :: a < i < n && Succeeds(run, i) ==> !Decides(run.events[i], o))
    && o in run.stores[n].drafts
    && var row := run.stores[n].drafts[o];
    && row.approval == Approved
    && row.approvalExpiresAt == Some(FloorSecond(e.t1 + e.ttl))
    && row.decidedBy == Some(e.actor)
    && row.decidedByCredential == NullIfEmpty(e.credential)
    && e.actor != row.draftedBy
    && (e.credential != "" ==> row.draftedByCredential != Some(e.credential))
  }

  /** The lock on the draft of o at n was taken at r. */
  ghost predicate LockOrigin(run: Run, r: nat, n: nat, o: Owner)
  {
    && Shaped(run) && r < n <= |run.events| && Succeeds(run, r)
    && var e := run.events[r];
    && e.EPrepare? && e.o == o
    && (forall i :: r < i < n && Succeeds(run, i) ==> !Relocks(run.events[i], o))
    && o in run.stores[n].drafts
    && var row := run.stores[n].drafts[o];
    && row.lockExpiresAt == Some(FloorSecond(e.t2 + e.ttl))
    && row.lockDate == Some(FloorSecond(e.t1))
  }

  /** Only a put brings a draft into being, and the reason it stores reads back as given. */
  lemma DraftBefore(s: Store, e: Event, o: Owner)
    requires o in Step(s, e).store.drafts
    requires !(Resets(e, o) && Step(s, e).error.None?)
    ensures o in s.drafts
    ensures DraftRefs(Step(s, e).store, o) == DraftRefs(s, o)
    ensures var row, row' := s.drafts[o], Step(s, e).store.drafts[o];
      && row'.draftedBy == row.draftedBy
      && row'.draftedByCredential == row.draftedByCredential
      && row'.reasonKind == row.reasonKind
      && row'.reasonComment == row.reasonComment
      && (!(Decides(e, o) && Step(s, e).error.None?) ==>
            row'.approval == row.approval && row'.approvalExpiresAt == row.approvalExpiresAt
            && row'.decidedBy == row.decidedBy && row'.decidedByCredential == row.decidedByCredential)
      && (!(Relocks(e, o) && Step(s, e).error.None?) ==>
            row'.lockExpiresAt == row.lockExpiresAt && row'.lockDate == row.lockDate)
  {
    if !Touches(e, o) || Step(s, e).error.Some? {
      UntouchedDraft(s, e, o);
    }
  }

  /** Event n - 1 left the draft of o as it is at n: replaced by a put, or with its content kept. */
  lemma ContentStep(run: Run, n: nat, o: Owner)
    requires ValidRun(run) && 0 < n <= |run.events| && o in run.stores[n].drafts
    ensures || (Succeeds(run, n - 1) && Resets(run.events[n - 1], o) && PutOrigin(run, n - 1, n, o))
            || (&& !(Succeeds(run, n - 1) && Resets(run.events[n - 1], o))
                && o in run.stores[n - 1].drafts
                && SameContent(run.stores[n - 1], run.stores[n], o))
    ensures Succeeds(run, n - 1) && Resets(run.events[n - 1], o) ==>
              run.stores[n].drafts[o].approval == Undecided && run.stores[n].drafts[o].lockExpiresAt.None?
  {
    assert StepsAt(run, n - 1);
    if Succeeds(run, n - 1) && Resets(run.events[n - 1], o) {
    } else {
      DraftBefore(run.stores[n - 1], run.events[n - 1], o);
    }
  }

  ghost predicate SameContent(s: Store, s': Store, o: Owner)
    requires o in s.drafts && o in s'.drafts
  {
    var row, row' := s.drafts[o], s'.drafts[o];
    && DraftRefs(s', o) == DraftRefs(s, o)
    && row'.draftedBy == row.draftedBy
    && row'.draftedByCredential == row.draftedByCredential
    && row'.reasonKind == row.reasonKind
    && row'.reasonComment == row.reasonComment
  }

  /** It decided the draft at n - 1, or left the decision as it was. */
  lemma ApprovalStep(run: Run, n: nat, o: Owner)
    requires ValidRun(run) && 0 < n <= |run.events| && o in run.stores[n].drafts
    requires run.stores[n].drafts[o].approval == Approved
    ensures || (Succeeds(run, n - 1) && Decides(run.events[n - 1], o) && ApprovalOrigin(run, n - 1, n, o))
            || (&& !(Succeeds(run, n - 1) && Decides(run.events[n - 1], o))
                && o in run.stores[n - 1].drafts
                && var row, row' := run.stores[n - 1].drafts[o], run.stores[n].drafts[o];
                && row'.approval == row.approval
                && row'.approvalExpiresAt == row.approvalExpiresAt
                && row'.decidedBy == row.decidedBy
                && row'.decidedByCredential == row.decidedByCredential
                && row'.draftedBy == row.draftedBy
                && row'.draftedByCredential == row.draftedByCredential)
  {
    ContentStep(run, n, o);
    assert StepsAt(run, n - 1);
    if !(Succeeds(run, n - 1) && Resets(run.events[n - 1], o)) {
      DraftBefore(run.stores[n - 1], run.events[n - 1], o);
    }
  }

  /** It locked the draft at n - 1, or left the lock as it was. */
  lemma LockStep(run: Run, n: nat, o: Owner)
    requires ValidRun(run) && 0 < n <= |run.events| && o in run.stores[n].drafts
    requires run.stores[n].drafts[o].lockExpiresAt.Some?
    ensures || (Succeeds(run, n - 1) && Relocks(run.events[n - 1], o) && LockOrigin(run, n - 1, n, o))
            || (&& !(Succeeds(run, n - 1) && Relocks(run.events[n - 1], o))
                && o in run.stores[n - 1].drafts
                && var row, row' := run.stores[n - 1].drafts[o], run.stores[n].drafts[o];
                row'.lockExpiresAt == row.lockExpiresAt && row'.lockDate == row.lockDate)
  {
    ContentStep(run, n, o);
    assert StepsAt(run, n - 1);
    if !(Succeeds(run, n - 1) && Resets(run.events[n - 1], o)) {
      DraftBefore(run.stores[n - 1], run.events[n - 1], o);
    }
  }

  lemma {:induction false} FindPut(run: Run, n: nat, o: Owner)
    requires ValidRun(run) && n <= |run.events| && o in run.stores[n].drafts
    ensures exists p: nat :: PutOrigin(run, p, n, o)
  {
    ContentStep(run, n, o);
    if !(Succeeds(run, n - 1) && Resets(run.events[n - 1], o)) {
      FindPut(run, n - 1, o);
      var p: nat :| PutOrigin(run, p, n - 1, o);
      assert PutOrigin(run, p, n, o);
    }
  }

  lemma {:induction false} FindApproval(run: Run, n: nat, o: Owner)
    requires ValidRun(run) && n <= |run.events| && o in run.stores[n].drafts
    requires run.stores[n].drafts[o].approval == Approved
    ensures exists a: nat :: ApprovalOrigin(run, a, n, o)
  {
    ApprovalStep(run, n, o);
    if !(Succeeds(run, n - 1) && Decides(run.events[n - 1], o)) {
      FindApproval(run, n - 1, o);
      var a: nat :| ApprovalOrigin(run, a, n - 1, o);
      assert ApprovalOrigin(run, a, n, o);
    }
  }

  lemma {:induction false} FindLock(run: Run, n: nat, o: Owner)
    requires ValidRun(run) && n <= |run.events| && o in run.stores[n].drafts
    requires run.stores[n].drafts[o].lockExpiresAt.Some?
    ensures exists r: nat :: LockOrigin(run, r, n, o)
  {
    LockStep(run, n, o);
    if !(Succeeds(run, n - 1) && Relocks(run.events[n - 1], o)) {
      FindLock(run, n - 1, o);
      var r: nat :| LockOrigin(run, r, n - 1, o);
      assert LockOrigin(run, r, n, o);
    }
  }

  // ---------------------------------------------------------------- maker and checker

  /** The put, the approval and the prepare that stand behind the commit at c. */
  ghost predicate Authorizes(run: Run, p: nat, a: nat, r: nat, c: nat)
  {
    && Shaped(run) && p < a < r < c < |run.events|
    && run.events[c].ECommit?
    && var o := run.events[c].o;
    && PutOrigin(run, p, c, o)
    && ApprovalOrigin(run, a, c, o)
    && LockOrigin(run, r, c, o)
    && run.events[a].actor != run.events[p].actor
    && (run.events[a].credential != "" ==> run.events[a].credential != run.events[p].credential)
    && FloorSecond(run.events[a].t1 + run.events[a].ttl) > run.events[c].t1
    && FloorSecond(run.events[r].t2 + run.events[r].ttl) > run.events[c].t0
  }

  lemma LockOriginBack(run: Run, r: nat, n: nat, o: Owner)
    requires ValidRun(run) && LockOrigin(run, r, n, o) && r < n - 1
    ensures LockOrigin(run, r, n - 1, o)
    ensures run.stores[n - 1].drafts[o].lockExpiresAt == run.stores[n].drafts[o].lockExpiresAt
  {
    assert StepsAt(run, n - 1);
    var e, s := run.events[n - 1], run.stores[n - 1];
    assert !(Succeeds(run, n - 1) && Relocks(e, o));
    DraftBefore(s, e, o);
  }

  /** A lock that is held at n was held at every step since it was taken. */
  lemma {:induction false} HeldSince(run: Run, r: nat, i: nat, n: nat, o: Owner)
    requires ValidRun(run) && LockOrigin(run, r, n, o) && r < i <= n
    ensures LockOrigin(run, r, i, o)
    ensures run.stores[i].drafts[o].lockExpiresAt == run.stores[n].drafts[o].lockExpiresAt
    decreases n - i
  {
    if i < n {
      LockOriginBack(run, r, n, o);
      HeldSince(run, r, i, n - 1, o);
    }
  }

  lemma ReadingsBefore(run: Run, i: nat, n: nat, k: nat)
    requires ValidRun(run) && i < n <= |run.events| && k < |Readings(run.events[i])|
    ensures Readings(run.events[i])[k] <= run.clocks[n]
  {
    ClockMonotone(run, i + 1, n);
    assert StepsAt(run, i);
  }

  /** While a lock is held no decision on the draft gets through. */
  lemma NoDecisionUnderLock(run: Run, r: nat, i: nat, n: nat, o: Owner, t: int)
    requires ValidRun(run) && LockOrigin(run, r, n, o) && r < i < n
    requires run.clocks[n] <= t < run.stores[n].drafts[o].lockExpiresAt.value
    requires run.events[i].EDecide? && run.events[i].o == o
    ensures run.outcomes[i].error == Some(DraftLocked)
  {
    HeldSince(run, r, i, n, o);
    ReadingsBefore(run, i, n, 0);
    assert StepsAt(run, i);
  }

  /** Every commit of every run rests on a put, then an approval of that put by a different actor
      and credential that is still unexpired, then a prepare whose lock is still held. */
  lemma CommitIsAuthorized(run: Run, c: nat)
    requires ValidRun(run) && c < |run.events| && run.events[c].ECommit? && Succeeds(run, c)
    ensures exists p: nat, a: nat, r: nat :: Authorizes(run, p, a, r, c)
  {
    assert StepsAt(run, c);
    var e, o, s := run.events[c], run.events[c].o, run.stores[c];
    CommitStore(s, o, e.input, e.t0, e.t1);
    var row := s.drafts[o];
    FindPut(run, c, o);
    FindApproval(run, c, o);
    FindLock(run, c, o);
    var p: nat :| PutOrigin(run, p, c, o);
    var a: nat :| ApprovalOrigin(run, a, c, o);
    var r: nat :| LockOrigin(run, r, c, o);
    assert Readings(e)[0] == e.t0;
    assert Resets(run.events[p], o) && Succeeds(run, p);
    assert p < a;
    if r <= a {
      assert r != a;
      NoDecisionUnderLock(run, r, a, c, o, e.t0);
      assert false;
    }
    assert Authorizes(run, p, a, r, c);
  }

  /** The published version carries the references and reason that were put, and the date that was
      fixed when it was prepared. */
  lemma PublishedAsApproved(run: Run, p: nat, a: nat, r: nat, c: nat)
    requires ValidRun(run) && Authorizes(run, p, a, r, c) && Succeeds(run, c)
    ensures var o := run.events[c].o;
      var key := CollectionKey(o.uuid, NextVersion(run.stores[c].collections, o.uuid));
      && key !in run.stores[c].collections
      && key in run.stores[c + 1].collections
      && var row := run.stores[c + 1].collections[key];
      && row.refs == run.events[p].refs
      && ReadReason(row.reasonKind, row.reasonComment) == run.events[p].reason
      && row.date == FloorSecond(run.events[r].t1)
      && row.belongsTo == o.kind
  {
    assert StepsAt(run, c);
    var e := run.events[c];
    CommitStore(run.stores[c], e.o, e.input, e.t0, e.t1);
    NextVersionIsFresh(run.stores[c].collections, e.o.uuid);
    FloorSecondFixed(run.events[r].t1);
  }

  /** No put, approval or prepare stands behind two commits: the whole of a later commit's chain
      comes after the earlier commit. */
  lemma CommitsInject(run: Run, p: nat, a: nat, r: nat, c: nat, p': nat, a': nat, r': nat, c': nat)
    requires ValidRun(run) && Authorizes(run, p, a, r, c) && Authorizes(run, p', a', r', c')
    requires Succeeds(run, c) && Succeeds(run, c') && c != c'
    ensures p != p' && a != a' && r != r'
    ensures run.events[c].o == run.events[c'].o && c < c' ==> c < p'
  {
  }
}
