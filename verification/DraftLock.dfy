/** What the signing lock guarantees between prepare and commit, and what it does not. */
module DraftLock {
  import opened Basics
  import opened Schema
  import opened Draft
  import opened DraftRuns

  /** The instant at which the lock taken by the prepare event e ends. */
  ghost function LockEnd(e: Event): int
    requires e.EPrepare?
  {
    FloorSecond(e.t2 + e.ttl)
  }

  /** The lock is held exactly until its expiry rounded down to a second: for more than the
      configured time less one second, and never longer than the configured time. */
  lemma LockWindow(s: Store, e: Event, t: int)
    requires e.EPrepare? && Step(s, e).error.None?
    ensures LockHeld(Step(s, e).store.drafts[e.o], t) <==> t < LockEnd(e)
    ensures e.t2 + e.ttl - SECOND < LockEnd(e) <= e.t2 + e.ttl
  {
  }

  // ---------------------------------------------------------------- lock freeze

  /** The successful events that may change what a held lock protects. */
  ghost predicate Disturbs(e: Event, o: Owner, refs: seq<ArtifactRef>)
  {
    || ((e.EPrepare? || e.ECancelWrite? || e.EDelete?) && e.o == o)
    || ((e.ECommit? || e.ECreateCollection?) && e.o.uuid == o.uuid)
    || (e.EImportCollection? && e.key.uuid == o.uuid)
    || (e.EUpload? && e.ref in refs)
  }

  ghost predicate Undisturbed(run: Run, r: nat, n: nat, o: Owner, refs: seq<ArtifactRef>)
    requires Shaped(run) && n <= |run.events|
  {
    forall i :: r < i < n && Succeeds(run, i) ==> !Disturbs(run.events[i], o, refs)
  }

  /** The two stores agree on everything the would-be collection of o is made of. */
  ghost predicate SameWouldBe(s: Store, s': Store, o: Owner)
  {
    && SameDraft(s, s', o)
    && Versions(s.collections, o.uuid) == Versions(s'.collections, o.uuid)
    && forall a :: a in DraftRefs(s, o) && a in s.artifacts ==> a in s'.artifacts && s'.artifacts[a] == s.artifacts[a]
  }

  lemma OtherVersionsUnchanged(s: Store, e: Event, o: Owner)
    requires Step(s, e).error.None? && !Disturbs(e, o, DraftRefs(s, o))
    ensures Versions(Step(s, e).store.collections, o.uuid) == Versions(s.collections, o.uuid)
  {
    var s' := Step(s, e).store;
    if e.ECommit? {
      CommitStore(s, e.o, e.input, e.t0, e.t1);
    }
    assert forall k: CollectionKey :: k.uuid == o.uuid ==> (k in s.collections <==> k in s'.collections);
  }

  lemma FreezeStep(s: Store, e: Event, o: Owner, lockEnd: int)
    requires o in s.drafts && s.drafts[o].lockExpiresAt == Some(lockEnd)
    requires Step(s, e).error.None? ==> !Disturbs(e, o, DraftRefs(s, o))
    requires (e.EPut? || e.EDecide?) && e.o == o ==> e.t0 < lockEnd
    ensures (e.EPut? || e.EDecide?) && e.o == o ==> Step(s, e).error.Some?
    ensures SameWouldBe(s, Step(s, e).store, o)
  {
    TablesGrow(s, e);
    if Step(s, e).error.Some? {
      RefusedStepIsNoOp(s, e);
    } else {
      UntouchedDraft(s, e, o);
      OtherVersionsUnchanged(s, e, o);
      if e.ECommit? {
        CommitStore(s, e.o, e.input, e.t0, e.t1);
      }
    }
  }

  /** What a successful prepare leaves on the draft. */
  lemma PreparedAt(run: Run, r: nat)
    requires ValidRun(run) && r < |run.events| && run.events[r].EPrepare? && Succeeds(run, r)
    ensures var o := run.events[r].o;
      && o in run.stores[r + 1].drafts
      && run.stores[r + 1].drafts[o].lockExpiresAt == Some(LockEnd(run.events[r]))
      && DraftRefs(run.stores[r + 1], o) == DraftRefs(run.stores[r], o)
      && AllExist(run.stores[r + 1].artifacts, DraftRefs(run.stores[r], o))
  {
    assert StepsAt(run, r);
  }

  /** One step under a lock that has not ended. */
  lemma FreezeAt(run: Run, n: nat, o: Owner, lockEnd: int)
    requires ValidRun(run) && n < |run.events| && run.clocks[n + 1] < lockEnd
    requires o in run.stores[n].drafts && run.stores[n].drafts[o].lockExpiresAt == Some(lockEnd)
    requires Succeeds(run, n) ==> !Disturbs(run.events[n], o, DraftRefs(run.stores[n], o))
    ensures SameWouldBe(run.stores[n], run.stores[n + 1], o)
  {
    var e := run.events[n];
    if (e.EPut? || e.EDecide?) && e.o == o {
      ReadingsBefore(run, n, n + 1, 0);
      assert Readings(e)[0] == e.t0;
    }
    assert StepsAt(run, n);
    FreezeStep(run.stores[n], e, o, lockEnd);
  }

  lemma {:induction false} FrozenSince(run: Run, r: nat, n: nat)
    requires ValidRun(run) && r < n <= |run.events|
    requires run.events[r].EPrepare? && Succeeds(run, r)
    requires Undisturbed(run, r, n, run.events[r].o, DraftRefs(run.stores[r], run.events[r].o))
    requires run.clocks[n] < LockEnd(run.events[r])
    ensures SameWouldBe(run.stores[r + 1], run.stores[n], run.events[r].o)
    ensures run.events[r].o in run.stores[n].drafts
    decreases n
  {
    PreparedAt(run, r);
    if r + 1 < n {
      ClockMonotone(run, n - 1, n);
      FrozenSince(run, r, n - 1);
      FreezeAt(run, n - 1, run.events[r].o, LockEnd(run.events[r]));
    }
  }

  lemma SamePeek(s: Store, s': Store, o: Owner, t0: int, t1: int, t0': int, t1': int)
    requires SameWouldBe(s, s', o)
    requires Peek(s, o, t0, t1).Ok? && o in s'.drafts
    ensures LockHeld(s'.drafts[o], t0') && ApprovalCurrent(s'.drafts[o], t1') ==>
              Peek(s', o, t0', t1') == Peek(s, o, t0, t1)
    ensures Peek(s', o, t0', t1').Ok? ==> Peek(s', o, t0', t1') == Peek(s, o, t0, t1)
  {
    assert AllExist(s'.artifacts, DraftRefs(s', o));
    assert Resolve(s'.artifacts, DraftRefs(s', o)) == Resolve(s.artifacts, DraftRefs(s, o));
  }

  /** From a prepare until its lock ends, unless the lock is disturbed: puts and decisions on the
      draft are refused, and a peek gives the value the prepare answered for as long as the
      approval lasts. */
  lemma LockFreeze(run: Run, r: nat, n: nat)
    requires ValidRun(run) && r < n < |run.events|
    requires run.events[r].EPrepare? && Succeeds(run, r)
    requires Undisturbed(run, r, n, run.events[r].o, DraftRefs(run.stores[r], run.events[r].o))
    requires run.events[n].EPut? || run.events[n].EDecide? || run.events[n].EPeek?
    requires run.events[n].o == run.events[r].o
    requires run.events[n].t0 < LockEnd(run.events[r])
    ensures run.events[n].EPut? || run.events[n].EDecide? ==> !Succeeds(run, n) && run.stores[n + 1] == run.stores[n]
    ensures run.events[n].EPeek? ==>
              && run.events[r].o in run.stores[r].drafts
              && run.outcomes[n] == if ApprovalCurrent(run.stores[r].drafts[run.events[r].o], run.events[n].t1)
                                    then Outcome(run.stores[n], None, run.outcomes[r].answer)
                                    else Outcome(run.stores[n], Some(ApprovalRequired), None)
  {
    var e, o := run.events[n], run.events[r].o;
    var s := run.stores[r + 1];
    assert StepsAt(run, n) && StepsAt(run, r);
    assert Readings(e)[0] == e.t0;
    FrozenSince(run, r, n);
    if e.EPeek? {
      var row := run.stores[r].drafts[o];
      if ApprovalCurrent(row, e.t1) {
        SamePeek(s, run.stores[n], o, e.t0, e.t1, e.t0, e.t1);
      }
    } else {
      RefusedStepIsNoOp(run.stores[n], e);
    }
  }

  // ---------------------------------------------------------------- commit

  /** The three defensive errors of a commit never happen in any run. */
  lemma DefensiveBranchesUnreachable(run: Run, n: nat)
    requires ValidRun(run) && n < |run.events|
    ensures run.outcomes[n].error !in {Some(LockWithoutDate), Some(VersionRace), Some(DateMismatch)}
  {
    var s, e := run.stores[n], run.events[n];
    assert StepsAt(run, n);
    InvAt(run, n);
    if e.ECommit? && e.o in s.drafts {
      assert RowInv(s, run.clocks[n], e.o);
      CommitBranches(s, run.clocks[n], e.o, e.input, e.t0, e.t1);
    } else if e.EPeek? && e.o in s.drafts {
      assert RowInv(s, run.clocks[n], e.o);
    }
  }

  lemma CommitBranches(s: Store, now: int, o: Owner, input: EvidenceInput, t0: int, t1: int)
    requires Inv(s, now) && o in s.drafts
    ensures var c, w := Commit(s, o, input, t0, t1).result, WouldBe(s, o, true, t0, t1, t1);
      && (c.Err? ==> c.error !in {LockWithoutDate, VersionRace, DateMismatch})
      && (c.Ok? <==> w.Ok? && o in s.releases && (w.value.reason.Some? ==> w.value.reason.value.kind in REASON_KINDS)
                     && NoDuplicates(DraftRefs(s, o)) && input.fingerprint !in s.evidence)
      && (c.Ok? ==> c == w)
  {
    assert RowInv(s, now, o);
    var w := WouldBe(s, o, true, t0, t1, t1);
    if w.Ok? {
      ResolveRefs(s.artifacts, DraftRefs(s, o));
      NextVersionIsFresh(s.collections, o.uuid);
      FloorSecondFixed(w.value.date);
      var created := CreateCollection(s, o, Refs(w.value.artifacts), w.value.reason, w.value.date);
      if created.result.Ok? {
        assert created.result.value == w.value;
      }
    }
  }

  /** A commit succeeds exactly when the lock and approval are current, the release still exists,
      the reason is one the collection table admits, no artifact is listed twice and the
      certificate is fresh; and it publishes exactly the would-be collection, which then reads
      back from the tables unchanged. */
  lemma CommitPublishesWouldBe(run: Run, n: nat)
    requires ValidRun(run) && n < |run.events| && run.events[n].ECommit?
    ensures var e, s, s' := run.events[n], run.stores[n], run.stores[n + 1];
      var w := WouldBe(s, e.o, true, e.t0, e.t1, e.t1);
      && (Succeeds(run, n) <==>
            w.Ok? && e.o in s.releases && (w.value.reason.Some? ==> w.value.reason.value.kind in REASON_KINDS)
            && NoDuplicates(DraftRefs(s, e.o)) && e.input.fingerprint !in s.evidence)
      && (Succeeds(run, n) ==>
            && run.outcomes[n].answer == Some(w.value)
            && ReadCollection(s', w.value.key, e.o.kind) == Ok(w.value)
            && e.o !in s'.drafts && DraftRefs(s', e.o) == [])
      && (!Succeeds(run, n) ==> s' == s)
  {
    var e, s := run.events[n], run.stores[n];
    assert StepsAt(run, n);
    InvAt(run, n);
    if e.o in s.drafts {
      CommitBranches(s, run.clocks[n], e.o, e.input, e.t0, e.t1);
    }
    if Succeeds(run, n) {
      assert RowInv(s, run.clocks[n], e.o);
      CommitStore(s, e.o, e.input, e.t0, e.t1);
      FloorSecondFixed(s.drafts[e.o].lockDate.value);
    } else {
      RefusedStepIsNoOp(s, e);
    }
  }
}
