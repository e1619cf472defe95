/** Runs that show what the signing protocol does not rule out, each built step by step. */
module DraftWitness {
  import opened Basics
  import opened Schema
  import opened Draft
  import opened DraftRuns
  import opened DraftLock

  // ---------------------------------------------------------------- building runs

  ghost function Last(run: Run): Store
    requires Shaped(run)
  {
    run.stores[|run.events|]
  }

  ghost function Clock(run: Run): int
    requires Shaped(run)
  {
    run.clocks[|run.events|]
  }

  /** r goes on from run with the given events, all of which succeed. */
  ghost predicate Continues(run: Run, r: Run, events: seq<Event>)
  {
    && ValidRun(run)
    && ValidRun(r)
    && r.events == run.events + events
    && run.stores <= r.stores
    && run.outcomes <= r.outcomes
    && forall k :: |run.events| <= k < |r.events| ==> Succeeds(r, k)
  }

  lemma ContinuesOn(a: Run, b: Run, c: Run, es: seq<Event>, fs: seq<Event>)
    requires Continues(a, b, es) && Continues(b, c, fs)
    ensures Continues(a, c, es + fs)
  {
    assert a.events + (es + fs) == a.events + es + fs;
    forall k | |a.events| <= k < |c.events|
      ensures Succeeds(c, k)
    {
      if k < |b.events| {
        assert Succeeds(b, k) && c.outcomes[k] == b.outcomes[k];
      }
    }
  }

  /** One more event, whose outcome is known. */
  lemma Do(run: Run, e: Event, out: Outcome) returns (r: Run)
    requires ValidRun(run) && OnTime(Clock(run), e) && out == Step(Last(run), e) && out.error.None?
    ensures Continues(run, r, [e])
    ensures Last(r) == out.store
    ensures r.outcomes[|run.events|] == out
    ensures Clock(r) == ClockAfter(Clock(run), e)
  {
    r := Run(run.stores + [out.store], run.clocks + [ClockAfter(Clock(run), e)], run.events + [e],
             run.outcomes + [out]);
    forall n: nat
      ensures StepsAt(r, n)
    {
      if n < |run.events| {
        assert StepsAt(run, n);
      }
    }
  }

  /** Before any draft exists. */
  ghost predicate Fresh(s: Store)
  {
    s.drafts == map[] && s.draftArtifacts == map[] && EvidenceOwned(s)
  }

  // ---------------------------------------------------------------- put, approve, prepare

  const TTL: int := 100 * SECOND

  function PutEvent(o: Owner, refs: seq<ArtifactRef>, reason: Option<UpdateReason>, t: int): Event
  {
    EPut(o, "maker", "", refs, reason, TTL, None, t, t)
  }

  function ApproveEvent(o: Owner, t: int): Event
  {
    EDecide(o, "checker", "", "", true, TTL, t, t, t)
  }

  function PrepareEvent(o: Owner, t: int): Event
  {
    EPrepare(o, TTL, t, t, t)
  }

  /** Put by one actor, approved by another, prepared: all at instant t. */
  function Cycle(o: Owner, refs: seq<ArtifactRef>, reason: Option<UpdateReason>, t: int): seq<Event>
  {
    [PutEvent(o, refs, reason, t), ApproveEvent(o, t), PrepareEvent(o, t)]
  }

  ghost predicate SameTables(s: Store, s': Store)
  {
    s == s'.(drafts := s.drafts, draftArtifacts := s.draftArtifacts)
  }

  /** The draft of o holds this content. */
  ghost predicate Holds(s: Store, o: Owner, refs: seq<ArtifactRef>, reason: Option<UpdateReason>)
  {
    && o in s.drafts
    && DraftRefs(s, o) == refs
    && AllExist(s.artifacts, refs)
    && ReadReason(s.drafts[o].reasonKind, s.drafts[o].reasonComment) == reason
  }

  /** It can be committed at t, as far as lock and approval go, with this date. */
  ghost predicate Ready(s: Store, o: Owner, refs: seq<ArtifactRef>, reason: Option<UpdateReason>, date: int, t: int)
  {
    && Holds(s, o, refs, reason)
    && LockHeld(s.drafts[o], t)
    && ApprovalCurrent(s.drafts[o], t)
    && s.drafts[o].lockDate == Some(date)
  }

  /** The drafter's content, not locked and not decided. */
  ghost predicate Drafted(s: Store, o: Owner, refs: seq<ArtifactRef>, reason: Option<UpdateReason>)
  {
    && Holds(s, o, refs, reason)
    && s.drafts[o].lockExpiresAt.None?
    && s.drafts[o].draftedBy == "maker"
    && s.drafts[o].draftedByCredential.None?
  }

  lemma Putting(s: Store, o: Owner, refs: seq<ArtifactRef>, reason: Option<UpdateReason>, t: int, out: Outcome)
    requires out == Step(s, PutEvent(o, refs, reason, t))
    requires o in s.releases && AllExist(s.artifacts, refs) && (o in s.drafts ==> !LockHeld(s.drafts[o], t))
    ensures out.error.None? && SameTables(s, out.store) && Drafted(out.store, o, refs, reason)
  {
  }

  lemma Approving(s: Store, o: Owner, refs: seq<ArtifactRef>, reason: Option<UpdateReason>, t: int, out: Outcome)
    requires out == Step(s, ApproveEvent(o, t)) && Drafted(s, o, refs, reason)
    ensures out.error.None? && SameTables(s, out.store) && Holds(out.store, o, refs, reason)
    ensures ApprovalCurrent(out.store.drafts[o], t) && ApprovalCurrent(out.store.drafts[o], t + SECOND)
  {
  }

  lemma Preparing(s: Store, o: Owner, refs: seq<ArtifactRef>, reason: Option<UpdateReason>, t: int, out: Outcome)
    requires out == Step(s, PrepareEvent(o, t)) && Holds(s, o, refs, reason) && ApprovalCurrent(s.drafts[o], t)
    ensures out.error.None? && SameTables(s, out.store) && Ready(out.store, o, refs, reason, FloorSecond(t), t)
    ensures ApprovalCurrent(s.drafts[o], t + SECOND) ==> ApprovalCurrent(out.store.drafts[o], t + SECOND)
  {
  }

  lemma Cancelling(s: Store, o: Owner, out: Outcome)
    requires out == Step(s, ECancelWrite(o)) && o in s.drafts
    ensures out.error.None? && SameTables(s, out.store)
    ensures o in out.store.drafts && out.store.drafts[o].lockExpiresAt.None?
  {
  }

  /** Put and approved. */
  ghost predicate Decided(run: Run, r: Run, o: Owner, refs: seq<ArtifactRef>, reason: Option<UpdateReason>, t: int)
  {
    && Continues(run, r, [PutEvent(o, refs, reason, t)] + [ApproveEvent(o, t)])
    && Clock(r) == t && SameTables(Last(run), Last(r)) && Holds(Last(r), o, refs, reason)
    && ApprovalCurrent(Last(r).drafts[o], t) && ApprovalCurrent(Last(r).drafts[o], t + SECOND)
  }

  lemma RunDecided(run: Run, o: Owner, refs: seq<ArtifactRef>, reason: Option<UpdateReason>, t: int)
    requires ValidRun(run) && Clock(run) <= t && o in Last(run).releases && AllExist(Last(run).artifacts, refs)
    requires o in Last(run).drafts ==> !LockHeld(Last(run).drafts[o], t)
    ensures exists r :: Decided(run, r, o, refs, reason, t)
  {
    var put, approve := PutEvent(o, refs, reason, t), ApproveEvent(o, t);
    var afterPut := Step(Last(run), put);
    Putting(Last(run), o, refs, reason, t, afterPut);
    var drafted := Do(run, put, afterPut);
    var afterApprove := Step(afterPut.store, approve);
    Approving(afterPut.store, o, refs, reason, t, afterApprove);
    var approved := Do(drafted, approve, afterApprove);
    ContinuesOn(run, drafted, approved, [put], [approve]);
    assert Decided(run, approved, o, refs, reason, t);
  }

  lemma RunCycle(run: Run, o: Owner, refs: seq<ArtifactRef>, reason: Option<UpdateReason>, t: int) returns (r: Run)
    requires ValidRun(run) && Clock(run) <= t && o in Last(run).releases && AllExist(Last(run).artifacts, refs)
    requires o in Last(run).drafts ==> !LockHeld(Last(run).drafts[o], t)
    ensures Continues(run, r, Cycle(o, refs, reason, t))
    ensures Clock(r) == t
    ensures SameTables(Last(run), Last(r))
    ensures Ready(Last(r), o, refs, reason, FloorSecond(t), t)
    ensures ApprovalCurrent(Last(r).drafts[o], t + SECOND)
  {
    RunDecided(run, o, refs, reason, t);
    var approved :| Decided(run, approved, o, refs, reason, t);
    var prepare := PrepareEvent(o, t);
    var out := Step(Last(approved), prepare);
    Preparing(Last(approved), o, refs, reason, t, out);
    r := Do(approved, prepare, out);
    ContinuesOn(run, approved, r, [PutEvent(o, refs, reason, t)] + [ApproveEvent(o, t)], [prepare]);
    assert Cycle(o, refs, reason, t) == [PutEvent(o, refs, reason, t)] + [ApproveEvent(o, t)] + [prepare];
  }

  // ---------------------------------------------------------------- peek and commit

  ghost function Pending(s: Store, o: Owner, refs: seq<ArtifactRef>, reason: Option<UpdateReason>,
                         date: int): Collection
    requires AllExist(s.artifacts, refs)
  {
    Collection(CollectionKey(o.uuid, NextVersion(s.collections, o.uuid)), date, o.kind, Resolve(s.artifacts, refs),
               reason)
  }

  /** A ready draft is committed if its list repeats nothing, its reason is admitted, its release is
      there and the certificate is fresh. */
  lemma RunCommit(run: Run, o: Owner, refs: seq<ArtifactRef>, reason: Option<UpdateReason>, date: int, t: int,
                  input: EvidenceInput) returns (r: Run)
    requires ValidRun(run) && Clock(run) <= t && Ready(Last(run), o, refs, reason, date, t)
    requires o in Last(run).releases && NoDuplicates(refs) && input.fingerprint !in Last(run).evidence
    requires reason.Some? ==> reason.value.kind in REASON_KINDS
    ensures Continues(run, r, [ECommit(o, input, t, t)])
    ensures r.outcomes[|run.events|].answer == Some(Pending(Last(run), o, refs, reason, date))
  {
    InvAt(run, |run.events|);
    CommitBranches(Last(run), Clock(run), o, input, t, t);
    r := Do(run, ECommit(o, input, t, t), Step(Last(run), ECommit(o, input, t, t)));
  }

  /** The first signing of a release without drafts, up to the handler's peek. */
  lemma FirstPeek(s: Store, o: Owner, refs: seq<ArtifactRef>, reason: Option<UpdateReason>) returns (run: Run)
    requires Fresh(s) && o in s.releases && AllExist(s.artifacts, refs)
    ensures ValidRun(run)
    ensures run.events == Cycle(o, refs, reason, 0) + [EPeek(o, 0, 0)]
    ensures run.stores[0] == s
    ensures Clock(run) == 0
    ensures forall n :: 0 <= n < 4 ==> Succeeds(run, n)
    ensures Ready(Last(run), o, refs, reason, 0, 0)
    ensures SameTables(s, Last(run))
    ensures ApprovalCurrent(Last(run).drafts[o], SECOND)
    ensures run.outcomes[3].answer == Some(Pending(Last(run), o, refs, reason, 0))
  {
    var start := Run([s], [0], [], []);
    forall n: nat
      ensures StepsAt(start, n)
    {
    }
    var ready := RunCycle(start, o, refs, reason, 0);
    run := Do(ready, EPeek(o, 0, 0), Step(Last(ready), EPeek(o, 0, 0)));
    ContinuesOn(start, ready, run, Cycle(o, refs, reason, 0), [EPeek(o, 0, 0)]);
  }

  // ---------------------------------------------------------------- signed one thing, published another

  /** A peek and a later commit for the same release that both succeed, with different answers, the
      events in between being the given ones. */
  ghost predicate Diverges(run: Run, i: nat, j: nat, between: seq<Event>)
  {
    && ValidRun(run)
    && i < j < |run.events|
    && Succeeds(run, i)
    && Succeeds(run, j)
    && run.events[i].EPeek?
    && run.events[j].ECommit?
    && run.events[j].o == run.events[i].o
    && run.events[i + 1..j] == between
    && (forall k :: i < k < j ==> Succeeds(run, k))
    && run.outcomes[i].answer.Some?
    && run.outcomes[j].answer.Some?
    && run.outcomes[i].answer != run.outcomes[j].answer
  }

  /** From these tables a run can sign one thing and publish another, with these events in between. */
  ghost predicate CanDiverge(s: Store, between: seq<Event>)
  {
    exists run: Run, i: nat, j: nat :: Diverges(run, i, j, between) && run.stores[0] == s
  }

  lemma Diverging(peeked: Run, middle: Run, run: Run, o: Owner, between: seq<Event>, commit: Event)
    requires |peeked.events| == 4 && Continues(peeked, middle, between) && Continues(middle, run, [commit])
    requires peeked.events[3] == EPeek(o, 0, 0) && Succeeds(peeked, 3) && commit.ECommit? && commit.o == o
    requires peeked.outcomes[3].answer.Some? && run.outcomes[|middle.events|].answer.Some?
    requires peeked.outcomes[3].answer != run.outcomes[|middle.events|].answer
    ensures CanDiverge(peeked.stores[0], between)
  {
    ContinuesOn(peeked, middle, run, between, [commit]);
    assert run.events[4..|middle.events|] == between;
    assert run.outcomes[3] == peeked.outcomes[3] && run.events[3] == peeked.events[3];
    assert Diverges(run, 3, |middle.events|, between) && run.stores[0] == peeked.stores[0];
  }

  /** A file uploaded to a listed artifact between the peek and the commit. */
  lemma UploadBetweenPeekAndCommit(s: Store, o: Owner, x: ArtifactRef, format: nat, checksum: string,
                                   input: EvidenceInput)
    requires Fresh(s) && o in s.releases && x in s.artifacts && input.fingerprint !in s.evidence
    requires format < |s.artifacts[x].files| && s.artifacts[x].files[format] != checksum
    ensures CanDiverge(s, [EUpload(x, format, checksum)])
  {
    var peeked := FirstPeek(s, o, [x], None);
    var middle := Do(peeked, EUpload(x, format, checksum), Step(Last(peeked), EUpload(x, format, checksum)));
    var run := RunCommit(middle, o, [x], None, 0, 0, input);
    var before, after := peeked.outcomes[3].answer.value, run.outcomes[5].answer.value;
    assert before.artifacts[0].row.files[format] != after.artifacts[0].row.files[format];
    Diverging(peeked, middle, run, o, [EUpload(x, format, checksum)], ECommit(o, input, 0, 0));
  }

  /** A second prepare under the held lock replaces the date that was signed. */
  lemma PrepareBetweenPeekAndCommit(s: Store, o: Owner, input: EvidenceInput)
    requires Fresh(s) && o in s.releases && input.fingerprint !in s.evidence
    ensures CanDiverge(s, [PrepareEvent(o, SECOND)])
  {
    var peeked := FirstPeek(s, o, [], None);
    var out := Step(Last(peeked), PrepareEvent(o, SECOND));
    Preparing(Last(peeked), o, [], None, SECOND, out);
    var middle := Do(peeked, PrepareEvent(o, SECOND), out);
    FloorSecondFixed(SECOND);
    var run := RunCommit(middle, o, [], None, SECOND, SECOND, input);
    assert peeked.outcomes[3].answer.value.date != run.outcomes[5].answer.value.date;
    Diverging(peeked, middle, run, o, [PrepareEvent(o, SECOND)], ECommit(o, input, SECOND, SECOND));
  }

  /** A cancel, and then a new content put, approved and prepared, between the peek and the commit. */
  lemma ReplacedBetweenPeekAndCommit(s: Store, o: Owner, reason: UpdateReason, input: EvidenceInput)
    requires Fresh(s) && o in s.releases && reason.kind in REASON_KINDS && input.fingerprint !in s.evidence
    ensures CanDiverge(s, [ECancelWrite(o)] + Cycle(o, [], Some(reason), 0))
  {
    var peeked := FirstPeek(s, o, [], None);
    var out := Step(Last(peeked), ECancelWrite(o));
    Cancelling(Last(peeked), o, out);
    var cancelled := Do(peeked, ECancelWrite(o), out);
    var middle := RunCycle(cancelled, o, [], Some(reason), 0);
    ContinuesOn(peeked, cancelled, middle, [ECancelWrite(o)], Cycle(o, [], Some(reason), 0));
    var run := RunCommit(middle, o, [], Some(reason), 0, 0, input);
    assert peeked.outcomes[3].answer.value.reason != run.outcomes[8].answer.value.reason;
    Diverging(peeked, middle, run, o, [ECancelWrite(o)] + Cycle(o, [], Some(reason), 0), ECommit(o, input, 0, 0));
  }

  // ---------------------------------------------------------------- prepared and never committed

  /** A run that puts, approves, prepares and peeks at the content without complaint, after which every
      commit fails. */
  ghost predicate NeverCommits(run: Run, s: Store, o: Owner, refs: seq<ArtifactRef>, reason: Option<UpdateReason>)
  {
    && ValidRun(run) && run.stores[0] == s
    && run.events == Cycle(o, refs, reason, 0) + [EPeek(o, 0, 0)]
    && (forall n :: 0 <= n < 4 ==> Succeeds(run, n))
    && forall input, t0, t1 :: Step(Last(run), ECommit(o, input, t0, t1)).error.Some?
  }

  /** There is one for every list that repeats an artifact, and for every reason the collection table
      does not admit. */
  lemma PreparedButNeverCommitted(s: Store, o: Owner, refs: seq<ArtifactRef>, reason: Option<UpdateReason>)
    requires Fresh(s) && o in s.releases && AllExist(s.artifacts, refs)
    requires !NoDuplicates(refs) || (reason.Some? && reason.value.kind !in REASON_KINDS)
    ensures exists run :: NeverCommits(run, s, o, refs, reason)
  {
    var run := FirstPeek(s, o, refs, reason);
    InvAt(run, 4);
    forall input, t0, t1
      ensures Step(Last(run), ECommit(o, input, t0, t1)).error.Some?
    {
      CommitBranches(Last(run), Clock(run), o, input, t0, t1);
    }
    assert NeverCommits(run, s, o, refs, reason);
  }
}
