/** The repository object whose tables the draft operations rewrite. Each method is proved to take
    the tables to what the protocol's step functions say, and to give their answer. */
module DraftRepo {
  import opened Basics
  import opened Schema
  import opened Draft

  /** Returns NotFound at the first reference that names no artifact revision. */
  method RequireArtifactsExist(artifacts: map<ArtifactRef, ArtifactRow>, refs: seq<ArtifactRef>) returns (ok: bool)
    ensures ok <==> AllExist(artifacts, refs)
  {
    for i := 0 to |refs|
      invariant forall j :: 0 <= j < i ==> refs[j] in artifacts
    {
      if refs[i] !in artifacts {
        return false;
      }
    }
    return true;
  }

  method ResolveArtifacts(artifacts: map<ArtifactRef, ArtifactRow>, refs: seq<ArtifactRef>)
    returns (r: Result<seq<Artifact>, Error>)
    ensures r == if AllExist(artifacts, refs) then Ok(Resolve(artifacts, refs)) else Err(NotFound)
  {
    var out: seq<Artifact> := [];
    for i := 0 to |refs|
      invariant |out| == i
      invariant forall j :: 0 <= j < i ==> refs[j] in artifacts && out[j] == Artifact(refs[j], artifacts[refs[j]])
    {
      if refs[i] !in artifacts {
        return Err(NotFound);
      }
      out := out + [Artifact(refs[i], artifacts[refs[i]])];
    }
    assert AllExist(artifacts, refs);
    assert out == Resolve(artifacts, refs);
    return Ok(out);
  }

  /** MAX(version) over the rows of one uuid, plus one. */
  method NextCollectionVersion(collections: map<CollectionKey, CollectionRow>, uuid: string) returns (v: int)
    ensures v == NextVersion(collections, uuid)
  {
    var todo := collections.Keys;
    var max: Option<int> := None;
    ghost var vs := Versions(collections, uuid);
    while todo != {}
      invariant todo <= collections.Keys
      invariant max.Some? ==> max.value in vs
      invariant forall k :: k in collections && k !in todo && k.uuid == uuid ==> max.Some? && k.version <= max.value
      decreases todo
    {
      var k :| k in todo;
      if k.uuid == uuid && (max.None? || k.version > max.value) {
        max := Some(k.version);
      }
      todo := todo - {k};
    }
    if max.Some? {
      assert IsMax(max.value, vs);
      return max.value + 1;
    }
    return 1;
  }

  /** Inserts the collection_artifact rows one by one; the primary key rejects a repeat and the
      foreign key an unknown artifact. */
  method InsertCollectionArtifacts(artifacts: map<ArtifactRef, ArtifactRow>, refs: seq<ArtifactRef>) returns (ok: bool)
    ensures ok <==> NoDuplicates(refs) && AllExist(artifacts, refs)
  {
    var seen: set<ArtifactRef> := {};
    for i := 0 to |refs|
      invariant seen == set j | 0 <= j < i :: refs[j]
      invariant forall j, k :: 0 <= j < k < i ==> refs[j] != refs[k]
      invariant forall j :: 0 <= j < i ==> refs[j] in artifacts
    {
      if refs[i] in seen || refs[i] !in artifacts {
        return false;
      }
      seen := seen + {refs[i]};
    }
    return true;
  }

  class Repo {
    var releases: set<Owner>
    var artifacts: map<ArtifactRef, ArtifactRow>
    var collections: map<CollectionKey, CollectionRow>
    var drafts: map<Owner, DraftRow>
    var draftArtifacts: map<Owner, seq<ArtifactRef>>
    var evidence: map<string, Evidence>

    ghost function Tables(): Store
      reads this
    {
      Store(releases, artifacts, collections, drafts, draftArtifacts, evidence)
    }

    constructor (releases: set<Owner>, artifacts: map<ArtifactRef, ArtifactRow>,
                 collections: map<CollectionKey, CollectionRow>, evidence: map<string, Evidence>)
      ensures Tables() == Store(releases, artifacts, collections, map[], map[], evidence)
    {
      this.releases, this.artifacts, this.collections, this.evidence := releases, artifacts, collections, evidence;
      drafts, draftArtifacts := map[], map[];
    }

    method PutCollectionDraft(o: Owner, actor: string, credential: string, refs: seq<ArtifactRef>,
                              reason: Option<UpdateReason>, ttl: int, expected: Option<int>,
                              tLock: int, tExpiry: int) returns (r: Result<DraftRow, Error>)
      modifies this
      ensures Reply(Tables(), r) == Put(old(Tables()), o, actor, credential, refs, reason, ttl, expected, tLock,
                                        tExpiry)
    {
      if o !in releases {
        return Err(NotFound);
      }
      var exist := RequireArtifactsExist(artifacts, refs);
      if !exist {
        return Err(NotFound);
      }
      var revision, current := 1, 0;
      if o in drafts {
        if LockHeld(drafts[o], tLock) {
          return Err(DraftLocked);
        }
        current := drafts[o].revision;
        revision := drafts[o].revision + 1;
      }
      if expected.Some? && expected.value != current {
        return Err(RevisionConflict);
      }
      var row := DraftRow(revision, actor, NullIfEmpty(credential), ReasonKindColumn(reason),
                          ReasonCommentColumn(reason),
                          FloorSecond(tExpiry + ttl), None, None, Undecided, None, None, None, None, None, None);
      drafts := drafts[o := row];
      draftArtifacts := draftArtifacts - {o};
      draftArtifacts := draftArtifacts[o := refs];
      assert draftArtifacts == old(draftArtifacts)[o := refs];
      return Ok(row);
    }

    method DecideCollectionDraft(o: Owner, actor: string, credential: string, comment: string, approve: bool,
                                 ttl: int, tLock: int, tExpiry: int, tAt: int) returns (r: Result<DraftRow, Error>)
      modifies this
      ensures Reply(Tables(), r) == Decide(old(Tables()), o, actor, credential, comment, approve, ttl, tLock,
                                           tExpiry, tAt)
    {
      if o !in drafts {
        return Err(NotFound);
      }
      var row := drafts[o];
      if LockHeld(row, tLock) {
        return Err(DraftLocked);
      }
      if actor == row.draftedBy {
        return Err(SelfApproval);
      }
      if credential != "" && row.draftedByCredential.Some? && credential == row.draftedByCredential.value {
        return Err(SelfApproval);
      }
      var status, expiresAt := Rejected, None;
      if approve {
        status := Approved;
        expiresAt := Some(FloorSecond(tExpiry + ttl));
      }
      row := row.(approval := status, decidedBy := Some(actor), decidedByCredential := NullIfEmpty(credential),
                  decidedAt := Some(FloorSecond(tAt)), decidedAtRevision := Some(row.revision),
                  approvalExpiresAt := expiresAt, approvalComment := NullIfEmpty(comment));
      drafts := drafts[o := row];
      return Ok(row);
    }

    method BuildWouldBeCollection(o: Owner, requireLock: bool, tLock: int, tApproval: int, tDate: int)
      returns (r: Result<Collection, Error>)
      ensures r == WouldBe(Tables(), o, requireLock, tLock, tApproval, tDate)
    {
      if o !in drafts {
        return Err(NotFound);
      }
      var row := drafts[o];
      if requireLock && !LockHeld(row, tLock) {
        return Err(LockNotHeld);
      }
      if row.approval != Approved || row.decidedAtRevision.None? || row.decidedAtRevision.value != row.revision
         || row.approvalExpiresAt.None? {
        return Err(ApprovalRequired);
      }
      if !(row.approvalExpiresAt.value > tApproval) {
        return Err(ApprovalRequired);
      }
      var resolved := ResolveArtifacts(artifacts, if o in draftArtifacts then draftArtifacts[o] else []);
      if resolved.Err? {
        return Err(resolved.error);
      }
      var version := NextCollectionVersion(collections, o.uuid);
      var date := FloorSecond(tDate);
      if requireLock {
        if row.lockDate.None? {
          return Err(LockWithoutDate);
        }
        date := row.lockDate.value;
      }
      return Ok(Collection(CollectionKey(o.uuid, version), date, o.kind, resolved.value,
                           ReadReason(row.reasonKind, row.reasonComment)));
    }

    method PrepareCollectionCommit(o: Owner, ttl: int, tApproval: int, tDate: int, tLock: int)
      returns (r: Result<Collection, Error>)
      modifies this
      ensures Reply(Tables(), r) == Prepare(old(Tables()), o, ttl, tApproval, tDate, tLock)
    {
      r := BuildWouldBeCollection(o, false, tApproval, tApproval, tDate);
      if r.Err? {
        return;
      }
      drafts := drafts[o := drafts[o].(lockExpiresAt := Some(FloorSecond(tLock + ttl)),
                                       lockDate := Some(FloorSecond(r.value.date)))];
    }

    method ReadLockForCancel(o: Owner, tLock: int) returns (r: Result<(), Error>)
      ensures r == CancelRead(Tables(), o, tLock)
    {
      if o !in drafts {
        return Err(NotFound);
      }
      if !LockHeld(drafts[o], tLock) {
        return Err(LockNotHeld);
      }
      return Ok(());
    }

    method ClearLock(o: Owner)
      modifies this
      ensures Tables() == CancelWrite(old(Tables()), o)
    {
      if o in drafts {
        drafts := drafts[o := drafts[o].(lockExpiresAt := None, lockDate := None)];
      }
    }

    method DeleteCollectionDraft(o: Owner) returns (r: Result<(), Error>)
      modifies this
      ensures Reply(Tables(), r) == Delete(old(Tables()), o)
    {
      if o !in drafts {
        return Err(NotFound);
      }
      drafts := drafts - {o};
      draftArtifacts := draftArtifacts - {o};
      return Ok(());
    }

    method CreateCollectionForRelease(o: Owner, refs: seq<ArtifactRef>, reason: Option<UpdateReason>, date: int)
      returns (r: Result<Collection, Error>)
      modifies this
      ensures Reply(Tables(), r) == CreateCollection(old(Tables()), o, refs, reason, date)
    {
      if o !in releases {
        return Err(NotFound);
      }
      var version := NextCollectionVersion(collections, o.uuid);
      var inserted := InsertCollectionArtifacts(artifacts, refs);
      if (reason.Some? && reason.value.kind !in REASON_KINDS) || !inserted {
        return Err(ConstraintFailed);
      }
      var key := CollectionKey(o.uuid, version);
      var row := CollectionRow(FloorSecond(date), o.kind, ReasonKindColumn(reason), ReasonCommentColumn(reason), refs);
      collections := collections[key := row];
      var embedded := ResolveArtifacts(artifacts, row.refs);
      return Ok(Collection(key, row.date, row.belongsTo, embedded.value,
                           ReadReason(row.reasonKind, row.reasonComment)));
    }

    method CreateEvidenceBundle(owner: EvidenceOwner, input: EvidenceInput) returns (r: Result<(), Error>)
      modifies this
      ensures Reply(Tables(), r) == RecordEvidence(old(Tables()), owner, input)
    {
      var exists_ := match owner case OfArtifact(a) => a in artifacts case OfCollection(k) => k in collections;
      if !exists_ {
        return Err(NotFound);
      }
      var e := Evidence(owner, input.digest, input.signature, input.certificate);
      if input.fingerprint in evidence {
        if evidence[input.fingerprint] == e {
          return Ok(());
        }
        return Err(FingerprintReused);
      }
      evidence := evidence[input.fingerprint := e];
      return Ok(());
    }

    /** One transaction: any failure restores every table it has written. */
    method CommitCollectionDraft(o: Owner, input: EvidenceInput, tLock: int, tApproval: int)
      returns (r: Result<Collection, Error>)
      modifies this
      ensures Reply(Tables(), r) == Commit(old(Tables()), o, input, tLock, tApproval)
    {
      var savedCollections, savedEvidence := collections, evidence;
      var wouldBe := BuildWouldBeCollection(o, true, tLock, tApproval, tApproval);
      if wouldBe.Err? {
        return wouldBe;
      }
      r := CreateCollectionForRelease(o, Refs(wouldBe.value.artifacts), wouldBe.value.reason, wouldBe.value.date);
      if r.Err? {
        return;
      }
      var mismatch := if r.value.key.version != wouldBe.value.key.version then Some(VersionRace)
                      else if r.value.date != wouldBe.value.date then Some(DateMismatch)
                      else None;
      if mismatch.Some? {
        collections := savedCollections;
        return Err(mismatch.value);
      }
      var recorded := CreateEvidenceBundle(OfCollection(r.value.key), input);
      if recorded.Err? {
        collections, evidence := savedCollections, savedEvidence;
        return Err(recorded.error);
      }
      drafts := drafts - {o};
      draftArtifacts := draftArtifacts - {o};
    }
  }

  /** The artifact uuids the draft adds to and removes from the release's latest collection.
      Applying the difference to the live uuids gives the draft's uuids. */
  method DiffAgainstCurrent(draft: seq<ArtifactRef>, current: seq<ArtifactRef>)
    returns (added: set<string>, removed: seq<string>)
    ensures Elements(removed) !! added
    ensures ((set a | a in current :: a.uuid) - Elements(removed)) + added == (set a | a in draft :: a.uuid)
    ensures Elements(removed) <= (set a | a in current :: a.uuid)
    ensures added !! (set a | a in current :: a.uuid)
  {
    var draftUUIDs: set<string> := {};
    for i := 0 to |draft|
      invariant draftUUIDs == set j | 0 <= j < i :: draft[j].uuid
    {
      draftUUIDs := draftUUIDs + {draft[i].uuid};
    }
    var currentUUIDs: set<string> := {};
    removed := [];
    for i := 0 to |current|
      invariant currentUUIDs == set j | 0 <= j < i :: current[j].uuid
      invariant Elements(removed) == currentUUIDs - draftUUIDs
    {
      currentUUIDs := currentUUIDs + {current[i].uuid};
      if current[i].uuid !in draftUUIDs {
        ElementsAppend(removed, current[i].uuid);
        removed := removed + [current[i].uuid];
      }
    }
    added := set u | u in draftUUIDs && u !in currentUUIDs;
    assert draftUUIDs == set a | a in draft :: a.uuid;
    assert currentUUIDs == set a | a in current :: a.uuid;
  }
}
