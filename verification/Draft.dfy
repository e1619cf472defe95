/** The collection-draft signing protocol: its tables, and what each repository operation
    answers and leaves behind, as functions of the tables, the arguments and the clock readings
    the operation takes. An operation in one transaction on the single connection is one step; each
    clock reading it takes is a separate argument. Cancel and peek run in no transaction: cancel is
    a read and a write here, and DraftSigning takes peek apart into its statements. */
module Draft {
  import opened Basics
  import opened Schema

  datatype Owner = Owner(kind: OwnerKind, uuid: string)

  /** An artifact revision: descriptive columns, and the checksum of each format's current file. */
  datatype ArtifactRow = ArtifactRow(meta: string, files: seq<string>)

  datatype Artifact = Artifact(ref: ArtifactRef, row: ArtifactRow)

  /** A collection as it is served and as it is signed: artifacts are embedded whole. */
  datatype Collection = Collection(
    key: CollectionKey, date: int, belongsTo: OwnerKind, artifacts: seq<Artifact>,
    reason: Option<UpdateReason>)

  datatype ApprovalStatus = Undecided | Approved | Rejected

  datatype DraftRow = DraftRow(
    revision: int, draftedBy: string, draftedByCredential: Option<string>,
    reasonKind: Option<string>, reasonComment: Option<string>, expiresAt: int,
    lockExpiresAt: Option<int>, lockDate: Option<int>,
    approval: ApprovalStatus, decidedBy: Option<string>, decidedByCredential: Option<string>,
    decidedAt: Option<int>, decidedAtRevision: Option<int>, approvalExpiresAt: Option<int>,
    approvalComment: Option<string>)

  datatype EvidenceOwner = OfArtifact(ref: ArtifactRef) | OfCollection(key: CollectionKey)

  /** What an evidence bundle binds to its certificate fingerprint. */
  datatype Evidence = Evidence(owner: EvidenceOwner, digest: string, signature: string, certificate: string)

  datatype EvidenceInput = EvidenceInput(fingerprint: string, digest: string, signature: string, certificate: string)

  datatype Store = Store(
    releases: set<Owner>,
    artifacts: map<ArtifactRef, ArtifactRow>,
    collections: map<CollectionKey, CollectionRow>,
    drafts: map<Owner, DraftRow>,
    draftArtifacts: map<Owner, seq<ArtifactRef>>,
    evidence: map<string, Evidence>)

  datatype Error =
    | NotFound | DraftLocked | SelfApproval | ApprovalRequired | LockNotHeld | RevisionConflict
    | FingerprintReused | ConstraintFailed
    | LockWithoutDate | VersionRace | DateMismatch

  // ---------------------------------------------------------------- shared reads

  predicate LockHeld(row: DraftRow, now: int)
  {
    row.lockExpiresAt.Some? && row.lockExpiresAt.value > now
  }

  ghost function Versions(collections: map<CollectionKey, CollectionRow>, uuid: string): set<int>
  {
    set k | k in collections && k.uuid == uuid :: k.version
  }

  /** One more than the highest version stored under the uuid, whatever kind it belongs to. */
  ghost function NextVersion(collections: map<CollectionKey, CollectionRow>, uuid: string): int
  {
    var vs := Versions(collections, uuid);
    if exists m :: IsMax(m, vs) then var m :| IsMax(m, vs); m + 1 else 1
  }

  lemma NextVersionIsFresh(collections: map<CollectionKey, CollectionRow>, uuid: string)
    ensures CollectionKey(uuid, NextVersion(collections, uuid)) !in collections
  {
    var key := CollectionKey(uuid, NextVersion(collections, uuid));
    if key in collections {
      assert key.version in Versions(collections, uuid);
      MaxExists(Versions(collections, uuid), key.version);
    }
  }

  ghost predicate AllExist(artifacts: map<ArtifactRef, ArtifactRow>, refs: seq<ArtifactRef>)
  {
    forall r :: r in refs ==> r in artifacts
  }

  ghost function Resolve(artifacts: map<ArtifactRef, ArtifactRow>, refs: seq<ArtifactRef>): (r: seq<Artifact>)
    requires AllExist(artifacts, refs)
    ensures |r| == |refs|
    ensures forall i :: 0 <= i < |refs| ==> r[i] == Artifact(refs[i], artifacts[refs[i]])
  {
    seq(|refs|, i requires 0 <= i < |refs| => Artifact(refs[i], artifacts[refs[i]]))
  }

  function Refs(artifacts: seq<Artifact>): (r: seq<ArtifactRef>)
    ensures |r| == |artifacts|
    ensures forall i :: 0 <= i < |r| ==> r[i] == artifacts[i].ref
  {
    seq(|artifacts|, i requires 0 <= i < |artifacts| => artifacts[i].ref)
  }

  lemma ResolveRefs(artifacts: map<ArtifactRef, ArtifactRow>, refs: seq<ArtifactRef>)
    requires AllExist(artifacts, refs)
    ensures Refs(Resolve(artifacts, refs)) == refs
  {
  }

  /** A collection version read back from its rows, for one kind of owner. */
  ghost function ReadCollection(s: Store, key: CollectionKey, kind: OwnerKind): Result<Collection, Error>
  {
    if key !in s.collections || s.collections[key].belongsTo != kind then Err(NotFound)
    else
      var row := s.collections[key];
      if !AllExist(s.artifacts, row.refs) then Err(NotFound)
      else Ok(Collection(key, row.date, row.belongsTo, Resolve(s.artifacts, row.refs),
                         ReadReason(row.reasonKind, row.reasonComment)))
  }

  // ---------------------------------------------------------------- operations

  datatype Reply<+T> = Reply(store: Store, result: Result<T, Error>)

  /** Creates or replaces a draft. tLock is the reading of the lock test, tExpiry the one the
      draft's own expiry is counted from. */
  ghost function Put(s: Store, o: Owner, actor: string, credential: string, refs: seq<ArtifactRef>,
                     reason: Option<UpdateReason>, ttl: int, expected: Option<int>,
                     tLock: int, tExpiry: int): Reply<DraftRow>
  {
    if o !in s.releases then Reply(s, Err(NotFound))
    else if !AllExist(s.artifacts, refs) then Reply(s, Err(NotFound))
    else if o in s.drafts && LockHeld(s.drafts[o], tLock) then Reply(s, Err(DraftLocked))
    else
      var current := if o in s.drafts then s.drafts[o].revision else 0;
      if expected.Some? && expected.value != current then Reply(s, Err(RevisionConflict))
      else
        var row := DraftRow(current + 1, actor, NullIfEmpty(credential),
                            ReasonKindColumn(reason), ReasonCommentColumn(reason),
                            FloorSecond(tExpiry + ttl), None, None,
                            Undecided, None, None, None, None, None, None);
        Reply(s.(drafts := s.drafts[o := row], draftArtifacts := s.draftArtifacts[o := refs]), Ok(row))
  }

  /** Records a decision on the draft's current revision. */
  ghost function Decide(s: Store, o: Owner, actor: string, credential: string, comment: string,
                        approve: bool, ttl: int, tLock: int, tExpiry: int, tAt: int): Reply<DraftRow>
  {
    if o !in s.drafts then Reply(s, Err(NotFound))
    else
      var row := s.drafts[o];
      if LockHeld(row, tLock) then Reply(s, Err(DraftLocked))
      else if actor == row.draftedBy then Reply(s, Err(SelfApproval))
      else if credential != "" && row.draftedByCredential == Some(credential) then Reply(s, Err(SelfApproval))
      else
        var row' := row.(
                    approval := if approve then Approved else Rejected,
                    decidedBy := Some(actor), decidedByCredential := NullIfEmpty(credential),
                    decidedAt := Some(FloorSecond(tAt)), decidedAtRevision := Some(row.revision),
                    approvalExpiresAt := if approve then Some(FloorSecond(tExpiry + ttl)) else None,
                    approvalComment := NullIfEmpty(comment));
        Reply(s.(drafts := s.drafts[o := row']), Ok(row'))
  }

  ghost predicate ApprovalCurrent(row: DraftRow, now: int)
  {
    && row.approval == Approved
    && row.decidedAtRevision == Some(row.revision)
    && row.approvalExpiresAt.Some?
    && row.approvalExpiresAt.value > now
  }

  /** The draft's artifact list; a draft with no stored rows has the empty list. */
  function DraftRefs(s: Store, o: Owner): seq<ArtifactRef>
  {
    if o in s.draftArtifacts then s.draftArtifacts[o] else []
  }

  /** The collection the draft would become if it were committed now. */
  ghost function WouldBe(s: Store, o: Owner, requireLock: bool, tLock: int, tApproval: int, tDate: int)
    : Result<Collection, Error>
  {
    if o !in s.drafts then Err(NotFound)
    else
      var row := s.drafts[o];
      if requireLock && !LockHeld(row, tLock) then Err(LockNotHeld)
      else if !ApprovalCurrent(row, tApproval) then Err(ApprovalRequired)
      else if !AllExist(s.artifacts, DraftRefs(s, o)) then Err(NotFound)
      else if requireLock && row.lockDate.None? then Err(LockWithoutDate)
      else
        Ok(Collection(CollectionKey(o.uuid, NextVersion(s.collections, o.uuid)),
                      if requireLock then row.lockDate.value else FloorSecond(tDate),
                      o.kind, Resolve(s.artifacts, DraftRefs(s, o)),
                      ReadReason(row.reasonKind, row.reasonComment)))
  }

  /** Takes the signing lock and fixes the date that will be signed. */
  ghost function Prepare(s: Store, o: Owner, ttl: int, tApproval: int, tDate: int, tLock: int): Reply<Collection>
  {
    var w := WouldBe(s, o, false, tApproval, tApproval, tDate);
    if w.Err? then Reply(s, w)
    else
      var row := s.drafts[o].(lockExpiresAt := Some(FloorSecond(tLock + ttl)),
                              lockDate := Some(FloorSecond(w.value.date)));
      Reply(s.(drafts := s.drafts[o := row]), w)
  }

  /** A peek all of whose statements see the same state. */
  ghost function Peek(s: Store, o: Owner, tLock: int, tApproval: int): Result<Collection, Error>
  {
    WouldBe(s, o, true, tLock, tApproval, tApproval)
  }

  /** Cancelling is a read and then a separate write, in no transaction. */
  ghost function CancelRead(s: Store, o: Owner, tLock: int): Result<(), Error>
  {
    if o !in s.drafts then Err(NotFound)
    else if !LockHeld(s.drafts[o], tLock) then Err(LockNotHeld)
    else Ok(())
  }

  ghost function CancelWrite(s: Store, o: Owner): Store
  {
    if o in s.drafts then s.(drafts := s.drafts[o := s.drafts[o].(lockExpiresAt := None, lockDate := None)])
    else s
  }

  /** Deleting a draft cascades to its artifact list. */
  ghost function RemoveDraft(s: Store, o: Owner): Store
  {
    s.(drafts := s.drafts - {o}, draftArtifacts := s.draftArtifacts - {o})
  }

  ghost function Delete(s: Store, o: Owner): Reply<()>
  {
    if o !in s.drafts then Reply(s, Err(NotFound)) else Reply(RemoveDraft(s, o), Ok(()))
  }

  /** The constraints on a new collection version's rows: the CHECK on the reason, the primary key
      of collection_artifact and its foreign key to artifact. */
  ghost predicate Insertable(s: Store, reason: Option<UpdateReason>, refs: seq<ArtifactRef>)
  {
    && (reason.Some? ==> reason.value.kind in REASON_KINDS)
    && NoDuplicates(refs)
    && AllExist(s.artifacts, refs)
  }

  /** Publishes the next version for a release; date is the caller's or the clock's. */
  ghost function CreateCollection(s: Store, o: Owner, refs: seq<ArtifactRef>, reason: Option<UpdateReason>,
                                  date: int): Reply<Collection>
  {
    if o !in s.releases then Reply(s, Err(NotFound))
    else if !Insertable(s, reason, refs) then Reply(s, Err(ConstraintFailed))
    else
      var key := CollectionKey(o.uuid, NextVersion(s.collections, o.uuid));
      var row := CollectionRow(FloorSecond(date), o.kind, ReasonKindColumn(reason), ReasonCommentColumn(reason), refs);
      var s' := s.(collections := s.collections[key := row]);
      Reply(s', ReadCollection(s', key, o.kind))
  }

  /** A version arriving with an explicit identity, from a bundle. An identity already present is
      left alone. */
  ghost function ImportCollection(s: Store, key: CollectionKey, kind: OwnerKind, date: int,
                                  reason: Option<UpdateReason>, refs: seq<ArtifactRef>): Store
  {
    if key in s.collections || !Insertable(s, reason, refs) then s
    else s.(collections := s.collections[key := CollectionRow(FloorSecond(date), kind, ReasonKindColumn(reason),
                                                               ReasonCommentColumn(reason), refs)])
  }

  /** Binds evidence to a certificate fingerprint. A used fingerprint is accepted again only for
      identical evidence. */
  ghost function RecordEvidence(s: Store, owner: EvidenceOwner, input: EvidenceInput): Reply<()>
  {
    var e := Evidence(owner, input.digest, input.signature, input.certificate);
    if (match owner case OfArtifact(r) => r !in s.artifacts case OfCollection(k) => k !in s.collections)
    then Reply(s, Err(NotFound))
    else if input.fingerprint !in s.evidence then
      Reply(s.(evidence := s.evidence[input.fingerprint := e]), Ok(()))
    else if s.evidence[input.fingerprint] == e then Reply(s, Ok(()))
    else Reply(s, Err(FingerprintReused))
  }

  /** Publishes the would-be collection, records its evidence and deletes the draft, or does nothing. */
  ghost function Commit(s: Store, o: Owner, input: EvidenceInput, tLock: int, tApproval: int): Reply<Collection>
  {
    var w := WouldBe(s, o, true, tLock, tApproval, tApproval);
    if w.Err? then Reply(s, w)
    else
      var created := CreateCollection(s, o, Refs(w.value.artifacts), w.value.reason, w.value.date);
      if created.result.Err? then Reply(s, created.result)
      else if created.result.value.key.version != w.value.key.version then Reply(s, Err(VersionRace))
      else if created.result.value.date != w.value.date then Reply(s, Err(DateMismatch))
      else
        var recorded := RecordEvidence(created.store, OfCollection(created.result.value.key), input);
        if recorded.result.Err? then Reply(s, Err(recorded.result.error))
        else Reply(RemoveDraft(recorded.store, o), created.result)
  }

  // ---------------------------------------------------------------- steps

  /** Every way the tables change or are consulted, with the clock readings each step takes. The
      last five are the writes of other parts of the system that the protocol can see. */
  datatype Event =
    | EPut(o: Owner, actor: string, credential: string, refs: seq<ArtifactRef>, reason: Option<UpdateReason>,
           ttl: int, expected: Option<int>, t0: int, t1: int)
    | EDecide(o: Owner, actor: string, credential: string, comment: string, approve: bool, ttl: int,
              t0: int, t1: int, t2: int)
    | EPrepare(o: Owner, ttl: int, t0: int, t1: int, t2: int)
    | EPeek(o: Owner, t0: int, t1: int)
    | ECancelRead(o: Owner, t0: int)
    | ECancelWrite(o: Owner)
    | EDelete(o: Owner)
    | ECommit(o: Owner, input: EvidenceInput, t0: int, t1: int)
    | ECreateCollection(o: Owner, refs: seq<ArtifactRef>, reason: Option<UpdateReason>, t0: int)
    | EImportCollection(key: CollectionKey, kind: OwnerKind, date: int, reason: Option<UpdateReason>,
                        refs: seq<ArtifactRef>)
    | EAddArtifact(ref: ArtifactRef, row: ArtifactRow)
    | EUpload(ref: ArtifactRef, format: nat, checksum: string)
    | EReleases(releases: set<Owner>)
    | EArtifactEvidence(ref: ArtifactRef, input: EvidenceInput)

  /** The tables after the step, its error if it was refused, and the collection it answered with. */
  datatype Outcome = Outcome(store: Store, error: Option<Error>, answer: Option<Collection>)

  ghost function ErrorOf<T>(r: Result<T, Error>): Option<Error>
  {
    if r.Err? then Some(r.error) else None
  }

  ghost function AnswerOf(r: Result<Collection, Error>): Option<Collection>
  {
    if r.Ok? then Some(r.value) else None
  }

  ghost function Upload(s: Store, ref: ArtifactRef, format: nat, checksum: string): Store
  {
    if ref in s.artifacts && format < |s.artifacts[ref].files| then
      var row := s.artifacts[ref];
      s.(artifacts := s.artifacts[ref := row.(files := row.files[format := checksum])])
    else s
  }

  ghost function Step(s: Store, e: Event): Outcome
  {
    match e
    case EPut(o, actor, credential, refs, reason, ttl, expected, t0, t1) =>
      var r := Put(s, o, actor, credential, refs, reason, ttl, expected, t0, t1);
      Outcome(r.store, ErrorOf(r.result), None)
    case EDecide(o, actor, credential, comment, approve, ttl, t0, t1, t2) =>
      var r := Decide(s, o, actor, credential, comment, approve, ttl, t0, t1, t2);
      Outcome(r.store, ErrorOf(r.result), None)
    case EPrepare(o, ttl, t0, t1, t2) =>
      var r := Prepare(s, o, ttl, t0, t1, t2);
      Outcome(r.store, ErrorOf(r.result), AnswerOf(r.result))
    case EPeek(o, t0, t1) =>
      var r := Peek(s, o, t0, t1);
      Outcome(s, ErrorOf(r), AnswerOf(r))
    case ECancelRead(o, t0) => Outcome(s, ErrorOf(CancelRead(s, o, t0)), None)
    case ECancelWrite(o) => Outcome(CancelWrite(s, o), None, None)
    case EDelete(o) =>
      var r := Delete(s, o);
      Outcome(r.store, ErrorOf(r.result), None)
    case ECommit(o, input, t0, t1) =>
      var r := Commit(s, o, input, t0, t1);
      Outcome(r.store, ErrorOf(r.result), AnswerOf(r.result))
    case ECreateCollection(o, refs, reason, t0) =>
      var r := CreateCollection(s, o, refs, reason, t0);
      Outcome(r.store, ErrorOf(r.result), AnswerOf(r.result))
    case EImportCollection(key, kind, date, reason, refs) =>
      Outcome(ImportCollection(s, key, kind, date, reason, refs), None, None)
    case EAddArtifact(ref, row) =>
      Outcome(if ref in s.artifacts then s else s.(artifacts := s.artifacts[ref := row]), None, None)
    case EUpload(ref, format, checksum) => Outcome(Upload(s, ref, format, checksum), None, None)
    case EReleases(releases) => Outcome(s.(releases := releases), None, None)
    case EArtifactEvidence(ref, input) =>
      var r := RecordEvidence(s, OfArtifact(ref), input);
      Outcome(r.store, ErrorOf(r.result), None)
  }
}
