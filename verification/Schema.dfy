/** The identities and rows that several parts of the system share. */
module Schema {
  import opened Basics

  datatype OwnerKind = PRODUCT_RELEASE | COMPONENT_RELEASE

  datatype ArtifactRef = ArtifactRef(uuid: string, version: int)

  /** A collection's uuid is the uuid of the release that owns it. */
  datatype CollectionKey = CollectionKey(uuid: string, version: int)

  datatype UpdateReason = UpdateReason(kind: string, comment: string)

  datatype CollectionRow = CollectionRow(
    date: int, belongsTo: OwnerKind, reasonKind: Option<string>, reasonComment: Option<string>, refs: seq<ArtifactRef>)

  /** The values the CHECK constraint on collection.update_reason_type admits. */
  const REASON_KINDS: set<string> :=
    {"INITIAL_RELEASE", "VEX_UPDATED", "ARTIFACT_UPDATED", "ARTIFACT_ADDED", "ARTIFACT_REMOVED"}

  function ReasonKindColumn(reason: Option<UpdateReason>): Option<string>
  {
    if reason.Some? then Some(reason.value.kind) else None
  }

  function ReasonCommentColumn(reason: Option<UpdateReason>): Option<string>
  {
    if reason.Some? then NullIfEmpty(reason.value.comment) else None
  }

  function ReadReason(kind: Option<string>, comment: Option<string>): Option<UpdateReason>
  {
    if kind.Some? then Some(UpdateReason(kind.value, OrEmpty(comment))) else None
  }
}
