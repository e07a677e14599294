/** How reconciliation classifies one known row (crates/noxide-blobs/src/inspect.rs). */
module BlobInspect {
  import opened Prelude
  import opened BlobState
  import opened BlobDatabase

  datatype Physical = Physical(partial: Option<nat>, finalized: Option<nat>)

  datatype FindingKind =
    | RetainKnown
    | RetainActiveOrUncertainUpload
    | ClaimExpiredStage
    | ClaimUnreferenced
    | ClaimStoppedUpload
    | RecoverPriorProcessUpload
    | ResumeStoppedDeletion
    | RecoverPriorProcessDeletion
    | CleanKnownDeletedObject
    | RetainTombstone
    | MissingReferencedObject
    | PhysicalMetadataMismatch
  {
    predicate RequiresOperator() {
      MissingReferencedObject? || PhysicalMetadataMismatch?
    }

    /** The findings that lead to a deletion claim. */
    predicate Claims() {
      || ClaimExpiredStage?
      || ClaimUnreferenced?
      || ClaimStoppedUpload?
      || RecoverPriorProcessUpload?
      || ResumeStoppedDeletion?
      || RecoverPriorProcessDeletion?
    }

    predicate RecoverableHint() {
      Claims() || CleanKnownDeletedObject?
    }
  }

  function Classify(row: Row, process: Id, physical: Option<Physical>, proof: Option<StoppedIo>, now: int): FindingKind {
    var m := row.metadata;
    var prior := row.process != process;
    var proven := proof.Some? && proof.value.key == m.key && proof.value.generation == m.generation;
    var complete := && physical.Some?
                    && physical.value.partial.None?
                    && physical.value.finalized == Some(m.bytes)
                    && m.bytes <= MAX_UPLOAD_BYTES;
    match m.state
    case Uploading =>
      if prior then RecoverPriorProcessUpload
      else if proven && (proof.value.failedOrCancelled || now >= m.expires) then ClaimStoppedUpload
      else RetainActiveOrUncertainUpload
    case Staged =>
      if now >= m.expires then ClaimExpiredStage
      else if complete then RetainKnown
      else if physical.None? then MissingReferencedObject
      else PhysicalMetadataMismatch
    case Attached =>
      if complete then RetainKnown
      else if physical.None? then MissingReferencedObject
      else PhysicalMetadataMismatch
    case Unreferenced => ClaimUnreferenced
    case Deleting =>
      if prior then RecoverPriorProcessDeletion
      else if proven then ResumeStoppedDeletion
      else RetainActiveOrUncertainUpload
    case Deleted =>
      if physical.Some? then CleanKnownDeletedObject else RetainTombstone
  }
}
