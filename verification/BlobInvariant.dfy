/** The inductive invariant of the blob lifecycle, one cell at a time. */
module BlobInvariant {
  import opened Prelude
  import opened BlobState
  import opened BlobDatabase
  import opened BlobConservation
  import opened BlobInspect
  import opened BlobProtocol

  predicate GenIs(c: Cell, i: nat, g: nat) {
    IsWitness(c, i) && c.witnesses[i].generation == g
  }

  predicate Unstopped(c: Cell, i: nat) {
    IsWitness(c, i) && !c.witnesses[i].stopped
  }

  /** No worker runs and no party can still start one for the upload. */
  predicate Quiet(c: Cell) {
    c.jobs == map[] && !c.upload.Reserving? && !c.upload.Granted? && !c.upload.UploadStarted?
  }

  predicate ReconHolds(c: Cell, i: nat) {
    match c.recon
    case Armed(_, l) => l == i
    case Claimed(_, l) => l == i
    case RemoveStarted(_, l, _) => l == i
    case RemoveRecorded(_, l, _) => l == i
    case _ => false
  }

  predicate UploadHolds(c: Cell, i: nat) {
    match c.upload
    case Reserving(_, _, l) => l == i
    case Granted(_, l) => l == i
    case UploadStarted(_, l, _) => l == i
    case _ => false
  }

  /** A registered witness is stopped, or someone who will stop it still owns it. */
  predicate Owned(c: Cell, i: nat) {
    && IsWitness(c, i)
    && (c.witnesses[i].stopped || i in c.jobs || ReconHolds(c, i) || UploadHolds(c, i))
  }

  predicate RegisteredAt(c: Cell, slot: Option<nat>, g: nat) {
    slot.Some? && GenIs(c, slot.value, g) && Owned(c, slot.value)
  }

  predicate AtMost(c: Cell, slot: Option<nat>, g: nat) {
    slot.Some? ==> IsWitness(c, slot.value) && c.witnesses[slot.value].generation <= g
  }

  predicate JobsRun(c: Cell) {
    forall i :: i in c.jobs ==> Unstopped(c, i)
  }

  predicate OnlyJob(c: Cell, j: nat) {
    forall i :: i in c.jobs ==> i == j
  }

  predicate OneJob(c: Cell) {
    forall i :: i in c.jobs ==> OnlyJob(c, i)
  }

  /** A snapshot some party holds: never newer than the row, and the row itself at its generation. */
  predicate SnapOk(key: Id, r: Row, x: Row) {
    && x.metadata.key == key
    && 0 < x.metadata.generation <= r.metadata.generation
    && (x.metadata.generation == r.metadata.generation || x.metadata.state == Deleted ==> x == r)
  }

  function Target(w: Write): nat {
    if w.Insert? then 0 else w.from.metadata.generation
  }

  predicate Older(c: Cell, g: int) {
    forall w :: w in c.inflight && !w.Insert? ==> Target(w) <= g
  }

  // ----- writes in flight -----

  predicate WriteOk(key: Id, live: Id, r: Row, c: Cell, w: Write) {
    && WriteKey(w) == key
    && (!w.Insert? ==> SnapOk(key, r, w.from))
    && (w.ClaimForDeletion? ==> w.from.metadata.state != Deleted)
    && (w.DeleteBlob? ==> w.from.metadata.state == Deleting)
    && (w.StageBlob? ==> w.from.metadata.state == Uploading)
    && (w.StageBlob? && Target(w) == r.metadata.generation ==> Quiet(c) && c.file == FinalFile(w.next.bytes))
    && (w.DeleteBlob? && Target(w) == r.metadata.generation ==> c.jobs == map[] && c.file == ABSENT)
    && (w.ClaimForDeletion? ==>
          && w.process <= live
          && w.next.generation == Target(w) + 1
          && (Target(w) == r.metadata.generation ==>
                && Quiet(c)
                && (w.process == live ==> RegisteredAt(c, c.undispatched, w.next.generation))))
  }

  predicate WritesOk(key: Id, live: Id, r: Row, c: Cell) {
    forall w :: w in c.inflight ==> WriteOk(key, live, r, c, w)
  }

  // ----- the upload request -----

  predicate UploadOk(key: Id, r: Row, c: Cell) {
    match c.upload
    case NoUpload => true
    case Reserving(_, _, _) => false
    case Granted(x, l) =>
      && x == r && r.metadata.state == Uploading
      && c.workers == Some(l) && GenIs(c, l, 1) && Unstopped(c, l)
      && c.jobs == map[] && c.file == ABSENT
    case UploadStarted(x, l, j) =>
      && x == r && r.metadata.state == Uploading
      && c.workers == Some(l) && GenIs(c, l, 1) && Unstopped(c, l)
      && GenIs(c, j, 1) && j != l && (j in c.jobs || !Unstopped(c, j)) && OnlyJob(c, j)
    case UploadRecorded(x, l, j) => SnapOk(key, r, x) && x.metadata.generation == 1 && IsWitness(c, j)
    case Streaming(x, j) => SnapOk(key, r, x) && x.metadata.generation == 1 && IsWitness(c, j)
    case Finished(x, j, d) =>
      && SnapOk(key, r, x) && x.metadata.generation == 1 && IsWitness(c, j) && d.key == key
      && (r.metadata.state == Uploading ==> Quiet(c) && c.file == FinalFile(d.bytes))
  }

  // ----- reconciliation -----

  /** What holds of everything a reconciliation run looked up when it read row `x`. */
  predicate Bounded(key: Id, r: Row, c: Cell, x: Row) {
    && SnapOk(key, r, x)
    && Older(c, x.metadata.generation)
    && (r.metadata.state == Deleting ==> r.metadata.generation <= x.metadata.generation + 1)
    && AtMost(c, c.workers, x.metadata.generation)
  }

  predicate ClaimOk(key: Id, live: Id, r: Row, c: Cell, w: Write) {
    && w.ClaimForDeletion?
    && w.from.metadata.state != Deleted
    && w.next.generation == Target(w) + 1
    && w.process == live
    && Bounded(key, r, c, w.from)
    && (Target(w) == r.metadata.generation || r.metadata.state == Deleting ==> Quiet(c))
  }

  /** This process's own deletion claims are only ever renewed on a stop proof. */
  predicate Renews(live: Id, w: Write) {
    w.ClaimForDeletion? && w.from.metadata.state == Deleting && w.from.process == live
  }

  predicate ProofRetained(live: Id, r: Row, c: Cell, w: Write) {
    Renews(live, w) && Target(w) == r.metadata.generation ==> RegisteredAt(c, c.workers, r.metadata.generation)
  }

  predicate ProofOk(c: Cell, proof: Option<nat>, g: nat) {
    proof.Some? ==> GenIs(c, proof.value, g) && !Unstopped(c, proof.value)
  }

  /** Between an acknowledged claim and its completion the row is this run's alone. */
  predicate Exclusive(live: Id, r: Row, c: Cell, x: Row) {
    && x == r
    && r.metadata.state == Deleting
    && r.process == live
    && Older(c, r.metadata.generation - 1)
  }

  predicate LeaseOk(r: Row, c: Cell, l: nat) {
    c.undispatched == Some(l) && GenIs(c, l, r.metadata.generation) && Unstopped(c, l) && l !in c.jobs
  }

  predicate JobOk(r: Row, c: Cell, j: nat) {
    && GenIs(c, j, r.metadata.generation)
    && (j in c.jobs || !Unstopped(c, j))
    && OnlyJob(c, j)
  }

  predicate WorkerBelow(r: Row, c: Cell) {
    c.workers.Some? ==> IsWitness(c, c.workers.value) && c.witnesses[c.workers.value].generation < r.metadata.generation
  }

  predicate Readable(x: Row) {
    x.metadata.state == Staged || x.metadata.state == Attached
  }

  /** A page's row whose object may be read keeps that object for as long as the page is looked at. */
  predicate PageOk(key: Id, r: Row, c: Cell, x: Row) {
    && Bounded(key, r, c, x)
    && (Readable(x) ==>
          && c.file == FinalFile(x.metadata.bytes)
          && x.metadata.bytes <= MAX_UPLOAD_BYTES
          && c.jobs == map[]
          && r.metadata.state != Deleted
          && r.metadata.state != Uploading
          && NoDeletion(c))
  }

  /** Up to and including the commit of a claim. */
  predicate ClaimingOk(key: Id, live: Id, r: Row, c: Cell) {
    match c.recon
    case Paged(x) => PageOk(key, r, c, x)
    case LookedInPartial(x, partial) => PageOk(key, r, c, x) && (Readable(x) ==> partial.None?)
    case Sighted(x, physical) =>
      PageOk(key, r, c, x) && (Readable(x) ==> physical == Sighting(None, Some(x.metadata.bytes)))
    case Planned(x, proof, kind, now) =>
      && Bounded(key, r, c, x)
      && ProofOk(c, proof, x.metadata.generation)
      && kind.RecoverableHint()
      && (kind.Claims() && x.metadata.generation == r.metadata.generation ==> Quiet(c))
      && (!kind.Claims() ==> x.metadata.state == Deleted)
    case Fenced(w, proof) =>
      ClaimOk(key, live, r, c, w) && ProofOk(c, proof, Target(w)) && (Renews(live, w) ==> proof.Some?)
    case ProofKept(w) => ClaimOk(key, live, r, c, w) && ProofRetained(live, r, c, w)
    case Armed(w, l) =>
      && ClaimOk(key, live, r, c, w) && ProofRetained(live, r, c, w)
      && c.undispatched == Some(l) && GenIs(c, l, w.next.generation) && Unstopped(c, l) && l !in c.jobs
    case _ => true
  }

  /** From the acknowledged claim to the acknowledged deletion. */
  predicate RemovingOk(live: Id, r: Row, c: Cell) {
    match c.recon
    case Claimed(x, l) => Exclusive(live, r, c, x) && LeaseOk(r, c, l) && WorkerBelow(r, c) && c.jobs == map[]
    case RemoveStarted(x, l, j) => Exclusive(live, r, c, x) && LeaseOk(r, c, l) && WorkerBelow(r, c) && JobOk(r, c, j) && j != l
    case RemoveRecorded(x, l, j) => Exclusive(live, r, c, x) && LeaseOk(r, c, l) && c.workers == Some(j) && JobOk(r, c, j)
    case RemoveDisarmed(x, l, j) => Exclusive(live, r, c, x) && c.workers == Some(j) && c.undispatched.None? && JobOk(r, c, j)
    case Removing(x, j) => Exclusive(live, r, c, x) && c.workers == Some(j) && c.undispatched.None? && JobOk(r, c, j)
    case Removed(x) => Exclusive(live, r, c, x) && c.jobs == map[] && c.file == ABSENT
    case Completed => r.metadata.state == Deleted
    case _ => true
  }

  // ----- the row's own state -----

  predicate FileAt(f: File, step: UploadStep) {
    match step
    case Opening => f == ABSENT
    case Writing(n) => f == File(Some(n), None, false)
    case Sealed(n) => f == File(Some(n), None, false)
    case Renamed(n) => f == File(None, Some(n), false)
    case Synced(n) => f == FinalFile(n)
  }

  predicate RemovedAt(f: File, step: RemoveStep) {
    match step
    case UnlinkPartial => true
    case SyncPartial => f.partial.None?
    case UnlinkFinal => f.partial.None?
    case SyncFinal => f.partial.None? && f.finalized.None?
    case Cleared => f == ABSENT
  }

  predicate UploadingOk(live: Id, r: Row, c: Cell) {
    && r.metadata.generation == 1
    && OneJob(c)
    && (forall i :: i in c.jobs ==>
          c.jobs[i].UploadJob? && GenIs(c, i, 1) && FileAt(c.file, c.jobs[i].upload)
          && (c.upload.UploadStarted? || c.workers == Some(i)))
    && (r.process == live ==> RegisteredAt(c, c.workers, 1))
    && (r.process != live ==> c.jobs == map[] && c.upload == NoUpload)
    && (Proves(c, c.workers, 1) ==> Quiet(c))
    && (c.undispatched.Some? ==> !GenIs(c, c.undispatched.value, 1))
    && NoDeletion(c)
  }

  predicate NoDeletion(c: Cell) {
    forall w :: w in c.inflight ==> !w.DeleteBlob?
  }

  predicate KeptOk(r: Row, c: Cell) {
    Quiet(c) && NoDeletion(c) && c.file == FinalFile(r.metadata.bytes) && r.metadata.bytes <= MAX_UPLOAD_BYTES
  }

  predicate DeletingOk(live: Id, r: Row, c: Cell) {
    && 1 < r.metadata.generation
    && (c.jobs == map[] ==> Quiet(c))
    && !c.upload.Granted? && !c.upload.UploadStarted?
    && OneJob(c)
    && (forall i :: i in c.jobs ==>
          c.jobs[i].RemoveJob? && GenIs(c, i, r.metadata.generation) && RemovedAt(c.file, c.jobs[i].remove))
    && (r.process != live ==> c.jobs == map[])
    && (r.process == live ==>
          || RegisteredAt(c, c.workers, r.metadata.generation)
          || RegisteredAt(c, c.undispatched, r.metadata.generation))
    && (Proves(c, c.workers, r.metadata.generation) ==> c.jobs == map[])
    && (Proves(c, c.undispatched, r.metadata.generation) ==> c.jobs == map[])
  }

  predicate DeletedOk(c: Cell) {
    && c.file == ABSENT
    && !c.upload.Granted? && !c.upload.UploadStarted?
    && (forall i :: i in c.jobs ==> c.jobs[i].RemoveJob?)
  }

  predicate StateOk(live: Id, r: Row, c: Cell) {
    match r.metadata.state
    case Uploading => UploadingOk(live, r, c)
    case Staged => KeptOk(r, c)
    case Attached => KeptOk(r, c)
    case Unreferenced => KeptOk(r, c)
    case Deleting => DeletingOk(live, r, c)
    case Deleted => DeletedOk(c)
  }

  predicate RowOk(key: Id, live: Id, r: Row, c: Cell) {
    && r.metadata.key == key
    && 0 < r.metadata.generation
    && r.process <= live
    && AtMost(c, c.workers, r.metadata.generation)
    && UploadOk(key, r, c)
    && ClaimingOk(key, live, r, c)
    && RemovingOk(live, r, c)
    && WritesOk(key, live, r, c)
    && StateOk(live, r, c)
  }

  // ----- before the row exists -----

  predicate NoRowOk(key: Id, live: Id, c: Cell) {
    && c.file == ABSENT
    && c.jobs == map[]
    && c.recon == Idle
    && c.undispatched.None?
    && (c.workers.Some? ==> GenIs(c, c.workers.value, 1))
    && (c.upload == NoUpload || c.upload.Reserving?)
    && (c.upload.Reserving? ==>
          && c.upload.row.metadata.key == key
          && c.upload.row.process == live
          && c.upload.row.metadata.generation == 1
          && c.upload.row.metadata.state == Uploading
          && c.workers == Some(c.upload.lease)
          && GenIs(c, c.upload.lease, 1) && Unstopped(c, c.upload.lease)
          && c.inflight == {})
    && (forall w :: w in c.inflight ==>
          && w.Insert? && WriteKey(w) == key && w.row.process <= live
          && (w.row.process == live ==> c.workers.Some? && GenIs(c, c.workers.value, 1) && !Unstopped(c, c.workers.value)))
  }

  /** Every write any party still holds was built by the pure transitions. */
  predicate Lawful(c: Cell) {
    && (forall w :: w in c.inflight ==> LegalWrite(w))
    && (c.upload.Reserving? ==> LegalReservation(c.upload.row, c.upload.policy))
    && (c.recon.Fenced? || c.recon.ProofKept? || c.recon.Armed? ==> LegalWrite(c.recon.write))
  }

  predicate Ids(c: Cell) {
    && (c.workers.Some? ==> IsWitness(c, c.workers.value))
    && (c.undispatched.Some? ==> IsWitness(c, c.undispatched.value))
  }

  predicate RowInv(key: Id, live: Id, r: Row, c: Cell) {
    Ids(c) && JobsRun(c) && !c.quarantined && RowOk(key, live, r, c)
  }

  predicate CellInv(key: Id, live: Id, row: Option<Row>, c: Cell) {
    match row
    case None => Ids(c) && !c.quarantined && NoRowOk(key, live, c)
    case Some(r) => RowInv(key, live, r, c)
  }
}
