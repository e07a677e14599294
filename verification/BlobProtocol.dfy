/** The blob lifecycle as a state machine over database transactions, file operations,
    native workers, witnesses and crashes (crates/noxide-blobs/src/runtime.rs, io.rs,
    store.rs and the callers in noxide-host and noxide-http).

    Everything that concerns one object key sits in one `Cell`: the registries are maps by
    key and every file and worker belongs to one key. A commit whose acknowledgement is
    lost leaves its write in flight: it may take effect at any later moment at which its
    fences still hold, even after a restart, or never. */
module BlobProtocol {
  import opened Prelude
  import opened BlobLabels
  import opened BlobState
  import opened BlobDatabase
  import opened BlobConservation
  import opened BlobInspect

  // ----- files -----

  /** The two directory entries of one key. `settled` means every change to them has been
      synced, so a power loss cannot alter what is seen; unsettled entries may come back
      as anything. */
  datatype File = File(partial: Option<nat>, finalized: Option<nat>, settled: bool)

  const ABSENT := File(None, None, true)

  function FinalFile(bytes: nat): File {
    File(None, Some(bytes), true)
  }

  /** `snapshot` looks into the two directories one after the other. */
  function Sighting(partial: Option<nat>, finalized: Option<nat>): Option<Physical> {
    if partial.None? && finalized.None? then None else Some(Physical(partial, finalized))
  }

  // ----- workers and witnesses -----

  datatype Witness = Witness(generation: nat, stopped: bool, cancelled: bool, succeeded: bool)

  function PendingWitness(generation: nat): Witness {
    Witness(generation, false, false, false)
  }

  datatype UploadStep = Opening | Writing(written: nat) | Sealed(written: nat) | Renamed(written: nat) | Synced(written: nat)

  datatype RemoveStep = UnlinkPartial | SyncPartial | UnlinkFinal | SyncFinal | Cleared

  /** A running native worker; the witness it will stop is its index in the cell. */
  datatype Job = UploadJob(limit: nat, upload: UploadStep) | RemoveJob(remove: RemoveStep)

  // ----- where each party stands -----

  /** The upload request that created the key (noxide-host prepare_upload, noxide-http transfer_file). */
  datatype Upload =
    | NoUpload
    | Reserving(row: Row, policy: Policy, lease: nat)
    | Granted(row: Row, lease: nat)
    | UploadStarted(row: Row, lease: nat, job: nat)
    | UploadRecorded(row: Row, lease: nat, job: nat)
    | Streaming(row: Row, job: nat)
    | Finished(row: Row, job: nat, durable: DurableObject)

  /** Reconciliation of the key (reconcile_row, arm_deletion, delete_claimed). */
  datatype Recon =
    | Idle
    | Paged(row: Row)
    | LookedInPartial(row: Row, partial: Option<nat>)
    | Sighted(row: Row, physical: Option<Physical>)
    | Planned(row: Row, proof: Option<nat>, kind: FindingKind, now: int)
    | Fenced(write: Write, proof: Option<nat>)
    | ProofKept(write: Write)
    | Armed(write: Write, lease: nat)
    | Claimed(row: Row, lease: nat)
    | RemoveStarted(row: Row, lease: nat, job: nat)
    | RemoveRecorded(row: Row, lease: nat, job: nat)
    | RemoveDisarmed(row: Row, lease: nat, job: nat)
    | Removing(row: Row, job: nat)
    | Removed(row: Row)
    | Completed
  {
    /** Nothing has been claimed yet, so giving up changes nothing. */
    predicate Unclaimed() {
      Paged? || LookedInPartial? || Sighted? || Planned? || Fenced?
    }
  }

  datatype Cell = Cell(
    file: File,
    witnesses: seq<Witness>,
    workers: Option<nat>,
    undispatched: Option<nat>,
    jobs: map<nat, Job>,
    upload: Upload,
    recon: Recon,
    inflight: set<Write>,
    quarantined: bool)

  datatype Sys = Sys(db: Db, live: Id, cells: map<Id, Cell>)

  const INITIAL := Sys(EMPTY_DB, 0, map[])

  // ----- process-local operations -----

  predicate IsWitness(c: Cell, i: nat) {
    i < |c.witnesses|
  }

  function Spawn(c: Cell, w: Witness): Cell
    ensures Spawn(c, w).witnesses[|c.witnesses|] == w
  {
    c.(witnesses := c.witnesses + [w])
  }

  /** `stop_unstarted`: what dropping an armed lease does. */
  function StopUnstarted(c: Cell, i: nat): Cell
    requires IsWitness(c, i)
  {
    c.(witnesses := c.witnesses[i := c.witnesses[i].(stopped := true, cancelled := true)])
  }

  function Cancel(c: Cell, i: nat): Cell
    requires IsWitness(c, i)
  {
    c.(witnesses := c.witnesses[i := c.witnesses[i].(cancelled := true)])
  }

  /** A worker leaves: its guard marks the witness stopped whichever way it ended. */
  function StopJob(c: Cell, i: nat, succeeded: bool): Cell
    requires IsWitness(c, i)
  {
    c.(witnesses := c.witnesses[i := c.witnesses[i].(stopped := true, succeeded := succeeded)],
       jobs := c.jobs - {i})
  }

  function StoppedOf(c: Cell, key: Id, i: nat): StoppedIo
    requires IsWitness(c, i)
  {
    var w := c.witnesses[i];
    StoppedIo(key, w.generation, w.cancelled || !w.succeeded)
  }

  predicate Proves(c: Cell, slot: Option<nat>, generation: nat) {
    && slot.Some?
    && IsWitness(c, slot.value)
    && c.witnesses[slot.value].stopped
    && c.witnesses[slot.value].generation == generation
  }

  /** `stopped_witness`: the worker registry first, then the undispatched claim. */
  function StoppedWitness(c: Cell, generation: nat): Option<nat> {
    if Proves(c, c.workers, generation) then c.workers
    else if Proves(c, c.undispatched, generation) then c.undispatched
    else None
  }

  function ProofOf(c: Cell, key: Id, slot: Option<nat>): Option<StoppedIo> {
    if slot.Some? && IsWitness(c, slot.value) && c.witnesses[slot.value].stopped
    then Some(StoppedOf(c, key, slot.value)) else None
  }

  // ----- events on one cell that leave the database alone -----

  datatype Local =
    | AbortReserve
    | StartUpload
    | RecordUpload
    | DispatchUpload
    | AbandonUpload
    | UploadIo(worker: nat, count: nat)
    | RemoveIo(worker: nat)
    | WorkerFails(worker: nat)
    | WorkerFinishes(worker: nat, digest: Digest)
    | ReadPage
    | LookInPartial
    | LookInObjects
    | Inspect(now: int)
    | FenceClaim
    | KeepProof
    | ArmDeletion
    | AbortClaim
    | StartRemove
    | RecordRemove
    | DisarmClaim
    | DispatchRemove
    | AbandonRemove
    | ForgetWorker
    | LoseWrite(write: Write)

  /** One file operation of an upload worker (store.rs begin, write_chunk, finalize). */
  function UploadStepped(f: File, job: Job, count: nat): Option<(File, UploadStep)>
    requires job.UploadJob?
  {
    match job.upload
    case Opening =>
      if f.partial.None? then Some((File(Some(0), f.finalized, false), Writing(0))) else None
    case Writing(n) =>
      if count == 0 then Some((f, Sealed(n)))
      else if n + count <= job.limit then Some((File(Some(n + count), f.finalized, false), Writing(n + count)))
      else None
    case Sealed(n) =>
      if f.finalized.None? then Some((File(None, Some(n), false), Renamed(n))) else None
    case Renamed(n) => Some((f.(settled := true), Synced(n)))
    case Synced(n) => None
  }

  /** One file operation of `store.remove`. */
  function RemoveStepped(f: File, step: RemoveStep): Option<(File, RemoveStep)> {
    match step
    case UnlinkPartial => Some((if f.partial.None? then f else File(None, f.finalized, false), SyncPartial))
    case SyncPartial => Some((f, UnlinkFinal))
    case UnlinkFinal => Some((if f.finalized.None? then f else File(f.partial, None, false), SyncFinal))
    case SyncFinal => Some((f.(settled := true), Cleared))
    case Cleared => None
  }

  /** The claim a finding asks for, checked against the row as the transaction reads it. */
  function ClaimFor(row: Row, kind: FindingKind, live: Id, now: int, proof: Option<StoppedIo>): Result<Transition> {
    var m := row.metadata;
    match kind
    case ClaimExpiredStage => var r :- Claim(m, m.generation, now); Ok(r.0)
    case ClaimUnreferenced => var r :- Claim(m, m.generation, now); Ok(r.0)
    case ClaimStoppedUpload =>
      if proof.Some? && row.process == live
      then var r :- BlobState.ClaimStoppedUpload(m, m.generation, now, proof.value); Ok(r.0)
      else Err
    case RecoverPriorProcessUpload =>
      if row.process != live then var r :- RecoverPriorUpload(m); Ok(r.0) else Err
    case ResumeStoppedDeletion => Resume(row, live, proof)
    case RecoverPriorProcessDeletion => Resume(row, live, proof)
    case _ => Err
  }

  function Resume(row: Row, live: Id, proof: Option<StoppedIo>): Result<Transition> {
    var m := row.metadata;
    if row.process != live || (proof.Some? && proof.value.key == m.key && proof.value.generation == m.generation)
    then var r :- ResumeDeletion(m); Ok(r.0)
    else Err
  }

  /** The upload request's own steps; the synchronous ones cannot be interrupted. */
  function RequestNext(c: Cell, e: Local): Option<Cell> {
    match e
    case AbortReserve =>
      if c.upload.Reserving? && IsWitness(c, c.upload.lease)
      then Some(StopUnstarted(c, c.upload.lease).(upload := NoUpload)) else None
    case StartUpload =>
      if c.upload.Granted?
      then
        var n := |c.witnesses|;
        Some(Spawn(c, PendingWitness(c.upload.row.metadata.generation)).(
             jobs := c.jobs[n := UploadJob(c.upload.row.metadata.reserved, Opening)],
             upload := UploadStarted(c.upload.row, c.upload.lease, n)))
      else None
    case RecordUpload =>
      if c.upload.UploadStarted?
      then Some(c.(workers := Some(c.upload.job), upload := UploadRecorded(c.upload.row, c.upload.lease, c.upload.job)))
      else None
    case DispatchUpload =>
      if c.upload.UploadRecorded? then Some(c.(upload := Streaming(c.upload.row, c.upload.job))) else None
    case AbandonUpload =>
      if c.upload.Granted? && IsWitness(c, c.upload.lease)
      then Some(StopUnstarted(c, c.upload.lease).(upload := NoUpload))
      else if (c.upload.Streaming? || c.upload.Finished?) && IsWitness(c, c.upload.job)
      then Some(Cancel(c, c.upload.job).(upload := NoUpload))
      else None
    case _ => None
  }

  /** A native worker's steps. */
  function WorkerNext(key: Id, c: Cell, e: Local): Option<Cell> {
    match e
    case UploadIo(i, count) =>
      if i in c.jobs && c.jobs[i].UploadJob?
      then
        var step := UploadStepped(c.file, c.jobs[i], count);
        if step.None? then None
        else Some(c.(file := step.value.0, jobs := c.jobs[i := c.jobs[i].(upload := step.value.1)]))
      else None
    case RemoveIo(i) =>
      if i in c.jobs && c.jobs[i].RemoveJob?
      then
        var step := RemoveStepped(c.file, c.jobs[i].remove);
        if step.None? then None
        else Some(c.(file := step.value.0, jobs := c.jobs[i := RemoveJob(step.value.1)]))
      else None
    case WorkerFails(i) =>
      if i in c.jobs && IsWitness(c, i) then Some(StopJob(c, i, false)) else None
    case WorkerFinishes(i, digest) =>
      if !(i in c.jobs && IsWitness(c, i)) then None
      else
        (match c.jobs[i]
        case UploadJob(_, Synced(n)) =>
          var stopped := StopJob(c, i, true);
          if c.upload.Streaming? && c.upload.job == i
          then Some(stopped.(upload := Finished(c.upload.row, i, DurableObject(key, n, digest))))
          else Some(stopped)
        case RemoveJob(Cleared) =>
          var stopped := StopJob(c, i, true);
          if c.recon.Removing? && c.recon.job == i
          then Some(stopped.(recon := Removed(c.recon.row)))
          else Some(stopped)
        case _ => None)
    case _ => None
  }

  /** Reading a page, taking a snapshot of the row's file, classifying the row by the proofs then
      registered and fencing the claim inside its transaction. */
  function PlanNext(key: Id, live: Id, row: Option<Row>, c: Cell, e: Local): Option<Cell> {
    match e
    case ReadPage =>
      if c.recon.Idle? && row.Some? then Some(c.(recon := Paged(row.value))) else None
    case LookInPartial =>
      if c.recon.Paged? then Some(c.(recon := LookedInPartial(c.recon.row, c.file.partial))) else None
    case LookInObjects =>
      if c.recon.LookedInPartial?
      then Some(c.(recon := Sighted(c.recon.row, Sighting(c.recon.partial, c.file.finalized)))) else None
    case Inspect(now) =>
      if !(c.recon.Sighted? && c.recon.row.claimed <= now) then None
      else
        var seen := c.recon.row;
        var slot := StoppedWitness(c, seen.metadata.generation);
        var kind := Classify(seen, live, c.recon.physical, ProofOf(c, key, slot), now);
        if kind.RequiresOperator() then Some(c.(quarantined := true, recon := Idle))
        else if kind == RetainTombstone then Some(c.(workers := None, undispatched := None, recon := Idle))
        else if !kind.RecoverableHint() then Some(c.(recon := Idle))
        else Some(c.(recon := Planned(seen, slot, kind, now)))
    case FenceClaim =>
      if !(c.recon.Planned? && row.Some?) then None
      else
        var seen, current := c.recon.row, row.value;
        if current.metadata.generation != seen.metadata.generation || current.metadata.state != seen.metadata.state
        then None
        else if c.recon.kind == CleanKnownDeletedObject
        then
          var n := |c.witnesses|;
          Some(Spawn(c, PendingWitness(seen.metadata.generation)).(
               jobs := c.jobs[n := RemoveJob(UnlinkPartial)], recon := Idle))
        else
          var t := ClaimFor(current, c.recon.kind, live, c.recon.now, ProofOf(c, key, c.recon.proof));
          if t.Err? then None
          else Some(c.(recon := Fenced(ClaimForDeletion(current, t.value.next, live, c.recon.now), c.recon.proof)))
    case _ => None
  }

  /** `arm_deletion`, and what an error or a dropped future does to a claim. */
  function ClaimNext(c: Cell, e: Local): Option<Cell> {
    match e
    case KeepProof =>
      if c.recon.Fenced?
      then Some(c.(workers := if c.recon.proof.Some? then c.recon.proof else c.workers,
                   recon := ProofKept(c.recon.write)))
      else None
    case ArmDeletion =>
      if c.recon.ProofKept? && c.recon.write.ClaimForDeletion?
      then
        var n := |c.witnesses|;
        Some(Spawn(c, PendingWitness(c.recon.write.next.generation)).(
             undispatched := Some(n), recon := Armed(c.recon.write, n)))
      else None
    case AbortClaim =>
      if c.recon.Unclaimed() || c.recon.Removed?
      then Some(c.(recon := Idle))
      else if (c.recon.Armed? || c.recon.Claimed?) && IsWitness(c, c.recon.lease)
      then Some(StopUnstarted(c, c.recon.lease).(recon := Idle))
      else None
    case _ => None
  }

  /** `delete_claimed` up to awaiting its worker, and its last registry update. */
  function RemoveNext(c: Cell, e: Local): Option<Cell> {
    match e
    case StartRemove =>
      if c.recon.Claimed?
      then
        var n := |c.witnesses|;
        Some(Spawn(c, PendingWitness(c.recon.row.metadata.generation)).(
             jobs := c.jobs[n := RemoveJob(UnlinkPartial)],
             recon := RemoveStarted(c.recon.row, c.recon.lease, n)))
      else None
    case RecordRemove =>
      if c.recon.RemoveStarted?
      then Some(c.(workers := Some(c.recon.job), recon := RemoveRecorded(c.recon.row, c.recon.lease, c.recon.job)))
      else None
    case DisarmClaim =>
      if c.recon.RemoveRecorded?
      then Some(c.(undispatched := None, recon := RemoveDisarmed(c.recon.row, c.recon.lease, c.recon.job)))
      else None
    case DispatchRemove =>
      if c.recon.RemoveDisarmed? then Some(c.(recon := Removing(c.recon.row, c.recon.job))) else None
    case AbandonRemove =>
      if c.recon.Removing? && IsWitness(c, c.recon.job)
      then Some(Cancel(c, c.recon.job).(recon := Idle)) else None
    case ForgetWorker =>
      if c.recon.Completed? then Some(c.(workers := None, recon := Idle)) else None
    case _ => None
  }

  function LocalNext(key: Id, live: Id, row: Option<Row>, c: Cell, e: Local): Option<Cell> {
    if e.LoseWrite? then Some(c.(inflight := c.inflight - {e.write}))
    else if e.AbortReserve? || e.StartUpload? || e.RecordUpload? || e.DispatchUpload? || e.AbandonUpload?
    then RequestNext(c, e)
    else if e.UploadIo? || e.RemoveIo? || e.WorkerFails? || e.WorkerFinishes? then WorkerNext(key, c, e)
    else if e.ReadPage? || e.LookInPartial? || e.LookInObjects? || e.Inspect? || e.FenceClaim? then PlanNext(key, live, row, c, e)
    else if e.KeepProof? || e.ArmDeletion? || e.AbortClaim? then ClaimNext(c, e)
    else RemoveNext(c, e)
  }

  // ----- events that touch the database -----

  /** How a commit ended for its caller: acknowledged, or with the outcome unknown. A refused
      commit is an abort. */
  datatype Commit = Acknowledged | Unknown

  datatype Event =
    | OnCell(key: Id, local: Local)
    | Reserve(key: Id, row: Row, policy: Policy)
    | CommitReserve(key: Id, commit: Commit)
    | Publish(key: Id, now: int, commit: Commit)
    | CommitClaim(key: Id, commit: Commit)
    | CommitDeleted(key: Id, now: int, commit: Commit)
    | AttachRow(key: Id, now: int, handle: Handle, binding: Binding, owner: Association)
    | UnreferenceRow(key: Id, owner: Association)
    | LateCommit(key: Id, write: Write)
    | Crash(files: map<Id, File>)

  function Lookup(db: Db, k: Id): Option<Row> {
    if k in db.rows then Some(db.rows[k]) else None
  }

  /** What a crash leaves of one cell: settled files and the writes already sent. */
  function Crashed(c: Cell, file: File): Cell {
    Cell(file, [], None, None, map[], NoUpload, Idle, c.inflight, c.quarantined)
  }

  predicate Survives(before: File, after: File) {
    if before.settled then after == before else !after.settled
  }

  function WithCell(s: Sys, k: Id, c: Cell): Sys {
    s.(cells := s.cells[k := c])
  }

  /** A commit: acknowledged it has been applied, unknown it stays in flight. */
  ghost function Committed(s: Sys, k: Id, w: Write, commit: Commit, acked: Cell, unknown: Cell): Option<Sys> {
    match commit
    case Acknowledged =>
      var db := ApplyWrite(s.db, w);
      if db.None? then None else Some(WithCell(s, k, acked).(db := db.value))
    case Unknown =>
      Some(WithCell(s, k, unknown.(inflight := unknown.inflight + {w})))
  }

  function LocalEvent(s: Sys, k: Id, local: Local): Option<Sys>
    requires k in s.cells
  {
    var c := LocalNext(k, s.live, Lookup(s.db, k), s.cells[k], local);
    if c.None? then None else Some(WithCell(s, k, c.value))
  }

  /** A reservation under a fresh random key registers its witness before it commits. */
  function ReserveEvent(s: Sys, k: Id, row: Row, p: Policy): Option<Sys> {
    if && k !in s.cells
       && row.metadata.key == k
       && row.process == s.live
       && LegalReservation(row, p)
       && |(set j | j in s.cells && s.cells[j].workers.Some?)| < p.limits.objects
    then Some(WithCell(s, k, Cell(ABSENT, [PendingWitness(1)], Some(0), None, map[],
                                  Reserving(row, p, 0), Idle, {}, false)))
    else None
  }

  /** The upload request's two transactions. */
  ghost function RequestCommit(s: Sys, e: Event): Option<Sys>
    requires (e.CommitReserve? || e.Publish?) && e.key in s.cells
  {
    match e
    case CommitReserve(k, commit) =>
      var c := s.cells[k];
      if !(c.upload.Reserving? && IsWitness(c, c.upload.lease)) then None
      else Committed(s, k, Insert(c.upload.row, c.upload.policy), commit,
                     c.(upload := Granted(c.upload.row, c.upload.lease)),
                     StopUnstarted(c, c.upload.lease).(upload := NoUpload))
    case Publish(k, now, commit) =>
      var c := s.cells[k];
      if !(c.upload.Finished? && IsWitness(c, c.upload.job)) then None
      else
        var from := c.upload.row;
        var t := Stage(from.metadata, from.metadata.generation, c.upload.durable, now, from.metadata.binding);
        if t.Err? then None
        else
          // The publication lease cancels the finished worker's witness either way.
          var done := Cancel(c, c.upload.job).(upload := NoUpload);
          Committed(s, k, StageBlob(from, t.value.next, now), commit, done, done)
  }

  /** The two transactions of a deletion. */
  ghost function ReconCommit(s: Sys, e: Event): Option<Sys>
    requires (e.CommitClaim? || e.CommitDeleted?) && e.key in s.cells
  {
    match e
    case CommitClaim(k, commit) =>
      var c := s.cells[k];
      if !(c.recon.Armed? && c.recon.write.ClaimForDeletion? && IsWitness(c, c.recon.lease)) then None
      else Committed(s, k, c.recon.write, commit,
                     c.(recon := Claimed(Written(c.recon.write), c.recon.lease)),
                     StopUnstarted(c, c.recon.lease).(recon := Idle))
    case CommitDeleted(k, now, commit) =>
      var c := s.cells[k];
      if !c.recon.Removed? then None
      else
        var from := c.recon.row;
        var t := MarkDeleted(from.metadata, GcClaim(from.metadata.key, from.metadata.generation));
        if t.Err? then None
        else Committed(s, k, DeleteBlob(from, t.value.next, now), commit,
                       c.(recon := Completed), c.(recon := Idle))
  }

  /** Attachment and detachment share the transaction of the owning record. */
  function OwnerEvent(s: Sys, e: Event): Option<Sys>
    requires (e.AttachRow? || e.UnreferenceRow?) && e.key in s.cells
  {
    match e
    case AttachRow(k, now, handle, binding, owner) =>
      if k !in s.db.rows then None
      else
        var db := AttachBlob(s.db, k, now, handle, binding, owner);
        if db.Err? then None else Some(s.(db := db.value))
    case UnreferenceRow(k, owner) =>
      if k !in s.db.rows then None
      else
        var db := UnreferenceBlob(s.db, k, owner);
        if db.Err? then None else Some(s.(db := db.value))
  }

  /** A write whose acknowledgement was lost takes effect after all. */
  ghost function LateEvent(s: Sys, k: Id, w: Write): Option<Sys>
    requires k in s.cells
  {
    if w !in s.cells[k].inflight then None
    else
      var db := ApplyWrite(s.db, w);
      if db.None? then None
      else Some(WithCell(s, k, s.cells[k].(inflight := s.cells[k].inflight - {w})).(db := db.value))
  }

  function CrashEvent(s: Sys, files: map<Id, File>): Option<Sys> {
    // A new process has a new name and holds the store lock alone.
    if files.Keys == s.cells.Keys && (forall k :: k in s.cells ==> Survives(s.cells[k].file, files[k]))
    then Some(Sys(s.db, s.live + 1, map k | k in s.cells :: Crashed(s.cells[k], files[k])))
    else None
  }

  ghost function Next(s: Sys, e: Event): Option<Sys> {
    if e.Crash? then CrashEvent(s, e.files)
    else if e.Reserve? then ReserveEvent(s, e.key, e.row, e.policy)
    else if e.key !in s.cells then None
    else if e.OnCell? then LocalEvent(s, e.key, e.local)
    else if e.CommitReserve? || e.Publish? then RequestCommit(s, e)
    else if e.CommitClaim? || e.CommitDeleted? then ReconCommit(s, e)
    else if e.LateCommit? then LateEvent(s, e.key, e.write)
    else OwnerEvent(s, e)
  }

  /** The state after a sequence of events, if every one of them was possible. */
  ghost function Run(s: Sys, events: seq<Event>): Option<Sys>
    decreases |events|
  {
    if events == [] then Some(s)
    else
      var next := Next(s, events[0]);
      if next.None? then None else Run(next.value, events[1..])
  }

  ghost predicate Reachable(s: Sys) {
    exists events :: Run(INITIAL, events) == Some(s)
  }
}
