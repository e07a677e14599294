/** The blob lifecycle theorems: what holds in every reachable state, over every
    interleaving of requests, workers, reconciliation, lost acknowledgements and crashes. */
module BlobSafety {
  import opened Prelude
  import opened BlobState
  import opened BlobDatabase
  import opened BlobConservation
  import opened BlobInspect
  import opened BlobProtocol
  import opened BlobInvariant
  import opened BlobLocalSteps
  import opened BlobCommits

  ghost predicate DbOk(db: Db) {
    DbInv(db) && StagesBounded(db)
  }

  predicate CellOk(s: Sys, k: Id)
    requires k in s.cells
  {
    CellInv(k, s.live, Lookup(s.db, k), s.cells[k]) && Lawful(s.cells[k])
  }

  predicate CellsOk(s: Sys) {
    && s.db.rows.Keys <= s.cells.Keys
    && (forall k :: k in s.cells ==> CellOk(s, k))
  }

  ghost predicate Inv(s: Sys) {
    DbOk(s.db) && CellsOk(s)
  }

  lemma InitialInv()
    ensures Inv(INITIAL)
  {
    assert forall w :: Total(EMPTY_DB.rows, w) == 0;
    assert forall s :: SubjectConserved(EMPTY_DB, s);
  }

  // ----- one step -----

  lemma RequestAndWorkerKeepRow(key: Id, live: Id, r: Row, c: Cell, e: Local)
    requires RowInv(key, live, r, c) && (RequestNext(c, e).Some? || WorkerNext(key, c, e).Some?)
    ensures RequestNext(c, e).Some? ==> RowInv(key, live, r, RequestNext(c, e).value)
    ensures WorkerNext(key, c, e).Some? ==> RowInv(key, live, r, WorkerNext(key, c, e).value)
  {
    match e
    case StartUpload => StartUploadStep(key, live, r, c, e);
    case RecordUpload => RecordUploadStep(key, live, r, c, e);
    case DispatchUpload => DispatchUploadStep(key, live, r, c, e);
    case AbandonUpload => AbandonUploadStep(key, live, r, c, e);
    case UploadIo(_, _) => UploadIoStep(key, live, r, c, e);
    case RemoveIo(i) =>
      var step := RemoveStepped(c.file, c.jobs[i].remove);
      RemoveIoStep(key, live, r, c, i, step.value.0, step.value.1);
    case WorkerFails(_) => WorkerFailsStep(key, live, r, c, e);
    case WorkerFinishes(_, _) => WorkerFinishesStep(key, live, r, c, e);
    case _ =>
  }

  lemma ReconKeepsRow(key: Id, live: Id, r: Row, c: Cell, e: Local)
    requires RowInv(key, live, r, c)
    ensures PlanNext(key, live, Some(r), c, e).Some? ==> RowInv(key, live, r, PlanNext(key, live, Some(r), c, e).value)
    ensures ClaimNext(c, e).Some? ==> RowInv(key, live, r, ClaimNext(c, e).value)
  {
    if PlanNext(key, live, Some(r), c, e).Some? {
      match e
      case ReadPage => ReadPageStep(key, live, r, c, e);
      case LookInPartial => LookStep(key, live, r, c, e);
      case LookInObjects => LookStep(key, live, r, c, e);
      case Inspect(_) => InspectStep(key, live, r, c, e);
      case FenceClaim => FenceClaimStep(key, live, r, c, e);
    } else if ClaimNext(c, e).Some? {
      match e
      case KeepProof => KeepProofStep(key, live, r, c, e);
      case ArmDeletion => ArmDeletionStep(key, live, r, c, e);
      case AbortClaim => AbortClaimStep(key, live, r, c, e);
    }
  }

  lemma RemovalKeepsRow(key: Id, live: Id, r: Row, c: Cell, e: Local)
    requires RowInv(key, live, r, c) && RemoveNext(c, e).Some?
    ensures RowInv(key, live, r, RemoveNext(c, e).value)
  {
    match e
    case StartRemove => StartRemoveStep(key, live, r, c, e);
    case RecordRemove => StartRemoveStep(key, live, r, c, e);
    case DisarmClaim => DispatchRemoveStep(key, live, r, c, e);
    case DispatchRemove => DispatchRemoveStep(key, live, r, c, e);
    case AbandonRemove => AbandonRemoveStep(key, live, r, c, e);
    case ForgetWorker => DispatchRemoveStep(key, live, r, c, e);
  }

  lemma LocalKeepsRow(key: Id, live: Id, r: Row, c: Cell, e: Local)
    requires RowInv(key, live, r, c) && LocalNext(key, live, Some(r), c, e).Some?
    ensures RowInv(key, live, r, LocalNext(key, live, Some(r), c, e).value)
  {
    if e.LoseWrite? {
      LoseWriteStep(key, live, r, c, e.write);
    } else if RequestNext(c, e).Some? || WorkerNext(key, c, e).Some? {
      RequestAndWorkerKeepRow(key, live, r, c, e);
    } else if RemoveNext(c, e).Some? {
      RemovalKeepsRow(key, live, r, c, e);
    } else {
      ReconKeepsRow(key, live, r, c, e);
    }
  }

  lemma LocalKeepsLaw(key: Id, live: Id, row: Option<Row>, c: Cell, e: Local)
    requires Lawful(c) && LocalNext(key, live, row, c, e).Some?
    ensures Lawful(LocalNext(key, live, row, c, e).value)
  {
    var c' := LocalNext(key, live, row, c, e).value;
    assert c'.inflight <= c.inflight;
  }

  lemma LocalKeepsInv(s: Sys, k: Id, e: Local)
    requires Inv(s) && k in s.cells && LocalEvent(s, k, e).Some?
    ensures Inv(LocalEvent(s, k, e).value)
  {
    var c := s.cells[k];
    assert CellOk(s, k);
    LocalKeepsLaw(k, s.live, Lookup(s.db, k), c, e);
    if k in s.db.rows {
      LocalKeepsRow(k, s.live, s.db.rows[k], c, e);
    } else {
      RowlessStep(k, s.live, c, e);
    }
    OthersKept(s, LocalEvent(s, k, e).value, k);
  }

  /** A step on one key leaves every other cell's invariant alone. */
  lemma OthersKept(s: Sys, s': Sys, k: Id)
    requires CellsOk(s)
    requires s'.live == s.live && k in s'.cells && s'.cells.Keys == s.cells.Keys + {k}
    requires s'.db.rows.Keys <= s.db.rows.Keys + {k}
    requires forall j :: j in s.cells && j != k ==> s'.cells[j] == s.cells[j] && Lookup(s'.db, j) == Lookup(s.db, j)
    requires CellOk(s', k)
    ensures CellsOk(s')
  {
    forall j | j in s'.cells
      ensures CellOk(s', j)
    {
      assert j == k || CellOk(s, j);
    }
  }

  /** A legal write that applies moves exactly its own row, and keeps the database sound. */
  lemma WriteLands(s: Sys, w: Write, k: Id)
    requires Inv(s) && k in s.cells && WriteKey(w) == k && LegalWrite(w)
    requires !w.Insert? && k in s.db.rows ==> SnapOk(k, s.db.rows[k], w.from)
    requires ApplyWrite(s.db, w).Some?
    ensures var db := ApplyWrite(s.db, w).value;
            && DbOk(db)
            && db.rows == s.db.rows[k := Written(w)]
            && (w.Insert? <==> k !in s.db.rows)
            && (!w.Insert? ==> w.from == s.db.rows[k])
  {
    assert HonestWrite(s.db, w);
    WritesOneRow(s.db, w);
    WriteKeepsDb(s.db, w);
    WriteBoundsStages(s.db, w);
  }

  /** The result of a commit on cell `k`, given what the caller does next. */
  lemma CommitKeepsInv(s: Sys, k: Id, w: Write, commit: Commit, acked: Cell, unknown: Cell)
    requires Inv(s) && k in s.cells && WriteKey(w) == k && LegalWrite(w)
    requires !w.Insert? && k in s.db.rows ==> SnapOk(k, s.db.rows[k], w.from)
    requires Committed(s, k, w, commit, acked, unknown).Some?
    requires commit.Acknowledged? && (!w.Insert? ==> k in s.db.rows && w.from == s.db.rows[k]) ==>
      CellInv(k, s.live, Some(Written(w)), acked) && Lawful(acked)
    requires commit.Unknown? ==>
      CellInv(k, s.live, Lookup(s.db, k), unknown.(inflight := unknown.inflight + {w})) && Lawful(unknown)
    ensures Inv(Committed(s, k, w, commit, acked, unknown).value)
  {
    if commit.Acknowledged? {
      WriteLands(s, w, k);
      AckedKeepsCells(s, k, Written(w), ApplyWrite(s.db, w).value, acked);
    } else {
      UnknownKeepsCells(s, k, unknown.(inflight := unknown.inflight + {w}));
    }
  }

  lemma AckedKeepsCells(s: Sys, k: Id, row: Row, db: Db, acked: Cell)
    requires CellsOk(s) && k in s.cells && db.rows == s.db.rows[k := row]
    requires CellInv(k, s.live, Some(row), acked) && Lawful(acked)
    ensures CellsOk(WithCell(s, k, acked).(db := db))
  {
    var s' := WithCell(s, k, acked).(db := db);
    assert CellOk(s', k);
    OthersKept(s, s', k);
  }

  lemma UnknownKeepsCells(s: Sys, k: Id, c: Cell)
    requires CellsOk(s) && k in s.cells && CellInv(k, s.live, Lookup(s.db, k), c) && Lawful(c)
    ensures CellsOk(WithCell(s, k, c))
  {
    assert CellOk(WithCell(s, k, c), k);
    OthersKept(s, WithCell(s, k, c), k);
  }

  lemma CommitReserveKeepsInv(s: Sys, e: Event)
    requires Inv(s) && e.CommitReserve? && e.key in s.cells && RequestCommit(s, e).Some?
    ensures Inv(RequestCommit(s, e).value)
  {
    var k, c := e.key, s.cells[e.key];
    assert CellOk(s, k);
    assert k !in s.db.rows;
    var w := Insert(c.upload.row, c.upload.policy);
    ReserveGranted(k, s.live, c);
    ReserveUnknown(k, s.live, c, w);
    CommitKeepsInv(s, k, w, e.commit, c.(upload := Granted(c.upload.row, c.upload.lease)),
                   StopUnstarted(c, c.upload.lease).(upload := NoUpload));
  }

  lemma PublishKeepsInv(s: Sys, e: Event)
    requires Inv(s) && e.Publish? && e.key in s.cells && RequestCommit(s, e).Some?
    ensures Inv(RequestCommit(s, e).value)
  {
    var k, c := e.key, s.cells[e.key];
    assert CellOk(s, k);
    var from := c.upload.row;
    var t := Stage(from.metadata, from.metadata.generation, c.upload.durable, e.now, from.metadata.binding);
    var w := StageBlob(from, t.value.next, e.now);
    var r := s.db.rows[k];
    if from == r {
      PublishAcked(k, s.live, r, c, w);
    }
    PublishUnknown(k, s.live, r, c, w);
    var done := Cancel(c, c.upload.job).(upload := NoUpload);
    CommitKeepsInv(s, k, w, e.commit, done, done);
  }

  lemma CommitClaimKeepsInv(s: Sys, e: Event)
    requires Inv(s) && e.CommitClaim? && e.key in s.cells && ReconCommit(s, e).Some?
    ensures Inv(ReconCommit(s, e).value)
  {
    var k, c := e.key, s.cells[e.key];
    assert CellOk(s, k);
    var r, w := s.db.rows[k], c.recon.write;
    if w.from == r {
      ClaimAcked(k, s.live, r, c);
    }
    ClaimUnknown(k, s.live, r, c);
    CommitKeepsInv(s, k, w, e.commit, c.(recon := Claimed(Written(w), c.recon.lease)),
                   StopUnstarted(c, c.recon.lease).(recon := Idle));
  }

  /** Both ways the commit of a completed deletion can turn out. */
  lemma DeletionOutcomes(key: Id, live: Id, r: Row, c: Cell, t: Transition, now: int)
    requires RowInv(key, live, r, c) && c.recon.Removed?
    requires MarkDeleted(c.recon.row.metadata, GcClaim(c.recon.row.metadata.key, c.recon.row.metadata.generation)) == Ok(t)
    ensures c.recon.row == r
    ensures LegalWrite(DeleteBlob(r, t.next, now))
    ensures RowInv(key, live, Written(DeleteBlob(r, t.next, now)), c.(recon := Completed))
    ensures RowInv(key, live, r, c.(recon := Idle, inflight := c.inflight + {DeleteBlob(r, t.next, now)}))
  {
    var w := DeleteBlob(r, t.next, now);
    DeleteAcked(key, live, r, c, w);
    DeleteUnknown(key, live, r, c, w);
  }

  lemma CommitDeletedKeepsInv(s: Sys, e: Event)
    requires Inv(s) && e.CommitDeleted? && e.key in s.cells && ReconCommit(s, e).Some?
    ensures Inv(ReconCommit(s, e).value)
  {
    var k, c := e.key, s.cells[e.key];
    assert CellOk(s, k);
    var r, from := s.db.rows[k], c.recon.row;
    var t := MarkDeleted(from.metadata, GcClaim(from.metadata.key, from.metadata.generation));
    DeletionOutcomes(k, s.live, r, c, t.value, e.now);
    assert c.(recon := Idle).(inflight := c.inflight + {DeleteBlob(r, t.value.next, e.now)})
        == c.(recon := Idle, inflight := c.inflight + {DeleteBlob(r, t.value.next, e.now)});
    CommitKeepsInv(s, k, DeleteBlob(r, t.value.next, e.now), e.commit, c.(recon := Completed), c.(recon := Idle));
  }

  lemma LateApplies(key: Id, live: Id, r: Row, c: Cell, w: Write)
    requires RowInv(key, live, r, c) && w in c.inflight && !w.Insert? && w.from == r && LegalWrite(w)
    ensures RowInv(key, live, Written(w), c)
  {
    match w
    case StageBlob(_, _, _) =>
      assert WriteOk(key, live, r, c, w);
      StageApplies(key, live, r, c, w);
    case ClaimForDeletion(_, _, _, _) => ClaimApplies(key, live, r, c, w);
    case DeleteBlob(_, _, _) => DeleteApplies(key, live, r, c, w);
  }

  /** A write in flight that takes effect late still finds what it was sent for. */
  lemma LateWrite(s: Sys, k: Id, w: Write)
    requires CellsOk(s) && k in s.db.rows && w in s.cells[k].inflight && !w.Insert? && w.from == s.db.rows[k]
    ensures CellInv(k, s.live, Some(Written(w)), s.cells[k].(inflight := s.cells[k].inflight - {w}))
  {
    assert CellOk(s, k);
    LateApplies(k, s.live, s.db.rows[k], s.cells[k], w);
    LoseWriteStep(k, s.live, Written(w), s.cells[k], w);
  }

  lemma LateCommitKeepsCells(s: Sys, k: Id, w: Write, db: Db)
    requires CellsOk(s) && k in s.cells && w in s.cells[k].inflight
    requires db.rows == s.db.rows[k := Written(w)]
    requires w.Insert? <==> k !in s.db.rows
    requires !w.Insert? ==> w.from == s.db.rows[k]
    ensures CellsOk(WithCell(s, k, s.cells[k].(inflight := s.cells[k].inflight - {w})).(db := db))
  {
    assert CellOk(s, k);
    if k in s.db.rows {
      LateWrite(s, k, w);
    } else {
      LateReserve(k, s.live, s.cells[k], w);
    }
    AckedKeepsCells(s, k, Written(w), db, s.cells[k].(inflight := s.cells[k].inflight - {w}));
  }

  lemma LateCommitKeepsInv(s: Sys, k: Id, w: Write)
    requires Inv(s) && k in s.cells && LateEvent(s, k, w).Some?
    ensures Inv(LateEvent(s, k, w).value)
  {
    assert CellOk(s, k);
    assert k in s.db.rows ==> WriteOk(k, s.live, s.db.rows[k], s.cells[k], w);
    WriteLands(s, w, k);
    LateCommitKeepsCells(s, k, w, ApplyWrite(s.db, w).value);
  }

  lemma OwnerRowChanges(s: Sys, k: Id, db: Db)
    requires CellsOk(s) && k in s.db.rows
    requires k in db.rows && db == s.db.(rows := s.db.rows[k := db.rows[k]])
    requires var r, r' := s.db.rows[k], db.rows[k];
             && Advances(r, r') && r'.process == r.process && r'.metadata.bytes == r.metadata.bytes
             && (if r.metadata.state == Staged then r'.metadata.state == Attached
                 else r.metadata.state == Attached && r'.metadata.state == Unreferenced)
    ensures CellsOk(s.(db := db))
  {
    assert CellOk(s, k);
    OwnerChanges(k, s.live, s.db.rows[k], db.rows[k], s.cells[k]);
    OthersKept(s, s.(db := db), k);
  }

  lemma OwnerStepsKeepInv(s: Sys, e: Event)
    requires Inv(s) && (e.AttachRow? || e.UnreferenceRow?) && e.key in s.cells && OwnerEvent(s, e).Some?
    ensures Inv(OwnerEvent(s, e).value)
  {
    var k, s' := e.key, OwnerEvent(s, e).value;
    if e.AttachRow? {
      AttachKeepsDb(s.db, k, e.now, e.handle, e.binding, e.owner);
    } else {
      UnreferenceKeepsDb(s.db, k, e.owner);
    }
    OwnerBoundsStages(s.db, k, s'.db.rows[k]);
    OwnerRowChanges(s, k, s'.db);
  }

  lemma OwnerBoundsStages(db: Db, k: Id, r': Row)
    requires StagesBounded(db) && k in db.rows
    requires r'.metadata.state == Attached || r'.metadata.state == Unreferenced
    ensures StagesBounded(db.(rows := db.rows[k := r']))
  {
    TotalUpdate(db.rows, k, r', AnonymousStages);
    forall s
      ensures Total(db.rows[k := r'], SubjectStages(s)) <= MAX_LIVE_STAGES
    {
      TotalUpdate(db.rows, k, r', SubjectStages(s));
    }
  }

  lemma CrashKeepsCell(s: Sys, s': Sys, k: Id, f: File)
    requires k in s.cells && CellOk(s, k) && Survives(s.cells[k].file, f)
    requires s'.live == s.live + 1 && s'.db == s.db && k in s'.cells && s'.cells[k] == Crashed(s.cells[k], f)
    ensures CellOk(s', k)
  {
    CrashKeeps(k, s.live, Lookup(s.db, k), s.cells[k], f);
  }

  lemma CrashKeepsCells(s: Sys, files: map<Id, File>)
    requires CellsOk(s) && CrashEvent(s, files).Some?
    ensures CellsOk(CrashEvent(s, files).value)
  {
    var s' := CrashEvent(s, files).value;
    forall k | k in s'.cells
      ensures CellOk(s', k)
    {
      CrashKeepsCell(s, s', k, files[k]);
    }
  }

  lemma ReserveKeepsInv(s: Sys, k: Id, row: Row, p: Policy)
    requires Inv(s) && ReserveEvent(s, k, row, p).Some?
    ensures Inv(ReserveEvent(s, k, row, p).value)
  {
    OthersKept(s, ReserveEvent(s, k, row, p).value, k);
  }

  lemma NextKeepsInv(s: Sys, e: Event)
    requires Inv(s) && Next(s, e).Some?
    ensures Inv(Next(s, e).value)
  {
    match e
    case OnCell(k, local) => LocalKeepsInv(s, k, local);
    case Reserve(k, row, p) => ReserveKeepsInv(s, k, row, p);
    case CommitReserve(_, _) => CommitReserveKeepsInv(s, e);
    case Publish(_, _, _) => PublishKeepsInv(s, e);
    case CommitClaim(_, _) => CommitClaimKeepsInv(s, e);
    case CommitDeleted(_, _, _) => CommitDeletedKeepsInv(s, e);
    case AttachRow(_, _, _, _, _) => OwnerStepsKeepInv(s, e);
    case UnreferenceRow(_, _) => OwnerStepsKeepInv(s, e);
    case LateCommit(k, w) => LateCommitKeepsInv(s, k, w);
    case Crash(files) => CrashKeepsCells(s, files);
  }

  lemma {:induction false} RunKeepsInv(s: Sys, events: seq<Event>)
    requires Inv(s) && Run(s, events).Some?
    ensures Inv(Run(s, events).value)
    decreases |events|
  {
    if events != [] {
      NextKeepsInv(s, events[0]);
      RunKeepsInv(Next(s, events[0]).value, events[1..]);
    }
  }

  lemma ReachableInv(s: Sys)
    requires Reachable(s)
    ensures Inv(s)
  {
    var events :| Run(INITIAL, events) == Some(s);
    InitialInv();
    RunKeepsInv(INITIAL, events);
  }
}
