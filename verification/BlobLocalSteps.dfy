/** Every step that leaves the database alone preserves the cell invariant. */
module BlobLocalSteps {
  import opened Prelude
  import opened BlobState
  import opened BlobDatabase
  import opened BlobConservation
  import opened BlobInspect
  import opened BlobProtocol
  import opened BlobInvariant

  // ----- what survives when witnesses stop, workers leave and writes are lost -----

  /** `c'` differs from `c` only in who has given up: some witnesses stopped, some workers
      gone, some writes lost, and nobody new able to start anything. */
  ghost predicate Later(c: Cell, c': Cell) {
    && |c'.witnesses| == |c.witnesses|
    && (forall i: nat :: IsWitness(c, i) ==>
          && c'.witnesses[i].generation == c.witnesses[i].generation
          && (c.witnesses[i].stopped ==> c'.witnesses[i].stopped))
    && c'.file == c.file && c'.workers == c.workers && c'.undispatched == c.undispatched
    && c'.quarantined == c.quarantined
    && c'.inflight <= c.inflight
    && (forall i :: i in c'.jobs ==> i in c.jobs && c'.jobs[i] == c.jobs[i] && Unstopped(c', i))
    && (c.jobs == map[] ==> c'.jobs == map[])
    && (Quiet(c) ==> Quiet(c'))
    && (forall i: nat :: Owned(c, i) ==> Owned(c', i))
  }

  lemma WritesLater(key: Id, live: Id, r: Row, c: Cell, c': Cell)
    requires WritesOk(key, live, r, c) && Later(c, c')
    ensures WritesOk(key, live, r, c')
  {
    forall w | w in c'.inflight
      ensures WriteOk(key, live, r, c', w)
    {
      assert WriteOk(key, live, r, c, w);
    }
  }

  lemma UploadingLater(live: Id, r: Row, c: Cell, c': Cell)
    requires UploadingOk(live, r, c) && Later(c, c')
    requires Proves(c', c'.workers, 1) ==> Quiet(c')
    requires c'.upload.UploadStarted? <==> c.upload.UploadStarted?
    requires c.upload == NoUpload ==> c'.upload == NoUpload
    ensures UploadingOk(live, r, c')
  {
  }

  lemma DeletingLater(live: Id, r: Row, c: Cell, c': Cell)
    requires DeletingOk(live, r, c) && Later(c, c')
    requires Proves(c', c'.workers, r.metadata.generation) ==> c'.jobs == map[]
    requires Proves(c', c'.undispatched, r.metadata.generation) ==> c'.jobs == map[]
    requires !c'.upload.Reserving? && !c'.upload.Granted? && !c'.upload.UploadStarted?
    ensures DeletingOk(live, r, c')
  {
  }

  lemma BoundedLater(key: Id, r: Row, c: Cell, c': Cell, x: Row)
    requires Bounded(key, r, c, x) && Later(c, c')
    ensures Bounded(key, r, c', x)
  {
  }

  lemma ClaimingLater(key: Id, live: Id, r: Row, c: Cell, c': Cell)
    requires ClaimingOk(key, live, r, c) && Later(c, c') && c'.recon == c.recon
    requires c.recon.Armed? ==> Unstopped(c', c.recon.lease)
    ensures ClaimingOk(key, live, r, c')
  {
    match c.recon
    case Paged(x) => BoundedLater(key, r, c, c', x);
    case LookedInPartial(x, _) => BoundedLater(key, r, c, c', x);
    case Sighted(x, _) => BoundedLater(key, r, c, c', x);
    case Planned(x, _, _, _) => BoundedLater(key, r, c, c', x);
    case Fenced(w, _) => BoundedLater(key, r, c, c', w.from);
    case ProofKept(w) => BoundedLater(key, r, c, c', w.from);
    case Armed(w, _) => BoundedLater(key, r, c, c', w.from);
    case _ =>
  }

  lemma RemovingLater(live: Id, r: Row, c: Cell, c': Cell)
    requires RemovingOk(live, r, c) && Later(c, c') && c'.recon == c.recon
    requires c.recon.Claimed? || c.recon.RemoveStarted? || c.recon.RemoveRecorded? ==> Unstopped(c', c.recon.lease)
    requires forall i :: i in c.jobs && i !in c'.jobs ==> !Unstopped(c', i)
    ensures RemovingOk(live, r, c')
  {
  }


  /** Leases still held by a continuing reconciliation run were not among the stopped. */
  predicate LeaseKept(c: Cell, c': Cell) {
    c.recon.Armed? || c.recon.Claimed? || c.recon.RemoveStarted? || c.recon.RemoveRecorded? ==> Unstopped(c', c.recon.lease)
  }

  /** A registered witness that newly proves a stop does so of a quiet cell. */
  predicate NewProofsQuiet(r: Row, c: Cell, c': Cell) {
    var g := r.metadata.generation;
    r.metadata.state == Uploading || r.metadata.state == Deleting ==>
      && (Proves(c', c.workers, g) && !Proves(c, c.workers, g) ==> Quiet(c'))
      && (Proves(c', c.undispatched, g) && !Proves(c, c.undispatched, g) ==> Quiet(c'))
  }

  lemma RowLater(key: Id, live: Id, r: Row, c: Cell, c': Cell)
    requires RowOk(key, live, r, c) && Later(c, c') && NewProofsQuiet(r, c, c')
    requires UploadOk(key, r, c')
    requires c'.upload.UploadStarted? <==> c.upload.UploadStarted?
    requires c'.upload.Granted? ==> c.upload.Granted?
    requires c.upload == NoUpload ==> c'.upload == NoUpload
    requires if c'.recon == c.recon then LeaseKept(c, c') else ClaimingOk(key, live, r, c') && RemovingOk(live, r, c')
    requires forall i :: i in c.jobs && i !in c'.jobs ==> !Unstopped(c', i)
    ensures RowOk(key, live, r, c')
  {
    WritesLater(key, live, r, c, c');
    if c'.recon == c.recon {
      ClaimingLater(key, live, r, c, c');
      RemovingLater(live, r, c, c');
    }
    match r.metadata.state
    case Uploading => UploadingLater(live, r, c, c');
    case Deleting => DeletingLater(live, r, c, c');
    case _ =>
  }

  lemma StopJobLater(c: Cell, i: nat, succeeded: bool)
    requires JobsRun(c) && i in c.jobs && IsWitness(c, i)
    ensures Later(c, StopJob(c, i, succeeded))
  {
  }

  /** A worker stopping, whichever way, keeps the row's invariant: if its witness is the one
      the registry holds, nothing else was running. */
  lemma JobStops(key: Id, live: Id, r: Row, c: Cell, i: nat, succeeded: bool)
    requires JobsRun(c) && RowOk(key, live, r, c) && i in c.jobs && IsWitness(c, i)
    ensures RowOk(key, live, r, StopJob(c, i, succeeded))
    ensures JobsRun(StopJob(c, i, succeeded))
  {
    var c' := StopJob(c, i, succeeded);
    StopJobLater(c, i, succeeded);
    if OnlyJob(c, i) {
      assert c'.jobs == map[];
    }
    RowLater(key, live, r, c, c');
  }

  /** The request sees its worker's durable object only once the object is in place. */
  lemma UploadFinishes(key: Id, live: Id, r: Row, c: Cell, i: nat, d: DurableObject)
    requires JobsRun(c) && RowOk(key, live, r, c) && i in c.jobs && IsWitness(c, i)
    requires c.jobs[i].UploadJob? && c.jobs[i].upload == Synced(d.bytes) && d.key == key
    requires c.upload.Streaming? && c.upload.job == i
    ensures RowOk(key, live, r, StopJob(c, i, true).(upload := Finished(c.upload.row, i, d)))
  {
    var c1 := StopJob(c, i, true);
    var c' := c1.(upload := Finished(c.upload.row, i, d));
    JobStops(key, live, r, c, i, true);
    assert Later(c1, c');
    assert r.metadata.state == Uploading ==> c1.jobs == map[] by {
      if r.metadata.state == Uploading {
        assert OnlyJob(c, i);
      }
    }
    RowLater(key, live, r, c1, c');
  }

  lemma RemoveFinishes(key: Id, live: Id, r: Row, c: Cell, i: nat)
    requires JobsRun(c) && RowOk(key, live, r, c) && i in c.jobs && IsWitness(c, i)
    requires c.jobs[i] == RemoveJob(Cleared)
    requires c.recon.Removing? && c.recon.job == i
    ensures RowOk(key, live, r, StopJob(c, i, true).(recon := Removed(c.recon.row)))
  {
    var c1 := StopJob(c, i, true);
    var c' := c1.(recon := Removed(c.recon.row));
    JobStops(key, live, r, c, i, true);
    assert Later(c1, c');
    assert c1.jobs == map[] by {
      assert OnlyJob(c, i);
    }
    RowLater(key, live, r, c1, c');
  }

  lemma LeaseStops(key: Id, live: Id, r: Row, c: Cell, l: nat)
    requires JobsRun(c) && RowOk(key, live, r, c) && IsWitness(c, l)
    requires (c.recon.Armed? || c.recon.Claimed?) && c.recon.lease == l
    ensures RowOk(key, live, r, StopUnstarted(c, l).(recon := Idle))
  {
    var c' := StopUnstarted(c, l).(recon := Idle);
    assert Later(c, c');
    RowLater(key, live, r, c, c');
  }

  // ----- the steps -----

  lemma StartUploadStep(key: Id, live: Id, r: Row, c: Cell, e: Local)
    requires RowInv(key, live, r, c) && RequestNext(c, e).Some?
    requires e.StartUpload?
    ensures RowInv(key, live, r, RequestNext(c, e).value)
  {
  }

  lemma RecordUploadStep(key: Id, live: Id, r: Row, c: Cell, e: Local)
    requires RowInv(key, live, r, c) && RequestNext(c, e).Some?
    requires e.RecordUpload?
    ensures RowInv(key, live, r, RequestNext(c, e).value)
  {
  }

  lemma DispatchUploadStep(key: Id, live: Id, r: Row, c: Cell, e: Local)
    requires RowInv(key, live, r, c) && RequestNext(c, e).Some?
    requires e.DispatchUpload?
    ensures RowInv(key, live, r, RequestNext(c, e).value)
  {
    var c' := RequestNext(c, e).value;
    assert Later(c, c');
    RowLater(key, live, r, c, c');
  }

  lemma GrantAbandoned(key: Id, live: Id, r: Row, c: Cell)
    requires RowInv(key, live, r, c) && c.upload.Granted?
    ensures RowInv(key, live, r, StopUnstarted(c, c.upload.lease).(upload := NoUpload))
  {
    var c' := StopUnstarted(c, c.upload.lease).(upload := NoUpload);
    assert Later(c, c');
    RowLater(key, live, r, c, c');
  }

  lemma StreamAbandoned(key: Id, live: Id, r: Row, c: Cell)
    requires RowInv(key, live, r, c) && (c.upload.Streaming? || c.upload.Finished?)
    ensures RowInv(key, live, r, Cancel(c, c.upload.job).(upload := NoUpload))
  {
    var c' := Cancel(c, c.upload.job).(upload := NoUpload);
    assert Later(c, c');
    RowLater(key, live, r, c, c');
  }

  lemma AbandonUploadStep(key: Id, live: Id, r: Row, c: Cell, e: Local)
    requires RowInv(key, live, r, c) && RequestNext(c, e).Some?
    requires e.AbandonUpload?
    ensures RowInv(key, live, r, RequestNext(c, e).value)
  {
    if c.upload.Granted? {
      GrantAbandoned(key, live, r, c);
    } else {
      StreamAbandoned(key, live, r, c);
    }
  }

  lemma UploadIoStep(key: Id, live: Id, r: Row, c: Cell, e: Local)
    requires RowInv(key, live, r, c) && WorkerNext(key, c, e).Some?
    requires e.UploadIo?
    ensures RowInv(key, live, r, WorkerNext(key, c, e).value)
  {
  }

  /** Removal works on a row that is Deleting or Deleted, and undoes nothing it has done. */
  lemma RemoveIoStep(key: Id, live: Id, r: Row, c: Cell, i: nat, f: File, step: RemoveStep)
    requires RowInv(key, live, r, c)
    requires i in c.jobs && c.jobs[i].RemoveJob? && RemoveStepped(c.file, c.jobs[i].remove) == Some((f, step))
    ensures RowInv(key, live, r, c.(file := f, jobs := c.jobs[i := RemoveJob(step)]))
  {
    var c' := c.(file := f, jobs := c.jobs[i := RemoveJob(step)]);
    assert forall j :: j in c'.jobs <==> j in c.jobs;
    if r.metadata.state == Deleting {
      assert OnlyJob(c, i);
      RemoveIoDeleting(key, live, r, c, i, f, step);
    } else {
      assert r.metadata.state == Deleted;
      assert f == ABSENT;
      RemoveIoDeleted(key, live, r, c, i, step);
    }
  }

  lemma RemoveIoDeleting(key: Id, live: Id, r: Row, c: Cell, i: nat, f: File, step: RemoveStep)
    requires RowInv(key, live, r, c) && r.metadata.state == Deleting && OnlyJob(c, i)
    requires i in c.jobs && c.jobs[i].RemoveJob? && RemoveStepped(c.file, c.jobs[i].remove) == Some((f, step))
    ensures RowInv(key, live, r, c.(file := f, jobs := c.jobs[i := RemoveJob(step)]))
  {
    var c' := c.(file := f, jobs := c.jobs[i := RemoveJob(step)]);
    assert c.jobs != map[];
    assert OnlyJob(c', i);
    assert WritesOk(key, live, r, c');
    RemoverLeavesClaims(key, live, r, c, c');
  }

  lemma RemoveIoDeleted(key: Id, live: Id, r: Row, c: Cell, i: nat, step: RemoveStep)
    requires RowInv(key, live, r, c) && r.metadata.state == Deleted
    requires i in c.jobs && c.jobs[i].RemoveJob?
    ensures RowInv(key, live, r, c.(file := ABSENT, jobs := c.jobs[i := RemoveJob(step)]))
  {
    var c' := c.(file := ABSENT, jobs := c.jobs[i := RemoveJob(step)]);
    assert WritesOk(key, live, r, c');
    RemoverLeavesClaims(key, live, r, c, c');
  }

  /** While a worker runs, no claim under way relies on the file or on quiet. */
  lemma RemoverLeavesClaims(key: Id, live: Id, r: Row, c: Cell, c': Cell)
    requires ClaimingOk(key, live, r, c) && c' == c.(file := c'.file, jobs := c'.jobs)
    requires c.jobs != map[] && forall i :: i in c.jobs <==> i in c'.jobs
    ensures ClaimingOk(key, live, r, c')
  {
    match c.recon
    case Planned(x, _, _, _) => assert Bounded(key, r, c', x);
    case Fenced(w, _) => assert Bounded(key, r, c', w.from);
    case ProofKept(w) => assert Bounded(key, r, c', w.from);
    case Armed(w, _) => assert Bounded(key, r, c', w.from);
    case _ =>
  }

  lemma WorkerFailsStep(key: Id, live: Id, r: Row, c: Cell, e: Local)
    requires RowInv(key, live, r, c) && WorkerNext(key, c, e).Some?
    requires e.WorkerFails?
    ensures RowInv(key, live, r, WorkerNext(key, c, e).value)
  {
    JobStops(key, live, r, c, e.worker, false);
  }

  lemma WorkerFinishesStep(key: Id, live: Id, r: Row, c: Cell, e: Local)
    requires RowInv(key, live, r, c) && WorkerNext(key, c, e).Some?
    requires e.WorkerFinishes?
    ensures RowInv(key, live, r, WorkerNext(key, c, e).value)
  {
    var i := e.worker;
    var c' := WorkerNext(key, c, e).value;
    if c' == StopJob(c, i, true) {
      JobStops(key, live, r, c, i, true);
    } else if c.jobs[i].UploadJob? {
      UploadFinishes(key, live, r, c, i, c'.upload.durable);
    } else {
      RemoveFinishes(key, live, r, c, i);
    }
  }

  lemma ReadPageStep(key: Id, live: Id, r: Row, c: Cell, e: Local)
    requires RowInv(key, live, r, c) && PlanNext(key, live, Some(r), c, e).Some?
    requires e.ReadPage?
    ensures RowInv(key, live, r, PlanNext(key, live, Some(r), c, e).value)
  {
  }

  lemma LookStep(key: Id, live: Id, r: Row, c: Cell, e: Local)
    requires RowInv(key, live, r, c) && PlanNext(key, live, Some(r), c, e).Some?
    requires e.LookInPartial? || e.LookInObjects?
    ensures RowInv(key, live, r, PlanNext(key, live, Some(r), c, e).value)
  {
    var c' := PlanNext(key, live, Some(r), c, e).value;
    PlanLater(c, c'.recon);
    LookKeepsPage(key, live, r, c, c'.recon);
    RowLater(key, live, r, c, c');
  }

  lemma PlanLater(c: Cell, next: Recon)
    requires JobsRun(c) && (c.recon.Paged? || c.recon.LookedInPartial?)
    ensures Later(c, c.(recon := next))
  {
  }

  lemma LookKeepsPage(key: Id, live: Id, r: Row, c: Cell, next: Recon)
    requires ClaimingOk(key, live, r, c)
    requires || (c.recon.Paged? && next == LookedInPartial(c.recon.row, c.file.partial))
             || (c.recon.LookedInPartial? && next == Sighted(c.recon.row, Sighting(c.recon.partial, c.file.finalized)))
    ensures ClaimingOk(key, live, r, c.(recon := next))
  {
    assert PageOk(key, r, c.(recon := next), c.recon.row);
  }

  /** The classification never reports a lost or damaged object, even from a row read
      before the two directories were looked into. */
  lemma NeverQuarantines(key: Id, live: Id, r: Row, c: Cell, proof: Option<StoppedIo>, now: int)
    requires RowInv(key, live, r, c) && c.recon.Sighted?
    ensures !Classify(c.recon.row, live, c.recon.physical, proof, now).RequiresOperator()
  {
  }

  /** A claiming classification is only ever reached for a cell where nothing can still write. */
  lemma ClaimsAreQuiet(key: Id, live: Id, r: Row, c: Cell, now: int)
    requires RowInv(key, live, r, c) && c.recon.Sighted?
    requires c.recon.row.metadata.generation == r.metadata.generation
    requires var slot := StoppedWitness(c, r.metadata.generation);
             Classify(c.recon.row, live, c.recon.physical, ProofOf(c, key, slot), now).Claims()
    ensures Quiet(c)
  {
    assert c.recon.row == r;
  }

  lemma RunEnds(key: Id, live: Id, r: Row, c: Cell)
    requires RowInv(key, live, r, c) && (c.recon.Unclaimed() || c.recon.Removed?)
    ensures RowInv(key, live, r, c.(recon := Idle))
  {
    assert Later(c, c.(recon := Idle));
    RowLater(key, live, r, c, c.(recon := Idle));
  }

  lemma TombstoneForgotten(key: Id, live: Id, r: Row, c: Cell)
    requires RowInv(key, live, r, c) && r.metadata.state == Deleted && c.recon.Sighted?
    ensures RowInv(key, live, r, c.(workers := None, undispatched := None, recon := Idle))
  {
  }

  lemma PlanMade(key: Id, live: Id, r: Row, c: Cell, now: int)
    requires RowInv(key, live, r, c) && c.recon.Sighted?
    requires var x := c.recon.row;
             var slot := StoppedWitness(c, x.metadata.generation);
             Classify(x, live, c.recon.physical, ProofOf(c, key, slot), now).RecoverableHint()
    ensures var x := c.recon.row;
            var slot := StoppedWitness(c, x.metadata.generation);
            RowInv(key, live, r, c.(recon := Planned(x, slot, Classify(x, live, c.recon.physical, ProofOf(c, key, slot), now), now)))
  {
    var x := c.recon.row;
    var slot := StoppedWitness(c, x.metadata.generation);
    var kind := Classify(x, live, c.recon.physical, ProofOf(c, key, slot), now);
    var c' := c.(recon := Planned(x, slot, kind, now));
    if kind.Claims() && x.metadata.generation == r.metadata.generation {
      ClaimsAreQuiet(key, live, r, c, now);
    }
    assert Later(c, c');
    RowLater(key, live, r, c, c');
  }

  lemma InspectStep(key: Id, live: Id, r: Row, c: Cell, e: Local)
    requires RowInv(key, live, r, c) && PlanNext(key, live, Some(r), c, e).Some?
    requires e.Inspect?
    ensures RowInv(key, live, r, PlanNext(key, live, Some(r), c, e).value)
  {
    var x := c.recon.row;
    var proof := ProofOf(c, key, StoppedWitness(c, x.metadata.generation));
    var kind := Classify(x, live, c.recon.physical, proof, e.now);
    NeverQuarantines(key, live, r, c, proof, e.now);
    if kind == RetainTombstone {
      TombstoneForgotten(key, live, r, c);
    } else if kind.RecoverableHint() {
      PlanMade(key, live, r, c, e.now);
    } else {
      RunEnds(key, live, r, c);
    }
  }

  lemma CleanerStarts(key: Id, live: Id, r: Row, c: Cell)
    requires RowInv(key, live, r, c) && r.metadata.state == Deleted && c.recon.Planned?
    ensures var n := |c.witnesses|;
            RowInv(key, live, r, Spawn(c, PendingWitness(r.metadata.generation)).(
                                 jobs := c.jobs[n := RemoveJob(UnlinkPartial)], recon := Idle))
  {
  }

  lemma ClaimFenced(key: Id, live: Id, r: Row, c: Cell, t: Transition)
    requires RowInv(key, live, r, c) && c.recon.Planned? && c.recon.kind.Claims()
    requires c.recon.row.metadata.generation == r.metadata.generation
    requires ClaimFor(r, c.recon.kind, live, c.recon.now, ProofOf(c, key, c.recon.proof)) == Ok(t)
    ensures RowInv(key, live, r, c.(recon := Fenced(ClaimForDeletion(r, t.next, live, c.recon.now), c.recon.proof)))
  {
    var c' := c.(recon := Fenced(ClaimForDeletion(r, t.next, live, c.recon.now), c.recon.proof));
    assert Later(c, c');
    RowLater(key, live, r, c, c');
  }

  lemma FenceClaimStep(key: Id, live: Id, r: Row, c: Cell, e: Local)
    requires RowInv(key, live, r, c) && PlanNext(key, live, Some(r), c, e).Some?
    requires e.FenceClaim?
    ensures RowInv(key, live, r, PlanNext(key, live, Some(r), c, e).value)
  {
    assert c.recon.row == r;
    if c.recon.kind == CleanKnownDeletedObject {
      CleanerStarts(key, live, r, c);
    } else {
      var t := ClaimFor(r, c.recon.kind, live, c.recon.now, ProofOf(c, key, c.recon.proof));
      ClaimFenced(key, live, r, c, t.value);
    }
  }

  lemma KeepProofStep(key: Id, live: Id, r: Row, c: Cell, e: Local)
    requires RowInv(key, live, r, c) && ClaimNext(c, e).Some?
    requires e.KeepProof?
    ensures RowInv(key, live, r, ClaimNext(c, e).value)
  {
  }

  lemma ArmDeletionStep(key: Id, live: Id, r: Row, c: Cell, e: Local)
    requires RowInv(key, live, r, c) && ClaimNext(c, e).Some?
    requires e.ArmDeletion?
    ensures RowInv(key, live, r, ClaimNext(c, e).value)
  {
  }

  lemma AbortClaimStep(key: Id, live: Id, r: Row, c: Cell, e: Local)
    requires RowInv(key, live, r, c) && ClaimNext(c, e).Some?
    requires e.AbortClaim?
    ensures RowInv(key, live, r, ClaimNext(c, e).value)
  {
    if c.recon.Armed? || c.recon.Claimed? {
      LeaseStops(key, live, r, c, c.recon.lease);
    } else {
      RunEnds(key, live, r, c);
    }
  }

  lemma StartRemoveStep(key: Id, live: Id, r: Row, c: Cell, e: Local)
    requires RowInv(key, live, r, c) && RemoveNext(c, e).Some?
    requires e.StartRemove? || e.RecordRemove?
    ensures RowInv(key, live, r, RemoveNext(c, e).value)
  {
  }

  lemma DispatchRemoveStep(key: Id, live: Id, r: Row, c: Cell, e: Local)
    requires RowInv(key, live, r, c) && RemoveNext(c, e).Some?
    requires e.DisarmClaim? || e.DispatchRemove? || e.ForgetWorker?
    ensures RowInv(key, live, r, RemoveNext(c, e).value)
  {
  }

  lemma AbandonRemoveStep(key: Id, live: Id, r: Row, c: Cell, e: Local)
    requires RowInv(key, live, r, c) && RemoveNext(c, e).Some?
    requires e.AbandonRemove?
    ensures RowInv(key, live, r, RemoveNext(c, e).value)
  {
    var c' := RemoveNext(c, e).value;
    assert Later(c, c');
    RowLater(key, live, r, c, c');
  }

  lemma LoseWriteStep(key: Id, live: Id, r: Row, c: Cell, w: Write)
    requires RowInv(key, live, r, c)
    ensures RowInv(key, live, r, c.(inflight := c.inflight - {w}))
  {
    var c' := c.(inflight := c.inflight - {w});
    WriteLost(c, c');
    assert UploadOk(key, r, c');
    RowLater(key, live, r, c, c');
  }

  lemma WriteLost(c: Cell, c': Cell)
    requires JobsRun(c) && c' == c.(inflight := c'.inflight) && c'.inflight <= c.inflight
    ensures Later(c, c')
  {
  }

  /** Before its row exists a cell can only give the reservation up. */
  lemma RowlessStep(key: Id, live: Id, c: Cell, e: Local)
    requires CellInv(key, live, None, c) && LocalNext(key, live, None, c, e).Some?
    ensures CellInv(key, live, None, LocalNext(key, live, None, c, e).value)
  {
  }
}
