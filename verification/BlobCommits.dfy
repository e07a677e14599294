/** Every commit, whichever way it turned out, preserves the cell invariant. */
module BlobCommits {
  import opened Prelude
  import opened BlobState
  import opened BlobDatabase
  import opened BlobConservation
  import opened BlobInspect
  import opened BlobProtocol
  import opened BlobInvariant
  import opened BlobLocalSteps

  // ----- the row moves on while parties hold older snapshots -----

  predicate Advances(r: Row, r': Row) {
    && r'.metadata.key == r.metadata.key
    && r'.metadata.generation == r.metadata.generation + 1
    && r.metadata.state != Deleted
  }

  /** Writes in flight against an older row can no longer match. */
  lemma WritesAfter(key: Id, live: Id, r: Row, r': Row, c: Cell)
    requires WritesOk(key, live, r, c) && Advances(r, r')
    ensures WritesOk(key, live, r', c)
  {
    forall w | w in c.inflight
      ensures WriteOk(key, live, r', c, w)
    {
      assert WriteOk(key, live, r, c, w);
    }
  }

  /** A reconciliation run that read the older row keeps everything it relies on. */
  lemma ClaimingAfter(key: Id, live: Id, r: Row, r': Row, c: Cell)
    requires ClaimingOk(key, live, r, c) && WritesOk(key, live, r, c) && Advances(r, r')
    requires r'.metadata.state == Deleting ==> Quiet(c) && (exists w :: w in c.inflight && Target(w) == r.metadata.generation && !w.Insert?)
    requires r'.metadata.state != Deleted && r'.metadata.state != Uploading
    ensures ClaimingOk(key, live, r', c)
  {
  }

  // ----- reservation -----

  lemma ReserveGranted(key: Id, live: Id, c: Cell)
    requires CellInv(key, live, None, c) && c.upload.Reserving?
    ensures CellInv(key, live, Some(c.upload.row), c.(upload := Granted(c.upload.row, c.upload.lease)))
  {
  }

  lemma ReserveUnknown(key: Id, live: Id, c: Cell, w: Write)
    requires CellInv(key, live, None, c) && c.upload.Reserving?
    requires w == Insert(c.upload.row, c.upload.policy)
    ensures var c' := StopUnstarted(c, c.upload.lease).(upload := NoUpload);
            CellInv(key, live, None, c'.(inflight := c'.inflight + {w}))
  {
  }

  lemma LateReserve(key: Id, live: Id, c: Cell, w: Write)
    requires CellInv(key, live, None, c) && w in c.inflight
    requires w.row.metadata.generation == 1 && w.row.metadata.state == Uploading
    ensures CellInv(key, live, Some(w.row), c.(inflight := c.inflight - {w}))
  {
  }

  // ----- publication -----

  lemma PublishAcked(key: Id, live: Id, r: Row, c: Cell, w: Write)
    requires RowInv(key, live, r, c) && c.upload.Finished?
    requires w.StageBlob? && w.from == c.upload.row == r && LegalWrite(w) && w.next.bytes == c.upload.durable.bytes
    ensures RowInv(key, live, Written(w), Cancel(c, c.upload.job).(upload := NoUpload))
  {
    var c' := Cancel(c, c.upload.job).(upload := NoUpload);
    StreamAbandoned(key, live, r, c);
    StageApplies(key, live, r, c', w);
  }

  lemma StageApplies(key: Id, live: Id, r: Row, c: Cell, w: Write)
    requires RowInv(key, live, r, c)
    requires w.StageBlob? && w.from == r && LegalWrite(w)
    requires Quiet(c) && c.file == FinalFile(w.next.bytes)
    ensures RowInv(key, live, Written(w), c)
  {
    var r' := Written(w);
    WritesAfter(key, live, r, r', c);
    ClaimingAfter(key, live, r, r', c);
  }

  lemma PublishUnknown(key: Id, live: Id, r: Row, c: Cell, w: Write)
    requires RowInv(key, live, r, c) && c.upload.Finished?
    requires w.StageBlob? && w.from == c.upload.row && LegalWrite(w) && w.next.bytes == c.upload.durable.bytes
    ensures var c' := Cancel(c, c.upload.job).(upload := NoUpload);
            RowInv(key, live, r, c'.(inflight := c'.inflight + {w}))
  {
    var c' := Cancel(c, c.upload.job).(upload := NoUpload);
    StreamAbandoned(key, live, r, c);
    SendStage(key, live, r, c', w);
  }

  lemma WritesSent(key: Id, live: Id, r: Row, c: Cell, w: Write)
    requires WritesOk(key, live, r, c) && WriteOk(key, live, r, c, w)
    ensures WritesOk(key, live, r, c.(inflight := c.inflight + {w}))
  {
    var c' := c.(inflight := c.inflight + {w});
    forall x | x in c'.inflight
      ensures WriteOk(key, live, r, c', x)
    {
      assert x == w || WriteOk(key, live, r, c, x);
    }
  }

  /** Sending a write whose conditions hold now leaves the invariant with that write in flight. */
  lemma SendWrite(key: Id, live: Id, r: Row, c: Cell, w: Write)
    requires RowInv(key, live, r, c) && WriteOk(key, live, r, c, w)
    requires !w.Insert? && c.recon == Idle
    requires w.DeleteBlob? ==> r.metadata.state == Deleting || r.metadata.state == Deleted
    ensures RowInv(key, live, r, c.(inflight := c.inflight + {w}))
  {
    WritesSent(key, live, r, c, w);
  }

  /** Publication may overlap a reconciliation run, but it names the first generation only. */
  lemma SendStage(key: Id, live: Id, r: Row, c: Cell, w: Write)
    requires RowInv(key, live, r, c) && WriteOk(key, live, r, c, w)
    requires w.StageBlob? && Target(w) == 1
    ensures RowInv(key, live, r, c.(inflight := c.inflight + {w}))
  {
    var c' := c.(inflight := c.inflight + {w});
    WritesSent(key, live, r, c, w);
    ClaimingSent(key, live, r, c, w);
    RemovingSent(live, r, c, w);
  }

  lemma BoundedSent(key: Id, r: Row, c: Cell, w: Write, x: Row)
    requires Bounded(key, r, c, x) && Target(w) == 1
    ensures Bounded(key, r, c.(inflight := c.inflight + {w}), x)
  {
  }

  lemma ClaimingSent(key: Id, live: Id, r: Row, c: Cell, w: Write)
    requires ClaimingOk(key, live, r, c) && !w.Insert? && !w.DeleteBlob? && Target(w) == 1
    ensures ClaimingOk(key, live, r, c.(inflight := c.inflight + {w}))
  {
    match c.recon
    case Paged(x) => PageSent(key, r, c, w, x);
    case LookedInPartial(x, _) => PageSent(key, r, c, w, x);
    case Sighted(x, _) => PageSent(key, r, c, w, x);
    case Planned(x, _, _, _) => BoundedSent(key, r, c, w, x);
    case _ => ArmingSent(key, live, r, c, w);
  }

  lemma ArmingSent(key: Id, live: Id, r: Row, c: Cell, w: Write)
    requires ClaimingOk(key, live, r, c) && Target(w) == 1
    requires !c.recon.Paged? && !c.recon.LookedInPartial? && !c.recon.Sighted? && !c.recon.Planned?
    ensures ClaimingOk(key, live, r, c.(inflight := c.inflight + {w}))
  {
    match c.recon
    case Fenced(claim, _) => ClaimSent(key, live, r, c, w, claim);
    case ProofKept(claim) => ClaimSent(key, live, r, c, w, claim);
    case Armed(claim, _) => ClaimSent(key, live, r, c, w, claim);
    case _ =>
  }

  lemma PageSent(key: Id, r: Row, c: Cell, w: Write, x: Row)
    requires PageOk(key, r, c, x) && !w.DeleteBlob? && Target(w) == 1
    ensures PageOk(key, r, c.(inflight := c.inflight + {w}), x)
  {
    BoundedSent(key, r, c, w, x);
  }

  lemma ClaimSent(key: Id, live: Id, r: Row, c: Cell, w: Write, claim: Write)
    requires ClaimOk(key, live, r, c, claim) && Target(w) == 1
    ensures ClaimOk(key, live, r, c.(inflight := c.inflight + {w}), claim)
  {
    BoundedSent(key, r, c, w, claim.from);
  }

  lemma RemovingSent(live: Id, r: Row, c: Cell, w: Write)
    requires RemovingOk(live, r, c) && Target(w) == 1
    requires r.metadata.state == Deleting ==> 1 < r.metadata.generation
    ensures RemovingOk(live, r, c.(inflight := c.inflight + {w}))
  {
    var c' := c.(inflight := c.inflight + {w});
    assert forall g: int :: g >= 1 && Older(c, g) ==> Older(c', g);
  }

  // ----- deletion claims -----

  lemma ClaimApplies(key: Id, live: Id, r: Row, c: Cell, w: Write)
    requires RowInv(key, live, r, c)
    requires w in c.inflight && w.ClaimForDeletion? && w.from == r && LegalWrite(w)
    ensures RowInv(key, live, Written(w), c)
  {
    var r' := Written(w);
    assert WriteOk(key, live, r, c, w);
    WritesAfter(key, live, r, r', c);
    ClaimingAfter(key, live, r, r', c);
  }

  lemma ClaimAcked(key: Id, live: Id, r: Row, c: Cell)
    requires RowInv(key, live, r, c) && c.recon.Armed?
    requires c.recon.write.from == r && LegalWrite(c.recon.write)
    ensures RowInv(key, live, Written(c.recon.write), c.(recon := Claimed(Written(c.recon.write), c.recon.lease)))
  {
    var w := c.recon.write;
    var r' := Written(w);
    var c' := c.(recon := Claimed(r', c.recon.lease));
    WritesAfter(key, live, r, r', c);
    assert WritesOk(key, live, r', c') by {
      forall x | x in c'.inflight
        ensures WriteOk(key, live, r', c', x)
      {
        assert WriteOk(key, live, r', c, x);
      }
    }
  }

  lemma ClaimUnknown(key: Id, live: Id, r: Row, c: Cell)
    requires RowInv(key, live, r, c) && c.recon.Armed?
    ensures var c' := StopUnstarted(c, c.recon.lease).(recon := Idle);
            RowInv(key, live, r, c'.(inflight := c'.inflight + {c.recon.write}))
  {
    var c' := StopUnstarted(c, c.recon.lease).(recon := Idle);
    LeaseStops(key, live, r, c, c.recon.lease);
    assert JobsRun(c');
    SendWrite(key, live, r, c', c.recon.write);
  }

  // ----- completed deletions -----

  lemma DeleteApplies(key: Id, live: Id, r: Row, c: Cell, w: Write)
    requires RowInv(key, live, r, c)
    requires w in c.inflight && w.DeleteBlob? && w.from == r && LegalWrite(w)
    ensures RowInv(key, live, Written(w), c)
  {
    var r' := Written(w);
    assert WriteOk(key, live, r, c, w);
    WritesAfter(key, live, r, r', c);
    assert ClaimingOk(key, live, r', c);
  }

  lemma DeleteAcked(key: Id, live: Id, r: Row, c: Cell, w: Write)
    requires RowInv(key, live, r, c) && c.recon.Removed? && c.recon.row == r
    requires w.DeleteBlob? && w.from == r && LegalWrite(w)
    ensures RowInv(key, live, Written(w), c.(recon := Completed))
  {
    var r' := Written(w);
    var c' := c.(recon := Completed);
    WritesAfter(key, live, r, r', c);
    assert WritesOk(key, live, r', c') by {
      forall x | x in c'.inflight
        ensures WriteOk(key, live, r', c', x)
      {
        assert WriteOk(key, live, r', c, x);
      }
    }
  }

  lemma DeleteUnknown(key: Id, live: Id, r: Row, c: Cell, w: Write)
    requires RowInv(key, live, r, c) && c.recon.Removed?
    requires w.DeleteBlob? && w.from == c.recon.row && LegalWrite(w)
    ensures var c' := c.(recon := Idle);
            RowInv(key, live, r, c'.(inflight := c'.inflight + {w}))
  {
    var c' := c.(recon := Idle);
    RunEnds(key, live, r, c);
    SendWrite(key, live, r, c', w);
  }

  // ----- attachment -----

  lemma OwnerChanges(key: Id, live: Id, r: Row, r': Row, c: Cell)
    requires RowInv(key, live, r, c) && Advances(r, r')
    requires r'.process == r.process && r'.metadata.bytes == r.metadata.bytes
    requires (r.metadata.state == Staged && r'.metadata.state == Attached)
             || (r.metadata.state == Attached && r'.metadata.state == Unreferenced)
    ensures RowInv(key, live, r', c)
  {
    WritesAfter(key, live, r, r', c);
    ClaimingAfter(key, live, r, r', c);
  }

  // ----- crashes -----

  lemma CrashKeeps(key: Id, live: Id, row: Option<Row>, c: Cell, f: File)
    requires CellInv(key, live, row, c) && Survives(c.file, f)
    ensures CellInv(key, live + 1, row, Crashed(c, f))
  {
    if row.Some? {
      var c' := Crashed(c, f);
      forall w | w in c'.inflight
        ensures WriteOk(key, live + 1, row.value, c', w)
      {
        assert WriteOk(key, live, row.value, c, w);
      }
    }
  }
}
