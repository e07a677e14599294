/** Reclamation: from every state the blob lifecycle can reach, reconciliation can finish what it
    exists for. */
module BlobProgress {
  import opened Prelude
  import BlobLabels
  import opened BlobState
  import opened BlobDatabase
  import opened BlobConservation
  import opened BlobInspect
  import opened BlobProtocol
  import opened BlobInvariant
  import opened BlobSafety
  import opened BlobTheorems

  // ----- runs on one key -----

  predicate OnKey(events: seq<Event>, k: Id) {
    forall i :: 0 <= i < |events| ==> !events[i].Crash? && events[i].key == k
  }

  /** `n` events on the key alone lead from one state to the other. */
  ghost predicate Leads(s: Sys, t: Sys, k: Id, n: nat) {
    exists events :: |events| == n && OnKey(events, k) && Run(s, events) == Some(t)
  }

  lemma {:induction false} RunExtends(s: Sys, events: seq<Event>, e: Event)
    requires Run(s, events).Some?
    ensures Run(s, events + [e]) == Next(Run(s, events).value, e)
    decreases |events|
  {
    var all := events + [e];
    if events == [] {
      assert all[1..] == [];
    } else {
      assert all[1..] == events[1..] + [e];
      RunExtends(Next(s, events[0]).value, events[1..], e);
    }
  }

  lemma Onward(s: Sys, t: Sys, k: Id, n: nat, e: Event, u: Sys)
    requires Leads(s, t, k, n) && !e.Crash? && e.key == k && Next(t, e) == Some(u)
    ensures Leads(s, u, k, n + 1)
  {
    var events :| |events| == n && OnKey(events, k) && Run(s, events) == Some(t);
    RunExtends(s, events, e);
    assert OnKey(events + [e], k);
  }

  lemma Locally(s: Sys, t: Sys, k: Id, n: nat, c: Cell, e: Local, c': Cell)
    requires k in t.cells && Leads(s, WithCell(t, k, c), k, n)
    requires LocalNext(k, t.live, Lookup(t.db, k), c, e) == Some(c')
    ensures Leads(s, WithCell(t, k, c'), k, n + 1)
  {
    assert WithCell(WithCell(t, k, c), k, c') == WithCell(t, k, c');
    Onward(s, WithCell(t, k, c), k, n, OnCell(k, e), WithCell(t, k, c'));
  }

  // ----- claiming -----

  /** Nobody is working on the key any more: the request is gone, reconciliation is between
      rows and every native worker has left. */
  predicate AtRest(c: Cell) {
    c.upload == NoUpload && c.recon == Idle && c.jobs == map[]
  }

  /** Rows whose object nobody can ask for any more. */
  predicate Doomed(r: Row, live: Id, now: int) {
    match r.metadata.state
    case Uploading => now >= r.metadata.expires || r.process != live
    case Staged => now >= r.metadata.expires
    case Attached => false
    case Unreferenced => true
    case Deleting => true
    case Deleted => false
  }

  /** Doomed rows, and uploads known to have failed or been given up. */
  predicate Reclaimable(k: Id, live: Id, r: Row, c: Cell, now: int) {
    || Doomed(r, live, now)
    || (r.metadata.state == Uploading
        && var proof := ProofOf(c, k, StoppedWitness(c, r.metadata.generation)); proof.Some? && proof.value.failedOrCancelled)
  }

  function Finding(k: Id, live: Id, r: Row, c: Cell, now: int): FindingKind {
    Classify(r, live, Sighting(c.file.partial, c.file.finalized), ProofOf(c, k, StoppedWitness(c, r.metadata.generation)), now)
  }

  /** At rest, a reclaimable row is always classified for a claim, and the claim's own conditions hold
      unless the generation counter is exhausted; what may still be read or written is retained. */
  lemma DoomedIsClaimable(k: Id, live: Id, r: Row, c: Cell, now: int)
    requires RowInv(k, live, r, c) && AtRest(c)
    ensures Finding(k, live, r, c, now).Claims() <==> Reclaimable(k, live, r, c, now)
    ensures Reclaimable(k, live, r, c, now) ==>
      var proof := ProofOf(c, k, StoppedWitness(c, r.metadata.generation));
      ClaimFor(r, Finding(k, live, r, c, now), live, now, proof) == Candidate(r.metadata, r.metadata.generation, Deleting, NO_CHARGE)
    ensures !Reclaimable(k, live, r, c, now) ==>
      Finding(k, live, r, c, now) ==
        match r.metadata.state
        case Uploading => RetainActiveOrUncertainUpload
        case Deleted => RetainTombstone
        case _ => RetainKnown
  {
    if Busy(r) && r.process == live {
      assert StoppedWitness(c, r.metadata.generation).Some?;
    }
  }

  /** The write that claims a row. */
  function ClaimOf(r: Row, live: Id, now: int): Write {
    ClaimForDeletion(r, r.metadata.(state := Deleting, generation := r.metadata.generation + 1), live, now)
  }

  function KeptProof(c: Cell, slot: Option<nat>): Cell {
    c.(workers := if slot.Some? then slot else c.workers)
  }

  function ArmedCell(c: Cell, w: Write, slot: Option<nat>): Cell
    requires w.ClaimForDeletion?
  {
    Spawn(KeptProof(c, slot), PendingWitness(w.next.generation)).(
      undispatched := Some(|c.witnesses|), recon := Armed(w, |c.witnesses|))
  }

  /** What reconciliation needs of a key to start on it. */
  predicate Startable(s: Sys, k: Id, now: int) {
    && k in s.cells && k in s.db.rows
    && var r, c := s.db.rows[k], s.cells[k];
       RowInv(k, s.live, r, c) && AtRest(c) && Reclaimable(k, s.live, r, c, now) && r.claimed <= now
  }

  lemma Stay(s: Sys, k: Id)
    requires k in s.cells
    ensures Leads(s, WithCell(s, k, s.cells[k]), k, 0)
  {
    assert Run(s, []) == Some(s) && WithCell(s, k, s.cells[k]) == s;
    assert OnKey([], k);
  }

  lemma Looking(s: Sys, k: Id)
    requires k in s.cells && k in s.db.rows && s.cells[k].recon == Idle
    ensures var c := s.cells[k];
            Leads(s, WithCell(s, k, c.(recon := Sighted(s.db.rows[k], Sighting(c.file.partial, c.file.finalized)))), k, 3)
  {
    var r, c := s.db.rows[k], s.cells[k];
    Stay(s, k);
    Locally(s, s, k, 0, c, ReadPage, c.(recon := Paged(r)));
    Locally(s, s, k, 1, c.(recon := Paged(r)), LookInPartial, c.(recon := LookedInPartial(r, c.file.partial)));
    Locally(s, s, k, 2, c.(recon := LookedInPartial(r, c.file.partial)), LookInObjects,
            c.(recon := Sighted(r, Sighting(c.file.partial, c.file.finalized))));
  }

  lemma InspectPlans(k: Id, live: Id, r: Row, c: Cell, now: int)
    requires RowInv(k, live, r, c) && AtRest(c) && Reclaimable(k, live, r, c, now) && r.claimed <= now
    ensures var slot := StoppedWitness(c, r.metadata.generation);
            LocalNext(k, live, Some(r), c.(recon := Sighted(r, Sighting(c.file.partial, c.file.finalized))), Inspect(now))
            == Some(c.(recon := Planned(r, slot, Finding(k, live, r, c, now), now)))
  {
    DoomedIsClaimable(k, live, r, c, now);
  }

  lemma FenceBuilds(k: Id, live: Id, r: Row, c: Cell, now: int)
    requires RowInv(k, live, r, c) && AtRest(c) && Reclaimable(k, live, r, c, now) && r.metadata.generation < I64_MAX
    ensures var slot := StoppedWitness(c, r.metadata.generation);
            LocalNext(k, live, Some(r), c.(recon := Planned(r, slot, Finding(k, live, r, c, now), now)), FenceClaim)
            == Some(c.(recon := Fenced(ClaimOf(r, live, now), slot)))
  {
    DoomedIsClaimable(k, live, r, c, now);
  }

  lemma Fencing(s: Sys, k: Id, now: int)
    requires Startable(s, k, now) && s.db.rows[k].metadata.generation < I64_MAX
    ensures var r, c := s.db.rows[k], s.cells[k];
            Leads(s, WithCell(s, k, c.(recon := Fenced(ClaimOf(r, s.live, now), StoppedWitness(c, r.metadata.generation)))), k, 5)
  {
    var r, c := s.db.rows[k], s.cells[k];
    var slot := StoppedWitness(c, r.metadata.generation);
    var planned := c.(recon := Planned(r, slot, Finding(k, s.live, r, c, now), now));
    Looking(s, k);
    InspectPlans(k, s.live, r, c, now);
    Locally(s, s, k, 3, c.(recon := Sighted(r, Sighting(c.file.partial, c.file.finalized))), Inspect(now), planned);
    FenceBuilds(k, s.live, r, c, now);
    Locally(s, s, k, 4, planned, FenceClaim, c.(recon := Fenced(ClaimOf(r, s.live, now), slot)));
  }

  lemma Arming(s: Sys, k: Id, now: int)
    requires Startable(s, k, now) && s.db.rows[k].metadata.generation < I64_MAX
    ensures var r, c := s.db.rows[k], s.cells[k];
            Leads(s, WithCell(s, k, ArmedCell(c, ClaimOf(r, s.live, now), StoppedWitness(c, r.metadata.generation))), k, 7)
  {
    var r, c := s.db.rows[k], s.cells[k];
    var slot, w := StoppedWitness(c, r.metadata.generation), ClaimOf(r, s.live, now);
    Fencing(s, k, now);
    Locally(s, s, k, 5, c.(recon := Fenced(w, slot)), KeepProof, KeptProof(c, slot).(recon := ProofKept(w)));
    Locally(s, s, k, 6, KeptProof(c, slot).(recon := ProofKept(w)), ArmDeletion, ArmedCell(c, w, slot));
  }

  // ----- removing -----

  /** The claim was acknowledged and its lease is witness `l`, the last one. */
  predicate Ready(s: Sys, k: Id, l: nat) {
    && k in s.cells && k in s.db.rows
    && var c := s.cells[k];
       c.recon == BlobProtocol.Claimed(s.db.rows[k], l) && |c.witnesses| == l + 1 && c.jobs == map[] && c.upload == NoUpload
  }

  function StartedCell(c: Cell, r: Row, l: nat): Cell {
    Spawn(c, PendingWitness(r.metadata.generation)).(
      jobs := map[l + 1 := RemoveJob(UnlinkPartial)], workers := Some(l + 1), undispatched := None, recon := Removing(r, l + 1))
  }

  function RecordedCell(c: Cell, r: Row, l: nat): Cell {
    Spawn(c, PendingWitness(r.metadata.generation)).(
      jobs := map[l + 1 := RemoveJob(UnlinkPartial)], workers := Some(l + 1), recon := RemoveRecorded(r, l, l + 1))
  }

  lemma Recording(s: Sys, k: Id, l: nat)
    requires Ready(s, k, l)
    ensures Leads(s, WithCell(s, k, RecordedCell(s.cells[k], s.db.rows[k], l)), k, 2)
  {
    var r, c, j := s.db.rows[k], s.cells[k], l + 1;
    var started := Spawn(c, PendingWitness(r.metadata.generation)).(
                   jobs := c.jobs[j := RemoveJob(UnlinkPartial)], recon := RemoveStarted(r, l, j));
    assert started.jobs == map[j := RemoveJob(UnlinkPartial)];
    Stay(s, k);
    Locally(s, s, k, 0, c, StartRemove, started);
    Locally(s, s, k, 1, started, RecordRemove, RecordedCell(c, r, l));
  }

  lemma Starting(s: Sys, k: Id, l: nat)
    requires Ready(s, k, l)
    ensures Leads(s, WithCell(s, k, StartedCell(s.cells[k], s.db.rows[k], l)), k, 4)
  {
    var r, c := s.db.rows[k], s.cells[k];
    var recorded := RecordedCell(c, r, l);
    var disarmed := recorded.(undispatched := None, recon := RemoveDisarmed(r, l, l + 1));
    Recording(s, k, l);
    Locally(s, s, k, 2, recorded, DisarmClaim, disarmed);
    Locally(s, s, k, 3, disarmed, DispatchRemove, StartedCell(c, r, l));
  }

  function WorkingCell(c: Cell, r: Row, l: nat, f: File, step: RemoveStep): Cell {
    StartedCell(c, r, l).(file := f, jobs := map[l + 1 := RemoveJob(step)])
  }

  lemma Working(s: Sys, k: Id, l: nat, n: nat, f: File, step: RemoveStep, f': File, step': RemoveStep)
    requires Ready(s, k, l) && RemoveStepped(f, step) == Some((f', step'))
    requires Leads(s, WithCell(s, k, WorkingCell(s.cells[k], s.db.rows[k], l, f, step)), k, n)
    ensures Leads(s, WithCell(s, k, WorkingCell(s.cells[k], s.db.rows[k], l, f', step')), k, n + 1)
  {
    var c := WorkingCell(s.cells[k], s.db.rows[k], l, f, step);
    assert c.jobs[l + 1 := RemoveJob(step')] == map[l + 1 := RemoveJob(step')];
    Locally(s, s, k, n, c, RemoveIo(l + 1), WorkingCell(s.cells[k], s.db.rows[k], l, f', step'));
  }

  function RemovedCell(c: Cell, r: Row, l: nat): Cell
    requires |c.witnesses| == l + 1
  {
    StopJob(WorkingCell(c, r, l, ABSENT, Cleared), l + 1, true).(recon := Removed(r))
  }

  /** Four file operations clear both directories, whatever was in them. */
  lemma Clearing(s: Sys, k: Id, l: nat)
    requires Ready(s, k, l)
    ensures Leads(s, WithCell(s, k, WorkingCell(s.cells[k], s.db.rows[k], l, ABSENT, Cleared)), k, 8)
  {
    var r, c := s.db.rows[k], s.cells[k];
    Starting(s, k, l);
    assert WorkingCell(c, r, l, c.file, UnlinkPartial) == StartedCell(c, r, l);
    var f1 := if c.file.partial.None? then c.file else File(None, c.file.finalized, false);
    var f2 := if f1.finalized.None? then f1 else File(None, None, false);
    Working(s, k, l, 4, c.file, UnlinkPartial, f1, SyncPartial);
    Working(s, k, l, 5, f1, SyncPartial, f1, UnlinkFinal);
    Working(s, k, l, 6, f1, UnlinkFinal, f2, SyncFinal);
    Working(s, k, l, 7, f2, SyncFinal, ABSENT, Cleared);
  }

  lemma Removal(s: Sys, k: Id, l: nat)
    requires Ready(s, k, l)
    ensures Leads(s, WithCell(s, k, RemovedCell(s.cells[k], s.db.rows[k], l)), k, 9)
  {
    var r, c := s.db.rows[k], s.cells[k];
    Clearing(s, k, l);
    Locally(s, s, k, 8, WorkingCell(c, r, l, ABSENT, Cleared), WorkerFinishes(l + 1, ZEROS), RemovedCell(c, r, l));
  }

  /** Removal workers carry no digest. */
  const ZEROS: BlobLabels.Digest := seq(32, i => 0)

  // ----- from rest to tombstone -----

  lemma {:induction false} RunConcat(s: Sys, a: seq<Event>, b: seq<Event>)
    requires Run(s, a).Some?
    ensures Run(s, a + b) == Run(Run(s, a).value, b)
    decreases |a|
  {
    if a == [] {
      assert a + b == b;
    } else {
      assert (a + b)[1..] == a[1..] + b;
      RunConcat(Next(s, a[0]).value, a[1..], b);
    }
  }

  lemma Through(s: Sys, t: Sys, u: Sys, k: Id, m: nat, n: nat)
    requires Leads(s, t, k, m) && Leads(t, u, k, n)
    ensures Leads(s, u, k, m + n)
  {
    var a :| |a| == m && OnKey(a, k) && Run(s, a) == Some(t);
    var b :| |b| == n && OnKey(b, k) && Run(t, b) == Some(u);
    RunConcat(s, a, b);
    assert OnKey(a + b, k);
  }

  function ClaimedSys(s: Sys, k: Id, now: int): Sys
    requires k in s.cells && k in s.db.rows
  {
    var r, c := s.db.rows[k], s.cells[k];
    var w := ClaimOf(r, s.live, now);
    var armed := ArmedCell(c, w, StoppedWitness(c, r.metadata.generation));
    WithCell(s, k, armed.(recon := BlobProtocol.Claimed(Written(w), |c.witnesses|))).(
      db := s.db.(rows := s.db.rows[k := Written(w)]))
  }

  /** The claim finds its row as it was read. */
  lemma ClaimApplies(db: Db, k: Id, live: Id, now: int)
    requires k in db.rows && db.rows[k].metadata.key == k
    ensures var w := ClaimOf(db.rows[k], live, now);
            ApplyWrite(db, w) == Some(db.(rows := db.rows[k := Written(w)]))
  {
  }

  lemma Claiming(s: Sys, k: Id, now: int)
    requires Startable(s, k, now) && s.db.rows[k].metadata.generation < I64_MAX
    ensures Leads(s, ClaimedSys(s, k, now), k, 8)
    ensures Ready(ClaimedSys(s, k, now), k, |s.cells[k].witnesses|)
  {
    var r, c := s.db.rows[k], s.cells[k];
    var w := ClaimOf(r, s.live, now);
    var armed := ArmedCell(c, w, StoppedWitness(c, r.metadata.generation));
    Arming(s, k, now);
    ClaimApplies(s.db, k, s.live, now);
    var t, u := WithCell(s, k, armed), ClaimedSys(s, k, now);
    assert u.cells == t.cells[k := u.cells[k]];
    assert ReconCommit(t, CommitClaim(k, Acknowledged)) == Some(u);
    Onward(s, t, k, 7, CommitClaim(k, Acknowledged), u);
  }

  /** The row is a tombstone without a file, its charge is released, and nothing else has moved. */
  predicate Reclaimed(s: Sys, t: Sys, k: Id)
    requires k in s.db.rows
  {
    && k in t.db.rows && k in t.cells
    && t.db.rows[k].metadata.state == Deleted && t.cells[k].file == ABSENT && AtRest(t.cells[k])
    && t.db.rows == s.db.rows[k := t.db.rows[k]]
    && t.cells == s.cells[k := t.cells[k]]
    && Charges(s.db, t.db, s.db.rows[k].metadata)
  }

  predicate Charges(before: Db, later: Db, m: Metadata) {
    && later.store.reserved == before.store.reserved - m.reserved
    && later.store.used == before.store.used - m.bytes
    && later.store.objects == before.store.objects - 1
  }

  function DeletionOf(r: Row, now: int): Write {
    DeleteBlob(r, r.metadata.(state := Deleted, generation := r.metadata.generation + 1, reserved := 0, bytes := 0), now)
  }

  /** The release is accepted, because the counters cover every row. */
  lemma DeletionApplies(db: Db, k: Id, now: int)
    requires DbInv(db) && k in db.rows && db.rows[k].metadata.state == Deleting
    requires db.rows[k].metadata.generation < I64_MAX && db.store.serial < I64_MAX
    ensures var w := DeletionOf(db.rows[k], now);
            && MarkDeleted(w.from.metadata, GcClaim(k, w.from.metadata.generation)).Ok?
            && MarkDeleted(w.from.metadata, GcClaim(k, w.from.metadata.generation)).value.next == w.next
            && ApplyWrite(db, w).Some?
            && ApplyWrite(db, w).value.rows == db.rows[k := Written(w)]
            && Charges(db, ApplyWrite(db, w).value, db.rows[k].metadata)
  {
    var w := DeletionOf(db.rows[k], now);
    ReleaseIsNeverRefused(db, w.from, w.next, now);
    WritesOneRow(db, w);
  }

  /** The object is gone and its row still Deleting: all that is left is to say so. */
  ghost predicate Completable(s: Sys, k: Id) {
    && k in s.cells && k in s.db.rows && DbInv(s.db)
    && s.cells[k].recon == Removed(s.db.rows[k]) && s.cells[k].file == ABSENT
    && s.cells[k].upload == NoUpload && s.cells[k].jobs == map[]
    && s.db.rows[k].metadata.state == Deleting && s.db.rows[k].metadata.generation < I64_MAX
    && s.db.store.serial < I64_MAX
  }

  ghost function CompletedSys(s: Sys, k: Id, db: Db): Sys
    requires k in s.cells
  {
    WithCell(s, k, s.cells[k].(recon := Completed)).(db := db)
  }

  lemma Marking(s: Sys, k: Id, now: int, db: Db)
    requires Completable(s, k) && ApplyWrite(s.db, DeletionOf(s.db.rows[k], now)) == Some(db)
    ensures Leads(s, CompletedSys(s, k, db), k, 1)
  {
    DeletionApplies(s.db, k, now);
    Stay(s, k);
    assert WithCell(s, k, s.cells[k]) == s;
    assert ReconCommit(s, CommitDeleted(k, now, Acknowledged)) == Some(CompletedSys(s, k, db));
    Onward(s, s, k, 0, CommitDeleted(k, now, Acknowledged), CompletedSys(s, k, db));
  }

  ghost function TombstoneSys(s: Sys, k: Id, db: Db): Sys
    requires k in s.cells
  {
    WithCell(CompletedSys(s, k, db), k, s.cells[k].(workers := None, recon := Idle))
  }

  lemma Forgetting(s: Sys, k: Id, db: Db)
    requires k in s.cells && Leads(s, CompletedSys(s, k, db), k, 1)
    ensures Leads(s, TombstoneSys(s, k, db), k, 2)
  {
    var t := CompletedSys(s, k, db);
    assert WithCell(t, k, t.cells[k]) == t;
    Locally(s, t, k, 1, t.cells[k], ForgetWorker, s.cells[k].(workers := None, recon := Idle));
  }

  lemma Completing(s: Sys, k: Id, now: int) returns (t: Sys)
    requires Completable(s, k)
    ensures Leads(s, t, k, 2) && Reclaimed(s, t, k)
  {
    DeletionApplies(s.db, k, now);
    var db := ApplyWrite(s.db, DeletionOf(s.db.rows[k], now)).value;
    Marking(s, k, now, db);
    Forgetting(s, k, db);
    ForgottenIsReclaimed(s, k, Written(DeletionOf(s.db.rows[k], now)), db);
    t := TombstoneSys(s, k, db);
  }

  lemma ForgottenIsReclaimed(s: Sys, k: Id, r: Row, db: Db)
    requires Completable(s, k) && r.metadata.state == Deleted
    requires db.rows == s.db.rows[k := r] && Charges(s.db, db, s.db.rows[k].metadata)
    ensures Reclaimed(s, TombstoneSys(s, k, db), k)
  {
  }

  function RemovedSys(s: Sys, k: Id, l: nat): Sys
    requires Ready(s, k, l)
  {
    WithCell(s, k, RemovedCell(s.cells[k], s.db.rows[k], l))
  }

  /** Claimed and removed, the key can be completed; the claim itself has charged nothing. */
  lemma ClaimedCompletes(s: Sys, k: Id, now: int)
    requires Startable(s, k, now) && DbInv(s.db)
    requires s.db.rows[k].metadata.generation + 1 < I64_MAX && s.db.store.serial < I64_MAX
    requires Ready(ClaimedSys(s, k, now), k, |s.cells[k].witnesses|)
    ensures Completable(RemovedSys(ClaimedSys(s, k, now), k, |s.cells[k].witnesses|), k)
  {
    var w := ClaimOf(s.db.rows[k], s.live, now);
    ClaimApplies(s.db, k, s.live, now);
    WriteKeepsDb(s.db, w);
    var c := RemovedCell(ClaimedSys(s, k, now).cells[k], Written(w), |s.cells[k].witnesses|);
    assert c.jobs == map[];
  }

  lemma ReclaimedBefore(s: Sys, k: Id, now: int, l: nat, t: Sys)
    requires k in s.cells && k in s.db.rows && Ready(ClaimedSys(s, k, now), k, l)
    requires Reclaimed(RemovedSys(ClaimedSys(s, k, now), k, l), t, k)
    ensures Reclaimed(s, t, k)
  {
  }

  lemma ClaimAndRemove(s: Sys, k: Id, now: int)
    requires Startable(s, k, now) && s.db.rows[k].metadata.generation < I64_MAX
    ensures Ready(ClaimedSys(s, k, now), k, |s.cells[k].witnesses|)
    ensures Leads(s, RemovedSys(ClaimedSys(s, k, now), k, |s.cells[k].witnesses|), k, 17)
  {
    var u, l := ClaimedSys(s, k, now), |s.cells[k].witnesses|;
    Claiming(s, k, now);
    Removal(u, k, l);
    Through(s, u, RemovedSys(u, k, l), k, 8, 9);
  }

  lemma DoomedReachesTombstone(s: Sys, k: Id, now: int)
    requires Startable(s, k, now) && DbInv(s.db)
    requires s.db.rows[k].metadata.generation + 1 < I64_MAX && s.db.store.serial < I64_MAX
    ensures exists t :: Leads(s, t, k, 19) && Reclaimed(s, t, k)
  {
    var l := |s.cells[k].witnesses|;
    ClaimAndRemove(s, k, now);
    var v := RemovedSys(ClaimedSys(s, k, now), k, l);
    ClaimedCompletes(s, k, now);
    var t := Completing(v, k, now);
    Through(s, v, t, k, 17, 2);
    ReclaimedBefore(s, k, now, l, t);
  }

  /** No row is stranded. In every reachable state, a reclaimable row nobody is working on is nineteen
      steps on its own key away from its tombstone: the object unlinked, the charge released, every
      other row and key as it was. Nothing but an exhausted generation or serial counter, or a
      clock behind the row's last claim, is in the way. */
  lemma NothingIsStranded(s: Sys, k: Id, now: int)
    requires Reachable(s) && k in s.db.rows && k in s.cells && AtRest(s.cells[k])
    requires Reclaimable(k, s.live, s.db.rows[k], s.cells[k], now) && s.db.rows[k].claimed <= now
    requires s.db.rows[k].metadata.generation + 1 < I64_MAX && s.db.store.serial < I64_MAX
    ensures exists t :: Leads(s, t, k, 19) && Reclaimed(s, t, k)
  {
    ReachableInv(s);
    ReachableCell(s, k);
    DoomedReachesTombstone(s, k, now);
  }

  /** Nor does any crash strand one: whatever was under way and whatever directory entries come
      back, the next process can reclaim every doomed row in the same nineteen steps. */
  lemma RestartReclaims(s: Sys, files: map<Id, File>, k: Id, now: int)
    requires Reachable(s) && k in s.db.rows && CrashEvent(s, files).Some?
    requires Doomed(s.db.rows[k], s.live + 1, now) && s.db.rows[k].claimed <= now
    requires s.db.rows[k].metadata.generation + 1 < I64_MAX && s.db.store.serial < I64_MAX
    ensures var u := CrashEvent(s, files).value;
            u.db == s.db && exists t :: Leads(u, t, k, 19) && Reclaimed(u, t, k)
  {
    ReachableInv(s);
    var u := CrashEvent(s, files).value;
    CrashKeepsCells(s, files);
    assert CellOk(u, k);
    DoomedReachesTombstone(u, k, now);
  }

  // ----- what is left behind -----

  /** A stop proof tells how its worker ended: a failed one's always says so, a finished one's only if
      it had been cancelled. */
  lemma ProofsTellTheOutcome(k: Id, c: Cell, i: nat, e: Local)
    requires (e.WorkerFails? || e.WorkerFinishes?) && e.worker == i && WorkerNext(k, c, e).Some?
    ensures var after := WorkerNext(k, c, e).value;
            && IsWitness(c, i) && IsWitness(after, i) && ProofOf(after, k, Some(i)).Some?
            && (ProofOf(after, k, Some(i)).value.failedOrCancelled <==> e.WorkerFails? || c.witnesses[i].cancelled)
  {
  }

  /** A tombstone that is looked at once more leaves nothing in the process's registries. */
  lemma TombstonesAreForgotten(s: Sys, k: Id, now: int)
    requires Reachable(s) && k in s.db.rows && k in s.cells && AtRest(s.cells[k])
    requires s.db.rows[k].metadata.state == Deleted && s.db.rows[k].claimed <= now
    ensures Leads(s, WithCell(s, k, s.cells[k].(workers := None, undispatched := None)), k, 4)
  {
    ReachableInv(s);
    ReachableCell(s, k);
    var r, c := s.db.rows[k], s.cells[k];
    Looking(s, k);
    TombstoneRetained(k, s.live, r, c, now);
    assert c.(workers := None, undispatched := None) == c.(workers := None, undispatched := None, recon := Idle);
    Locally(s, s, k, 3, c.(recon := Sighted(r, Sighting(c.file.partial, c.file.finalized))), Inspect(now),
            c.(workers := None, undispatched := None));
  }

  lemma TombstoneRetained(k: Id, live: Id, r: Row, c: Cell, now: int)
    requires RowInv(k, live, r, c) && AtRest(c) && r.metadata.state == Deleted && r.claimed <= now
    ensures LocalNext(k, live, Some(r), c.(recon := Sighted(r, Sighting(c.file.partial, c.file.finalized))), Inspect(now))
            == Some(c.(workers := None, undispatched := None, recon := Idle))
  {
    DoomedIsClaimable(k, live, r, c, now);
  }

  function Registered(s: Sys): set<Id> {
    set j | j in s.cells && s.cells[j].workers.Some?
  }

  /** A reservation never takes the registry of witnesses beyond the object limit it was made under. */
  lemma RegistryIsBounded(s: Sys, k: Id, row: Row, p: Policy)
    requires ReserveEvent(s, k, row, p).Some?
    ensures |Registered(ReserveEvent(s, k, row, p).value)| <= p.limits.objects
  {
    var t := ReserveEvent(s, k, row, p).value;
    assert Registered(s) == set j | j in s.cells && s.cells[j].workers.Some?;
    assert Registered(t) == Registered(s) + {k};
  }
}
