/** What the blob lifecycle guarantees in every reachable state and over every run. */
module BlobTheorems {
  import opened Prelude
  import opened BlobState
  import opened BlobDatabase
  import opened BlobConservation
  import opened BlobInspect
  import opened BlobProtocol
  import opened BlobInvariant
  import opened BlobLocalSteps
  import opened BlobCommits
  import opened BlobSafety

  /** Every key of a reachable state satisfies the cell invariant. */
  lemma ReachableCell(s: Sys, k: Id)
    requires Reachable(s) && (k in s.cells || k in s.db.rows)
    ensures k in s.cells && CellInv(k, s.live, Lookup(s.db, k), s.cells[k])
  {
    ReachableInv(s);
    assert CellsOk(s);
    assert CellOk(s, k);
  }

  /** A row that may still be read has its finalized object, synced and of exactly the
      recorded length, a handle that names exactly that object, and nothing running on it. */
  lemma KeptObjectsAreIntact(s: Sys, k: Id)
    requires Reachable(s) && k in s.db.rows
    requires s.db.rows[k].metadata.state in {Staged, Attached, Unreferenced}
    ensures k in s.cells
    ensures s.cells[k].file == FinalFile(s.db.rows[k].metadata.bytes)
    ensures s.cells[k].jobs == map[]
    ensures var m := s.db.rows[k].metadata;
            m.digest.Some? && m.handle == Finalized(m.binding.slot, m.key, m.blob, m.bytes, m.digest.value)
  {
    ReachableCell(s, k);
    ReachableInv(s);
    assert Shape(s.db.rows[k].metadata);
  }

  /** An unlink only ever runs while its key's row is Deleting, at the generation the worker
      was started for, or already Deleted. */
  lemma UnlinksOnlyDoomedObjects(s: Sys, k: Id, i: nat)
    requires Reachable(s) && k in s.cells && i in s.cells[k].jobs && s.cells[k].jobs[i].RemoveJob?
    ensures k in s.db.rows
    ensures var m := s.db.rows[k].metadata;
            m.state == Deleted || (m.state == Deleting && GenIs(s.cells[k], i, m.generation))
  {
    ReachableCell(s, k);
  }

  /** Every Deleting row this process claimed has a registered witness at exactly its current
      generation, and that witness is stopped or someone who will stop it still holds it. */
  lemma EveryClaimIsWitnessed(s: Sys, k: Id)
    requires Reachable(s) && k in s.db.rows
    requires s.db.rows[k].metadata.state == Deleting && s.db.rows[k].process == s.live
    ensures k in s.cells
    ensures var c, g := s.cells[k], s.db.rows[k].metadata.generation;
            RegisteredAt(c, c.workers, g) || RegisteredAt(c, c.undispatched, g)
  {
    ReachableCell(s, k);
  }

  /** Reconciliation never finds a referenced object missing or damaged; a tombstone has no
      file left; and every file belongs to some row, so none is ever charged as unknown. */
  lemma ReconciliationNeedsNoOperator(s: Sys, k: Id)
    requires Reachable(s) && k in s.cells
    ensures !s.cells[k].quarantined
    ensures k in s.db.rows && s.db.rows[k].metadata.state == Deleted ==> s.cells[k].file == ABSENT
    ensures s.cells[k].file != ABSENT ==> k in s.db.rows
  {
    ReachableCell(s, k);
  }

  /** Conservation over every run: the store's and every subject's counters are the sums over
      the rows, and the live-stage ceilings are never exceeded. */
  lemma CountersAreSums(s: Sys)
    requires Reachable(s)
    ensures Conserved(s.db)
    ensures StagesBounded(s.db)
    ensures SlotsUnique(s.db)
    ensures forall k :: k in s.db.rows ==> Shape(s.db.rows[k].metadata)
  {
    ReachableInv(s);
  }

  // ----- histories -----

  /** `later` is the same row or a strictly newer version of it; a tombstone never changes. */
  predicate Evolves(before: Row, later: Row) {
    && before.metadata.generation <= later.metadata.generation
    && (before.metadata.generation == later.metadata.generation || before.metadata.state == Deleted ==> later == before)
    && later.metadata.key == before.metadata.key
    && later.metadata.binding == before.metadata.binding
    && later.created == before.created && later.metadata.expires == before.metadata.expires
  }

  predicate Lifetime(r: Row) {
    r.metadata.expires == r.created + STAGE_LIFETIME_MILLIS
  }

  predicate DbEvolves(before: Db, later: Db) {
    && (forall k :: k in before.rows ==> k in later.rows && Evolves(before.rows[k], later.rows[k]))
    && (forall k :: k in later.rows && k !in before.rows ==> Lifetime(later.rows[k]))
  }

  /** The one step that releases a charge. */
  predicate ReleasesOnly(before: Db, later: Db, k: Id) {
    && k in before.rows && k in later.rows
    && before.rows[k].metadata.state == Deleting
    && later.rows[k].metadata.state == Deleted
    && later.rows[k].metadata.generation == before.rows[k].metadata.generation + 1
    && later.store.objects == before.store.objects - 1
  }

  lemma WriteEvolves(s: Sys, w: Write, k: Id)
    requires Inv(s) && k in s.cells && WriteKey(w) == k && LegalWrite(w)
    requires !w.Insert? && k in s.db.rows ==> SnapOk(k, s.db.rows[k], w.from)
    requires ApplyWrite(s.db, w).Some?
    ensures var db := ApplyWrite(s.db, w).value;
            && DbEvolves(s.db, db)
            && (db.store.objects < s.db.store.objects ==> ReleasesOnly(s.db, db, k))
  {
    WriteLands(s, w, k);
    ObjectsAfter(s.db, w);
    if !w.Insert? {
      WrittenEvolves(w);
    }
    RowEvolves(s.db, ApplyWrite(s.db, w).value, k, Written(w));
  }

  lemma RowEvolves(before: Db, later: Db, k: Id, r: Row)
    requires later.rows == before.rows[k := r]
    requires if k in before.rows then Evolves(before.rows[k], r) else Lifetime(r)
    ensures DbEvolves(before, later)
  {
  }

  lemma WrittenEvolves(w: Write)
    requires LegalWrite(w) && !w.Insert?
    ensures Evolves(w.from, Written(w))
    ensures Charge(w).objects < 0 ==>
      && w.from.metadata.state == Deleting
      && Written(w).metadata.state == Deleted
      && Written(w).metadata.generation == w.from.metadata.generation + 1
      && Charge(w).objects == -1
  {
  }

  lemma ObjectsAfter(db: Db, w: Write)
    requires ApplyWrite(db, w).Some?
    ensures ApplyWrite(db, w).value.store.objects == db.store.objects + Charge(w).objects
  {
  }

  /** One step: rows only move forward, and the object count drops only when the latest claim
      on a Deleting row completes. */
  lemma StepEvolves(s: Sys, e: Event)
    requires Inv(s) && Next(s, e).Some?
    ensures DbEvolves(s.db, Next(s, e).value.db)
    ensures Next(s, e).value.db.store.objects < s.db.store.objects ==>
              !e.Crash? && ReleasesOnly(s.db, Next(s, e).value.db, e.key)
  {
    if e.CommitReserve? || e.Publish? || e.CommitClaim? || e.CommitDeleted? || e.LateCommit? {
      CommitEvolves(s, e);
    } else if e.AttachRow? || e.UnreferenceRow? {
      OwnerEvolves(s, e);
    }
  }

  lemma OwnerEvolves(s: Sys, e: Event)
    requires KeysMatch(s.db)
    requires (e.AttachRow? || e.UnreferenceRow?) && e.key in s.cells && OwnerEvent(s, e).Some?
    ensures DbEvolves(s.db, OwnerEvent(s, e).value.db)
    ensures OwnerEvent(s, e).value.db.store == s.db.store
  {
  }

  /** The write an event would commit. */
  function Sent(c: Cell, e: Event): Option<Write> {
    match e
    case CommitReserve(_, _) => if c.upload.Reserving? then Some(Insert(c.upload.row, c.upload.policy)) else None
    case Publish(_, now, _) =>
      if !c.upload.Finished? then None
      else
        var from := c.upload.row;
        var t := Stage(from.metadata, from.metadata.generation, c.upload.durable, now, from.metadata.binding);
        if t.Err? then None else Some(StageBlob(from, t.value.next, now))
    case CommitClaim(_, _) => if c.recon.Armed? then Some(c.recon.write) else None
    case CommitDeleted(_, now, _) =>
      if !c.recon.Removed? then None
      else
        var from := c.recon.row;
        var t := MarkDeleted(from.metadata, GcClaim(from.metadata.key, from.metadata.generation));
        if t.Err? then None else Some(DeleteBlob(from, t.value.next, now))
    case LateCommit(_, w) => Some(w)
    case _ => None
  }

  predicate Honest(s: Sys, k: Id, w: Write) {
    && WriteKey(w) == k && LegalWrite(w)
    && (!w.Insert? && k in s.db.rows ==> SnapOk(k, s.db.rows[k], w.from))
  }

  lemma ReservationIsHonest(s: Sys, e: Event)
    requires e.CommitReserve? && e.key in s.cells && CellOk(s, e.key) && RequestCommit(s, e).Some?
    ensures Sent(s.cells[e.key], e).Some? && Honest(s, e.key, Sent(s.cells[e.key], e).value)
  {
  }

  lemma PublicationIsHonest(s: Sys, e: Event)
    requires e.Publish? && e.key in s.cells && CellOk(s, e.key) && RequestCommit(s, e).Some?
    ensures Sent(s.cells[e.key], e).Some? && Honest(s, e.key, Sent(s.cells[e.key], e).value)
  {
  }

  lemma RequestSends(s: Sys, e: Event)
    requires CellsOk(s) && (e.CommitReserve? || e.Publish?) && e.key in s.cells && RequestCommit(s, e).Some?
    ensures Sent(s.cells[e.key], e).Some? && Honest(s, e.key, Sent(s.cells[e.key], e).value)
    ensures RequestCommit(s, e).value.db == s.db
            || ApplyWrite(s.db, Sent(s.cells[e.key], e).value) == Some(RequestCommit(s, e).value.db)
  {
    assert CellOk(s, e.key);
    if e.CommitReserve? {
      ReservationIsHonest(s, e);
    } else {
      PublicationIsHonest(s, e);
    }
  }

  lemma ReconSends(s: Sys, e: Event)
    requires CellsOk(s) && (e.CommitClaim? || e.CommitDeleted?) && e.key in s.cells && ReconCommit(s, e).Some?
    ensures Sent(s.cells[e.key], e).Some? && Honest(s, e.key, Sent(s.cells[e.key], e).value)
    ensures ReconCommit(s, e).value.db == s.db
            || ApplyWrite(s.db, Sent(s.cells[e.key], e).value) == Some(ReconCommit(s, e).value.db)
  {
    assert CellOk(s, e.key);
    if e.CommitClaim? {
      ClaimIsHonest(s, e);
    } else {
      DeletionIsHonest(s, e);
    }
  }

  lemma ClaimIsHonest(s: Sys, e: Event)
    requires e.CommitClaim? && e.key in s.cells && CellOk(s, e.key) && ReconCommit(s, e).Some?
    ensures Sent(s.cells[e.key], e).Some? && Honest(s, e.key, Sent(s.cells[e.key], e).value)
  {
  }

  lemma DeletionIsHonest(s: Sys, e: Event)
    requires e.CommitDeleted? && e.key in s.cells && CellOk(s, e.key) && ReconCommit(s, e).Some?
    ensures Sent(s.cells[e.key], e).Some? && Honest(s, e.key, Sent(s.cells[e.key], e).value)
  {
  }

  lemma LateSends(s: Sys, k: Id, w: Write)
    requires CellsOk(s) && k in s.cells && w in s.cells[k].inflight
    ensures Honest(s, k, w)
  {
    assert CellOk(s, k);
    if k in s.db.rows {
      assert WriteOk(k, s.live, s.db.rows[k], s.cells[k], w);
    }
  }

  lemma SameEvolves(db: Db)
    ensures DbEvolves(db, db)
  {
  }

  lemma CommitEvolves(s: Sys, e: Event)
    requires Inv(s) && Next(s, e).Some?
    requires e.CommitReserve? || e.Publish? || e.CommitClaim? || e.CommitDeleted? || e.LateCommit?
    ensures DbEvolves(s.db, Next(s, e).value.db)
    ensures Next(s, e).value.db.store.objects < s.db.store.objects ==> ReleasesOnly(s.db, Next(s, e).value.db, e.key)
  {
    CommitSends(s, e);
    var db := Next(s, e).value.db;
    if db == s.db {
      SameEvolves(db);
    } else {
      WriteEvolves(s, Sent(s.cells[e.key], e).value, e.key);
    }
  }

  lemma CommitSends(s: Sys, e: Event)
    requires CellsOk(s) && Next(s, e).Some?
    requires e.CommitReserve? || e.Publish? || e.CommitClaim? || e.CommitDeleted? || e.LateCommit?
    ensures e.key in s.cells && Sent(s.cells[e.key], e).Some? && Honest(s, e.key, Sent(s.cells[e.key], e).value)
    ensures Next(s, e).value.db == s.db || ApplyWrite(s.db, Sent(s.cells[e.key], e).value) == Some(Next(s, e).value.db)
  {
    if e.LateCommit? {
      LateSends(s, e.key, e.write);
    } else if e.CommitReserve? || e.Publish? {
      RequestSends(s, e);
    } else {
      ReconSends(s, e);
    }
  }

  /** Over a whole run: generations never go back, a generation names one version of a row,
      and a deleted row stays exactly as it was, so its charge is released at most once. */
  lemma {:induction false} RunEvolves(s: Sys, events: seq<Event>)
    requires Inv(s) && Run(s, events).Some?
    ensures DbEvolves(s.db, Run(s, events).value.db)
    decreases |events|
  {
    if events != [] {
      var next := Next(s, events[0]).value;
      StepEvolves(s, events[0]);
      NextKeepsInv(s, events[0]);
      RunEvolves(next, events[1..]);
      EvolutionComposes(s.db, next.db, Run(s, events).value.db);
    }
  }

  lemma EvolutionComposes(a: Db, b: Db, c: Db)
    requires DbEvolves(a, b) && DbEvolves(b, c)
    ensures DbEvolves(a, c)
  {
    forall k | k in a.rows
      ensures k in c.rows && Evolves(a.rows[k], c.rows[k])
    {
      assert Evolves(a.rows[k], b.rows[k]) && Evolves(b.rows[k], c.rows[k]);
    }
    forall k | k in c.rows && k !in a.rows
      ensures Lifetime(c.rows[k])
    {
      assert k in b.rows ==> Evolves(b.rows[k], c.rows[k]);
    }
  }

  /** Every row of a reachable state expires one stage lifetime after it was created. */
  lemma LifetimesAreFixed(s: Sys, k: Id)
    requires Reachable(s) && k in s.db.rows
    ensures Lifetime(s.db.rows[k])
  {
    var events :| Run(INITIAL, events) == Some(s);
    InitialInv();
    RunEvolves(INITIAL, events);
  }

  // ----- stop proofs -----

  /** No worker runs on the key, and neither the upload nor an acknowledged claim is about to start one. */
  predicate Halted(c: Cell) {
    Quiet(c) && !c.recon.Claimed?
  }

  predicate Busy(r: Row) {
    r.metadata.state == Uploading || r.metadata.state == Deleting
  }

  lemma ProofHalts(key: Id, live: Id, r: Row, c: Cell)
    requires RowInv(key, live, r, c) && Busy(r) && StoppedWitness(c, r.metadata.generation).Some?
    ensures Halted(c)
  {
  }

  lemma LocalStaysHalted(key: Id, live: Id, r: Row, c: Cell, e: Local)
    requires RowInv(key, live, r, c) && Busy(r) && Halted(c) && LocalNext(key, live, Some(r), c, e).Some?
    ensures Halted(LocalNext(key, live, Some(r), c, e).value)
  {
  }

  /** An acknowledged claim moves the row on. */
  lemma ClaimMoves(s: Sys, e: Event)
    requires Inv(s) && e.CommitClaim? && e.commit == Acknowledged && e.key in s.cells && e.key in s.db.rows
    requires ReconCommit(s, e).Some?
    ensures var db := ReconCommit(s, e).value.db;
            e.key in db.rows && db.rows[e.key].metadata.generation == s.db.rows[e.key].metadata.generation + 1
  {
    assert CellOk(s, e.key);
    ClaimIsHonest(s, e);
    WriteLands(s, s.cells[e.key].recon.write, e.key);
  }

  lemma RequestStaysHalted(s: Sys, e: Event)
    requires (e.CommitReserve? || e.Publish?) && e.key in s.cells && Halted(s.cells[e.key]) && RequestCommit(s, e).Some?
    ensures e.key in RequestCommit(s, e).value.cells && Halted(RequestCommit(s, e).value.cells[e.key])
  {
  }

  lemma ReconStaysHalted(s: Sys, e: Event)
    requires (e.CommitClaim? || e.CommitDeleted?) && e.key in s.cells && Halted(s.cells[e.key]) && ReconCommit(s, e).Some?
    requires e.CommitClaim? ==> e.commit == Unknown
    ensures e.key in ReconCommit(s, e).value.cells && Halted(ReconCommit(s, e).value.cells[e.key])
  {
  }

  lemma LateStaysHalted(s: Sys, k: Id, w: Write)
    requires k in s.cells && Halted(s.cells[k]) && LateEvent(s, k, w).Some?
    ensures k in LateEvent(s, k, w).value.cells && Halted(LateEvent(s, k, w).value.cells[k])
  {
  }

  lemma KeyStaysHalted(s: Sys, e: Event, k: Id)
    requires Inv(s) && k in s.db.rows && k in s.cells && Busy(s.db.rows[k]) && Halted(s.cells[k])
    requires !e.Crash? && e.key == k && Next(s, e).Some? && k in Next(s, e).value.db.rows
    requires Next(s, e).value.db.rows[k].metadata.generation == s.db.rows[k].metadata.generation
    ensures k in Next(s, e).value.cells && Halted(Next(s, e).value.cells[k])
  {
    match e
    case OnCell(_, local) =>
      assert CellOk(s, k);
      LocalStaysHalted(k, s.live, s.db.rows[k], s.cells[k], local);
    case CommitReserve(_, _) => RequestStaysHalted(s, e);
    case Publish(_, _, _) => RequestStaysHalted(s, e);
    case CommitClaim(_, commit) =>
      if commit == Acknowledged {
        ClaimMoves(s, e);
      } else {
        ReconStaysHalted(s, e);
      }
    case CommitDeleted(_, _, _) => ReconStaysHalted(s, e);
    case LateCommit(_, w) => LateStaysHalted(s, k, w);
    case _ =>
  }

  lemma OthersStay(s: Sys, e: Event, k: Id)
    requires k in s.cells && !e.Crash? && e.key != k && Next(s, e).Some?
    ensures k in Next(s, e).value.cells && Next(s, e).value.cells[k] == s.cells[k]
  {
  }

  lemma StepStaysHalted(s: Sys, e: Event, k: Id)
    requires Inv(s) && k in s.db.rows && k in s.cells && Busy(s.db.rows[k]) && Halted(s.cells[k])
    requires Next(s, e).Some? && k in Next(s, e).value.db.rows
    requires Next(s, e).value.db.rows[k].metadata.generation == s.db.rows[k].metadata.generation
    ensures k in Next(s, e).value.cells && Halted(Next(s, e).value.cells[k])
  {
    if !e.Crash? {
      if e.key == k {
        KeyStaysHalted(s, e, k);
      } else {
        OthersStay(s, e, k);
      }
    }
  }

  lemma {:induction false} RunStaysHalted(s: Sys, events: seq<Event>, k: Id)
    requires Inv(s) && k in s.db.rows && k in s.cells && Busy(s.db.rows[k]) && Halted(s.cells[k])
    requires Run(s, events).Some? && k in Run(s, events).value.db.rows
    requires Run(s, events).value.db.rows[k].metadata.generation == s.db.rows[k].metadata.generation
    ensures k in Run(s, events).value.cells && Halted(Run(s, events).value.cells[k])
    decreases |events|
  {
    if events != [] {
      var next := Next(s, events[0]).value;
      StepEvolves(s, events[0]);
      NextKeepsInv(s, events[0]);
      RunEvolves(next, events[1..]);
      assert Evolves(s.db.rows[k], next.db.rows[k]) && Evolves(next.db.rows[k], Run(next, events[1..]).value.db.rows[k]);
      StepStaysHalted(s, events[0], k);
      RunStaysHalted(next, events[1..], k);
    }
  }

  /** A stop proof is true and stays true: when the registries yield one for the row's generation,
      no worker is running on the key, and over every run that follows none runs there until the
      row itself has moved to another generation. */
  lemma StopProofsAreTrue(s: Sys, k: Id, events: seq<Event>)
    requires Reachable(s) && k in s.db.rows && k in s.cells && Busy(s.db.rows[k])
    requires StoppedWitness(s.cells[k], s.db.rows[k].metadata.generation).Some?
    requires Run(s, events).Some? && k in Run(s, events).value.db.rows
    requires Run(s, events).value.db.rows[k].metadata.generation == s.db.rows[k].metadata.generation
    ensures k in Run(s, events).value.cells && Run(s, events).value.cells[k].jobs == map[]
    ensures Halted(s.cells[k]) && Halted(Run(s, events).value.cells[k])
  {
    ReachableCell(s, k);
    ReachableInv(s);
    ProofHalts(k, s.live, s.db.rows[k], s.cells[k]);
    RunStaysHalted(s, events, k);
  }
}
