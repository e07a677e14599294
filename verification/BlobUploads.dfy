/** Uploading: from every reachable state an admitted reservation can become a staged object of any
    length within it, then an attached one, and in the end a tombstone that leaves no charge. */
module BlobUploads {
  import opened Prelude
  import opened BlobLabels
  import opened BlobState
  import opened BlobDatabase
  import opened BlobConservation
  import opened BlobProtocol
  import opened BlobInvariant
  import opened BlobSafety
  import opened BlobTheorems
  import opened BlobProgress

  // ----- reserving -----

  /** A reservation under a key of its own that the runtime starts and the statements accept. */
  ghost predicate Reservable(s: Sys, row: Row, p: Policy) {
    && ReserveEvent(s, row.metadata.key, row, p).Some?
    && ApplyWrite(s.db, Insert(row, p)).Some?
  }

  function ReservedCell(row: Row, p: Policy): Cell {
    Cell(ABSENT, [PendingWitness(1)], Some(0), None, map[], Reserving(row, p, 0), Idle, {}, false)
  }

  function GrantedCell(row: Row): Cell {
    Cell(ABSENT, [PendingWitness(1)], Some(0), None, map[], Granted(row, 0), Idle, {}, false)
  }

  /** The reservation's row, charge and witness are in place. */
  ghost function GrantedSys(s: Sys, row: Row, p: Policy): Sys
    requires ApplyWrite(s.db, Insert(row, p)).Some?
  {
    WithCell(s, row.metadata.key, GrantedCell(row)).(db := ApplyWrite(s.db, Insert(row, p)).value)
  }

  lemma Nowhere(s: Sys, k: Id)
    ensures Leads(s, s, k, 0)
  {
    assert Run(s, []) == Some(s);
    assert OnKey([], k);
  }

  lemma ReservationLeads(s: Sys, row: Row, p: Policy)
    requires Reservable(s, row, p)
    ensures Leads(s, GrantedSys(s, row, p), row.metadata.key, 2)
  {
    var k := row.metadata.key;
    var t, u := WithCell(s, k, ReservedCell(row, p)), GrantedSys(s, row, p);
    Nowhere(s, k);
    Onward(s, s, k, 0, Reserve(k, row, p), t);
    assert u.cells == t.cells[k := GrantedCell(row)];
    assert RequestCommit(t, CommitReserve(k, Acknowledged)) == Some(u);
    Onward(s, t, k, 1, CommitReserve(k, Acknowledged), u);
  }

  /** The reservation keeps the database sound and holds its own row. */
  lemma GrantedDb(s: Sys, row: Row, p: Policy)
    requires DbInv(s.db) && Reservable(s, row, p)
    ensures var db := GrantedSys(s, row, p).db;
            && DbInv(db) && db.rows == s.db.rows[row.metadata.key := row] && row.metadata.key !in s.db.rows
            && db.store.reserved + db.store.used <= I64_MAX && db.store.serial == s.db.store.serial + 1
            && db.store.reserved == s.db.store.reserved + row.metadata.reserved
            && db.store.used == s.db.store.used && db.store.objects == s.db.store.objects + 1
  {
    WriteKeepsDb(s.db, Insert(row, p));
  }

  // ----- writing the file -----

  /** The worker writes while its request listens. */
  function StreamCell(row: Row, f: File, step: UploadStep): Cell {
    Cell(f, [PendingWitness(1), PendingWitness(1)], Some(1), None, map[1 := UploadJob(row.metadata.reserved, step)],
         Streaming(row, 1), Idle, {}, false)
  }

  lemma Dispatching(t: Sys, row: Row)
    requires row.metadata.key in t.cells && t.cells[row.metadata.key] == GrantedCell(row) && row.metadata.generation == 1
    ensures Leads(t, WithCell(t, row.metadata.key, StreamCell(row, ABSENT, Opening)), row.metadata.key, 3)
  {
    var k, c := row.metadata.key, GrantedCell(row);
    var jobs := map[1 := UploadJob(row.metadata.reserved, Opening)];
    var started := c.(witnesses := [PendingWitness(1), PendingWitness(1)], jobs := jobs, upload := UploadStarted(row, 0, 1));
    var recorded := started.(workers := Some(1), upload := UploadRecorded(row, 0, 1));
    Stay(t, k);
    assert c.jobs[1 := UploadJob(row.metadata.reserved, Opening)] == jobs;
    assert c.witnesses + [PendingWitness(1)] == started.witnesses;
    Locally(t, t, k, 0, c, StartUpload, started);
    Locally(t, t, k, 1, started, RecordUpload, recorded);
    Locally(t, t, k, 2, recorded, DispatchUpload, StreamCell(row, ABSENT, Opening));
  }

  lemma Stepping(t: Sys, row: Row, n: nat, f: File, step: UploadStep, count: nat, f': File, step': UploadStep)
    requires row.metadata.key in t.cells
    requires Leads(t, WithCell(t, row.metadata.key, StreamCell(row, f, step)), row.metadata.key, n)
    requires UploadStepped(f, UploadJob(row.metadata.reserved, step), count) == Some((f', step'))
    ensures Leads(t, WithCell(t, row.metadata.key, StreamCell(row, f', step')), row.metadata.key, n + 1)
  {
    var c := StreamCell(row, f, step);
    assert c.jobs[1 := UploadJob(row.metadata.reserved, step')] == StreamCell(row, f', step').jobs;
    Locally(t, t, row.metadata.key, n, c, UploadIo(1, count), StreamCell(row, f', step'));
  }

  function Sum(chunks: seq<nat>): nat {
    if chunks == [] then 0 else Sum(chunks[..|chunks| - 1]) + chunks[|chunks| - 1]
  }

  function PartialFile(n: nat): File {
    File(Some(n), None, false)
  }

  predicate Waiting(t: Sys, row: Row) {
    row.metadata.key in t.cells && t.cells[row.metadata.key] == GrantedCell(row) && row.metadata.generation == 1
  }

  /** However the content arrives, it is written chunk by chunk. */
  lemma {:induction false} Writes(t: Sys, row: Row, chunks: seq<nat>)
    requires Waiting(t, row) && Sum(chunks) <= row.metadata.reserved && 0 !in chunks
    ensures Leads(t, WithCell(t, row.metadata.key, StreamCell(row, PartialFile(Sum(chunks)), Writing(Sum(chunks)))),
                  row.metadata.key, 4 + |chunks|)
    decreases |chunks|
  {
    if chunks == [] {
      Dispatching(t, row);
      Stepping(t, row, 3, ABSENT, Opening, 0, PartialFile(0), Writing(0));
    } else {
      var n := |chunks| - 1;
      Writes(t, row, chunks[..n]);
      var sum := Sum(chunks[..n]);
      Stepping(t, row, 4 + n, PartialFile(sum), Writing(sum), chunks[n], PartialFile(Sum(chunks)), Writing(Sum(chunks)));
    }
  }

  function FinishedCell(row: Row, bytes: nat, digest: Digest): Cell {
    Cell(FinalFile(bytes), [PendingWitness(1), Witness(1, true, false, true)], Some(1), None, map[],
         Finished(row, 1, DurableObject(row.metadata.key, bytes, digest)), Idle, {}, false)
  }

  lemma Finishing(t: Sys, row: Row, n: nat, bytes: nat, digest: Digest)
    requires row.metadata.key in t.cells
    requires Leads(t, WithCell(t, row.metadata.key, StreamCell(row, FinalFile(bytes), Synced(bytes))), row.metadata.key, n)
    ensures Leads(t, WithCell(t, row.metadata.key, FinishedCell(row, bytes, digest)), row.metadata.key, n + 1)
  {
    var c := StreamCell(row, FinalFile(bytes), Synced(bytes));
    assert c.jobs - {1} == map[];
    assert c.witnesses[1 := Witness(1, true, false, true)] == FinishedCell(row, bytes, digest).witnesses;
    Locally(t, t, row.metadata.key, n, c, WorkerFinishes(1, digest), FinishedCell(row, bytes, digest));
  }

  lemma Sealing(t: Sys, row: Row, n: nat, bytes: nat)
    requires row.metadata.key in t.cells
    requires Leads(t, WithCell(t, row.metadata.key, StreamCell(row, PartialFile(bytes), Writing(bytes))), row.metadata.key, n)
    ensures Leads(t, WithCell(t, row.metadata.key, StreamCell(row, FinalFile(bytes), Synced(bytes))), row.metadata.key, n + 3)
  {
    var renamed := File(None, Some(bytes), false);
    Stepping(t, row, n, PartialFile(bytes), Writing(bytes), 0, PartialFile(bytes), Sealed(bytes));
    Stepping(t, row, n + 1, PartialFile(bytes), Sealed(bytes), 0, renamed, Renamed(bytes));
    Stepping(t, row, n + 2, renamed, Renamed(bytes), 0, FinalFile(bytes), Synced(bytes));
  }

  /** Sealed, renamed and synced, the object is in place and the request knows it. */
  lemma Transfer(t: Sys, row: Row, chunks: seq<nat>, digest: Digest)
    requires Waiting(t, row) && Sum(chunks) <= row.metadata.reserved && 0 !in chunks
    ensures Leads(t, WithCell(t, row.metadata.key, FinishedCell(row, Sum(chunks), digest)), row.metadata.key, 8 + |chunks|)
  {
    Writes(t, row, chunks);
    Sealing(t, row, 4 + |chunks|, Sum(chunks));
    Finishing(t, row, 7 + |chunks|, Sum(chunks), digest);
  }

  // ----- publishing -----

  /** The row as the upload leaves it: what was received, and the handle that names it. */
  function StagedRow(row: Row, bytes: nat, digest: Digest): Row {
    var m := row.metadata;
    row.(metadata := m.(state := Staged, generation := 2, reserved := 0, bytes := bytes, digest := Some(digest),
                        association := None, handle := Finalized(m.binding.slot, m.key, m.blob, bytes, digest)))
  }

  /** The object is staged; the charge is its size, and nothing else has moved. */
  predicate Uploaded(s: Sys, u: Sys, row: Row, bytes: nat, digest: Digest) {
    var k := row.metadata.key;
    && k in u.cells && u.cells[k].file == FinalFile(bytes) && AtRest(u.cells[k])
    && u.cells == s.cells[k := u.cells[k]]
    && u.db.rows == s.db.rows[k := StagedRow(row, bytes, digest)]
    && u.live == s.live
    && u.db.store.reserved == s.db.store.reserved
    && u.db.store.used == s.db.store.used + bytes
    && u.db.store.objects == s.db.store.objects + 1
    && u.db.store.serial == s.db.store.serial + 2
  }

  function PublicationOf(row: Row, bytes: nat, digest: Digest, now: int): Write {
    StageBlob(row, StagedRow(row, bytes, digest).metadata, now)
  }

  /** The transition and the statements accept the publication of a granted row. */
  lemma PublicationApplies(db: Db, row: Row, p: Policy, bytes: nat, digest: Digest, now: int)
    requires DbInv(db) && LegalReservation(row, p) && row.metadata.key in db.rows && db.rows[row.metadata.key] == row
    requires bytes <= row.metadata.reserved && now < row.metadata.expires
    requires db.store.serial < I64_MAX && db.store.reserved + db.store.used <= I64_MAX
    ensures Stage(row.metadata, 1, DurableObject(row.metadata.key, bytes, digest), now, row.metadata.binding)
            == Ok(Transition(1, StagedRow(row, bytes, digest).metadata, Delta(-(row.metadata.reserved as int), bytes, 0)))
    ensures var after := ApplyWrite(db, PublicationOf(row, bytes, digest, now));
            && after.Some?
            && after.value.rows == db.rows[row.metadata.key := StagedRow(row, bytes, digest)]
            && after.value.store.reserved == db.store.reserved - row.metadata.reserved
            && after.value.store.used == db.store.used + bytes
            && after.value.store.objects == db.store.objects
            && after.value.store.serial == db.store.serial + 1
  {
    var w := PublicationOf(row, bytes, digest, now);
    PublicationIsNeverRefused(db, row, w.next, now);
    WritesOneRow(db, w);
  }

  function RestedCell(row: Row, bytes: nat): Cell {
    Cell(FinalFile(bytes), [PendingWitness(1), Witness(1, true, true, true)], Some(1), None, map[], NoUpload, Idle, {}, false)
  }

  lemma Publishing(v: Sys, row: Row, p: Policy, bytes: nat, digest: Digest, now: int)
    requires DbInv(v.db) && LegalReservation(row, p) && row.metadata.key in v.db.rows && v.db.rows[row.metadata.key] == row
    requires row.metadata.key in v.cells && v.cells[row.metadata.key] == FinishedCell(row, bytes, digest)
    requires bytes <= row.metadata.reserved && now < row.metadata.expires
    requires v.db.store.serial < I64_MAX && v.db.store.reserved + v.db.store.used <= I64_MAX
    ensures var db := ApplyWrite(v.db, PublicationOf(row, bytes, digest, now));
            && db.Some?
            && Next(v, Publish(row.metadata.key, now, Acknowledged))
               == Some(WithCell(v, row.metadata.key, RestedCell(row, bytes)).(db := db.value))
  {
    PublicationApplies(v.db, row, p, bytes, digest, now);
    var c := v.cells[row.metadata.key];
    assert c.witnesses[1 := Witness(1, true, true, true)] == RestedCell(row, bytes).witnesses;
    assert Cancel(c, 1).(upload := NoUpload) == RestedCell(row, bytes);
  }

  ghost function UploadedSys(s: Sys, row: Row, p: Policy, bytes: nat, digest: Digest, now: int): Sys
    requires Reservable(s, row, p) && ApplyWrite(GrantedSys(s, row, p).db, PublicationOf(row, bytes, digest, now)).Some?
  {
    WithCell(s, row.metadata.key, RestedCell(row, bytes)).(
      db := ApplyWrite(GrantedSys(s, row, p).db, PublicationOf(row, bytes, digest, now)).value)
  }

  lemma PublishedIsUploaded(s: Sys, row: Row, p: Policy, bytes: nat, digest: Digest, now: int)
    requires DbInv(s.db) && Reservable(s, row, p) && bytes <= row.metadata.reserved && now < row.metadata.expires
    requires s.db.store.serial + 1 < I64_MAX
    ensures ApplyWrite(GrantedSys(s, row, p).db, PublicationOf(row, bytes, digest, now)).Some?
    ensures Uploaded(s, UploadedSys(s, row, p, bytes, digest, now), row, bytes, digest)
  {
    GrantedDb(s, row, p);
    PublicationApplies(GrantedSys(s, row, p).db, row, p, bytes, digest, now);
  }

  lemma ReceiptLeads(s: Sys, row: Row, p: Policy, chunks: seq<nat>, digest: Digest)
    requires DbInv(s.db) && Reservable(s, row, p) && Sum(chunks) <= row.metadata.reserved && 0 !in chunks
    ensures Leads(s, WithCell(GrantedSys(s, row, p), row.metadata.key, FinishedCell(row, Sum(chunks), digest)),
                  row.metadata.key, 10 + |chunks|)
  {
    var g := GrantedSys(s, row, p);
    ReservationLeads(s, row, p);
    Transfer(g, row, chunks, digest);
    Through(s, g, WithCell(g, row.metadata.key, FinishedCell(row, Sum(chunks), digest)), row.metadata.key, 2, 8 + |chunks|);
  }

  lemma PublicationLeads(s: Sys, row: Row, p: Policy, bytes: nat, digest: Digest, now: int, n: nat)
    requires DbInv(s.db) && Reservable(s, row, p) && bytes <= row.metadata.reserved && now < row.metadata.expires
    requires s.db.store.serial + 1 < I64_MAX
    requires Leads(s, WithCell(GrantedSys(s, row, p), row.metadata.key, FinishedCell(row, bytes, digest)), row.metadata.key, n)
    ensures ApplyWrite(GrantedSys(s, row, p).db, PublicationOf(row, bytes, digest, now)).Some?
    ensures Leads(s, UploadedSys(s, row, p, bytes, digest, now), row.metadata.key, n + 1)
  {
    var k := row.metadata.key;
    var v := WithCell(GrantedSys(s, row, p), k, FinishedCell(row, bytes, digest));
    GrantedDb(s, row, p);
    Publishing(v, row, p, bytes, digest, now);
    var u := UploadedSys(s, row, p, bytes, digest, now);
    assert WithCell(v, k, RestedCell(row, bytes)).cells == u.cells;
    Onward(s, v, k, n, Publish(k, now, Acknowledged), u);
  }

  /** Uploading succeeds. In every reachable state, any reservation under a key of its own that the
      statements accept can become a staged object of any length within it and any digest, however
      its content is cut, in eleven steps and one per chunk, before it expires. */
  lemma UploadsComplete(s: Sys, row: Row, p: Policy, chunks: seq<nat>, digest: Digest, now: int) returns (u: Sys)
    requires Reachable(s) && Reservable(s, row, p) && s.db.store.serial + 1 < I64_MAX
    requires Sum(chunks) <= row.metadata.reserved && 0 !in chunks && now < row.metadata.expires
    ensures Leads(s, u, row.metadata.key, 11 + |chunks|) && Uploaded(s, u, row, Sum(chunks), digest)
  {
    ReachableInv(s);
    ReceiptLeads(s, row, p, chunks, digest);
    PublicationLeads(s, row, p, Sum(chunks), digest, now, 10 + |chunks|);
    PublishedIsUploaded(s, row, p, Sum(chunks), digest, now);
    u := UploadedSys(s, row, p, Sum(chunks), digest, now);
  }

  // ----- owning -----

  function AttachedRow(row: Row, bytes: nat, digest: Digest, a: Association): Row {
    var staged := StagedRow(row, bytes, digest);
    staged.(metadata := staged.metadata.(state := Attached, generation := 3, association := Some(a)))
  }

  function DetachedRow(row: Row, bytes: nat, digest: Digest, a: Association): Row {
    var attached := AttachedRow(row, bytes, digest, a);
    attached.(metadata := attached.metadata.(state := Unreferenced, generation := 4))
  }

  /** An uploaded object is attached exactly on its own handle and binding, in time and to a valid
      owner, and its row then carries that owner. */
  lemma UploadsAttach(s: Sys, u: Sys, row: Row, bytes: nat, digest: Digest,
                      now: int, handle: Handle, binding: Binding, owner: Association)
    requires Uploaded(s, u, row, bytes, digest)
    ensures var k := row.metadata.key;
            var next := Next(u, AttachRow(k, now, handle, binding, owner));
            && (next.Some? <==>
                  && handle == StagedRow(row, bytes, digest).metadata.handle && binding == row.metadata.binding
                  && now < row.metadata.expires && ValidAssociation(owner))
            && (next.Some? ==> next.value == u.(db := u.db.(rows := u.db.rows[k := AttachedRow(row, bytes, digest, owner)])))
  {
  }

  /** An attached object is given up exactly by its own owner, and its row is then unreferenced. */
  lemma OwnersDetach(u: Sys, row: Row, bytes: nat, digest: Digest, owner: Association, other: Association)
    requires row.metadata.key in u.cells && row.metadata.key in u.db.rows
    requires u.db.rows[row.metadata.key] == AttachedRow(row, bytes, digest, owner)
    ensures var k := row.metadata.key;
            var next := Next(u, UnreferenceRow(k, other));
            && (next.Some? <==> other == owner)
            && (next.Some? ==> next.value == u.(db := u.db.(rows := u.db.rows[k := DetachedRow(row, bytes, digest, owner)])))
  {
  }

  // ----- a whole life -----

  lemma LeadsReachable(s: Sys, t: Sys, k: Id, n: nat)
    requires Reachable(s) && Leads(s, t, k, n)
    ensures Reachable(t)
  {
    var a :| Run(INITIAL, a) == Some(s);
    var b :| |b| == n && OnKey(b, k) && Run(s, b) == Some(t);
    RunConcat(INITIAL, a, b);
  }

  lemma OwnedOnce(s: Sys, u: Sys, row: Row, bytes: nat, digest: Digest, now: int, owner: Association, n: nat) returns (v: Sys)
    requires Uploaded(s, u, row, bytes, digest) && Leads(s, u, row.metadata.key, n)
    requires now < row.metadata.expires && ValidAssociation(owner)
    ensures Leads(s, v, row.metadata.key, n + 2)
    ensures v == u.(db := u.db.(rows := u.db.rows[row.metadata.key := DetachedRow(row, bytes, digest, owner)]))
  {
    var k, staged := row.metadata.key, StagedRow(row, bytes, digest);
    UploadsAttach(s, u, row, bytes, digest, now, staged.metadata.handle, row.metadata.binding, owner);
    var e := AttachRow(k, now, staged.metadata.handle, row.metadata.binding, owner);
    var a := Next(u, e).value;
    Onward(s, u, k, n, e, a);
    OwnersDetach(a, row, bytes, digest, owner, owner);
    v := Next(a, UnreferenceRow(k, owner)).value;
    Onward(s, a, k, n + 1, UnreferenceRow(k, owner), v);
    assert v.db.rows == u.db.rows[k := DetachedRow(row, bytes, digest, owner)];
  }

  /** What an object that has been used and given up leaves behind. */
  predicate GivenUp(s: Sys, v: Sys, row: Row, bytes: nat) {
    var k := row.metadata.key;
    && k in v.db.rows && k in v.cells && AtRest(v.cells[k])
    && v.db.rows[k].metadata.state == Unreferenced && v.db.rows[k].metadata.generation == 4
    && v.db.rows[k].metadata.bytes == bytes && v.db.rows[k].metadata.reserved == 0 && v.db.rows[k].claimed == row.claimed
    && v.db.rows == s.db.rows[k := v.db.rows[k]]
    && v.db.store.reserved == s.db.store.reserved && v.db.store.used == s.db.store.used + bytes
    && v.db.store.objects == s.db.store.objects + 1 && v.db.store.serial == s.db.store.serial + 2
  }

  lemma UsedOnce(s: Sys, row: Row, p: Policy, chunks: seq<nat>, digest: Digest, now: int, owner: Association) returns (v: Sys)
    requires Reachable(s) && Reservable(s, row, p) && s.db.store.serial + 1 < I64_MAX
    requires Sum(chunks) <= row.metadata.reserved && 0 !in chunks && now < row.metadata.expires && ValidAssociation(owner)
    ensures Leads(s, v, row.metadata.key, 13 + |chunks|) && GivenUp(s, v, row, Sum(chunks))
  {
    var u := UploadsComplete(s, row, p, chunks, digest, now);
    v := OwnedOnce(s, u, row, Sum(chunks), digest, now, owner, 11 + |chunks|);
    assert v.db.rows == s.db.rows[row.metadata.key := v.db.rows[row.metadata.key]];
  }

  /** The tombstone of an object's whole life: no file, and every counter where it was. */
  predicate LivedAndGone(s: Sys, t: Sys, k: Id) {
    && k in t.db.rows && k in t.cells
    && t.db.rows[k].metadata.state == Deleted && t.cells[k].file == ABSENT && AtRest(t.cells[k])
    && t.db.rows == s.db.rows[k := t.db.rows[k]]
    && t.db.store.reserved == s.db.store.reserved && t.db.store.used == s.db.store.used
    && t.db.store.objects == s.db.store.objects
  }

  lemma GoneAfter(s: Sys, v: Sys, t: Sys, row: Row, bytes: nat)
    requires GivenUp(s, v, row, bytes) && Reclaimed(v, t, row.metadata.key)
    ensures LivedAndGone(s, t, row.metadata.key)
  {
  }

  lemma GivenUpIsReclaimed(s: Sys, v: Sys, row: Row, bytes: nat, end: nat) returns (t: Sys)
    requires Reachable(v) && GivenUp(s, v, row, bytes) && row.claimed == 0 && v.db.store.serial < I64_MAX
    ensures Leads(v, t, row.metadata.key, 19) && LivedAndGone(s, t, row.metadata.key)
  {
    NothingIsStranded(v, row.metadata.key, end);
    t :| Leads(v, t, row.metadata.key, 19) && Reclaimed(v, t, row.metadata.key);
    GoneAfter(s, v, t, row, bytes);
  }

  /** Charges are conserved over a whole life: an object uploaded, attached, detached and reclaimed
      leaves a tombstone, no file, and every counter of the store where it was. */
  lemma WholeLife(s: Sys, row: Row, p: Policy, chunks: seq<nat>, digest: Digest, now: int, owner: Association, end: nat)
    returns (t: Sys)
    requires Reachable(s) && Reservable(s, row, p) && s.db.store.serial + 2 < I64_MAX
    requires Sum(chunks) <= row.metadata.reserved && 0 !in chunks && now < row.metadata.expires && ValidAssociation(owner)
    ensures Leads(s, t, row.metadata.key, 32 + |chunks|) && LivedAndGone(s, t, row.metadata.key)
  {
    var v := UsedOnce(s, row, p, chunks, digest, now, owner);
    LeadsReachable(s, v, row.metadata.key, 13 + |chunks|);
    t := GivenUpIsReclaimed(s, v, row, Sum(chunks), end);
    Through(s, v, t, row.metadata.key, 13 + |chunks|, 19);
  }
}
