/** Quota conservation: every legal write keeps the counters equal to the sums over the
    rows, and the guards on publication and release can therefore never refuse one. */
module BlobConservation {
  import opened Prelude
  import opened BlobState
  import opened BlobDatabase

  /** What `reserve` builds and checks before its statements run. */
  predicate LegalReservation(row: Row, p: Policy) {
    var m := row.metadata;
    && ValidLimits(p.limits)
    && 1 <= m.reserved <= p.limits.fileBytes
    && (row.anonymous ==> && 0 < p.capabilityStages <= MAX_LIVE_STAGES && p.capabilityBytes <= MAX_CAPABILITY_BYTES
                          && m.reserved <= p.capabilityBytes && m.reserved <= p.anonymousBytes
                          && p.anonymousStages <= MAX_ANONYMOUS_STAGES)
    && (!row.anonymous ==> p.capabilityStages == p.limits.liveStages)
    && m.state == Uploading
    && m.generation == 1
    && m.bytes == 0
    && m.digest.None?
    && m.association.None?
    && m.handle.Provisional?
    && m.expires == row.created + STAGE_LIFETIME_MILLIS
    && row.claimed == 0
  }

  /** Writes are only ever built by the pure transitions. */
  predicate LegalWrite(w: Write) {
    match w
    case Insert(row, p) => LegalReservation(row, p)
    case StageBlob(from, next, now) =>
      next.digest.Some? &&
      var staged := Stage(from.metadata, from.metadata.generation,
                          DurableObject(from.metadata.key, next.bytes, next.digest.value), now, from.metadata.binding);
      staged.Ok? && staged.value.next == next
    case ClaimForDeletion(from, next, process, now) =>
      && from.metadata.state in {Uploading, Staged, Unreferenced, Deleting}
      && Candidate(from.metadata, from.metadata.generation, Deleting, NO_CHARGE).Ok?
      && Candidate(from.metadata, from.metadata.generation, Deleting, NO_CHARGE).value.next == next
    case DeleteBlob(from, next, now) =>
      var done := MarkDeleted(from.metadata, GcClaim(from.metadata.key, from.metadata.generation));
      done.Ok? && done.value.next == next
  }

  /** A snapshot at the row's current generation is the row itself. */
  predicate Snapshot(db: Db, from: Row) {
    var k := from.metadata.key;
    k in db.rows && db.rows[k].metadata.generation == from.metadata.generation ==> db.rows[k] == from
  }

  predicate HonestWrite(db: Db, w: Write) {
    LegalWrite(w) && (w.Insert? || Snapshot(db, w.from))
  }

  /** The row a legal write leaves behind is the one its pure transition computed. */
  function Written(w: Write): Row {
    match w
    case Insert(row, _) => row
    case StageBlob(from, next, _) => from.(metadata := next)
    case ClaimForDeletion(from, next, process, now) => from.(metadata := next, claimed := now, process := process)
    case DeleteBlob(from, next, now) => from.(metadata := next, claimed := now)
  }

  /** The SQL column updates and the pure transitions agree. */
  lemma WritesOneRow(db: Db, w: Write)
    requires KeysMatch(db) && HonestWrite(db, w)
    requires ApplyWrite(db, w).Some?
    ensures ApplyWrite(db, w).value.rows == db.rows[WriteKey(w) := Written(w)]
    ensures WriteKey(w) == Written(w).metadata.key
    ensures w.Insert? <==> WriteKey(w) !in db.rows
    ensures !w.Insert? ==> db.rows[WriteKey(w)] == w.from
  {
  }

  function Part(w: Weight, d: Delta, row: Row): int {
    var subject := row.metadata.binding.subject;
    match w
    case Reserved => d.reserved
    case Used => d.used
    case Objects => d.objects
    case AnonymousReserved => if row.anonymous then d.reserved else 0
    case AnonymousUsed => if row.anonymous then d.used else 0
    case SubjectReserved(s) => if subject == s then d.reserved else 0
    case SubjectUsed(s) => if subject == s then d.used else 0
    case SubjectObjects(s) => if subject == s then d.objects else 0
    case SubjectStages(_) => 0
    case AnonymousStages => 0
  }

  /** The delta a write applies is the difference between the new and the old row. */
  predicate Balances(rows: map<Id, Row>, k: Id, r: Row, d: Delta) {
    var was := k in rows;
    && (was ==> rows[k].anonymous == r.anonymous && rows[k].metadata.binding.subject == r.metadata.binding.subject)
    && d.reserved == r.metadata.reserved - (if was then rows[k].metadata.reserved else 0)
    && d.used == r.metadata.bytes - (if was then rows[k].metadata.bytes else 0)
    && d.objects == Weigh(Objects, r) - (if was then Weigh(Objects, rows[k]) else 0)
  }

  lemma TotalMoves(rows: map<Id, Row>, k: Id, r: Row, d: Delta, w: Weight)
    requires Balances(rows, k, r, d)
    requires !w.SubjectStages? && !w.AnonymousStages?
    ensures Total(rows[k := r], w) == Total(rows, w) + Part(w, d, r)
  {
    TotalUpdate(rows, k, r, w);
  }

  lemma StoreMoves(db: Db, k: Id, r: Row, d: Delta, after: Db)
    requires StoreConserved(db)
    requires Balances(db.rows, k, r, d)
    requires after.rows == db.rows[k := r]
    requires after.store == AddCharge(db, r, d, db.rows[k := r]).store || (d == NO_CHARGE && after.store == db.store)
    ensures StoreConserved(after)
  {
    TotalMoves(db.rows, k, r, d, Reserved);
    TotalMoves(db.rows, k, r, d, Used);
    TotalMoves(db.rows, k, r, d, Objects);
    TotalMoves(db.rows, k, r, d, AnonymousReserved);
    TotalMoves(db.rows, k, r, d, AnonymousUsed);
  }

  lemma SubjectMoves(db: Db, k: Id, r: Row, d: Delta, s: Id)
    requires SubjectConserved(db, s)
    requires Balances(db.rows, k, r, d)
    ensures SubjectConserved(AddCharge(db, r, d, db.rows[k := r]), s)
    ensures d == NO_CHARGE ==> SubjectConserved(db.(rows := db.rows[k := r]), s)
  {
    TotalMoves(db.rows, k, r, d, SubjectReserved(s));
    TotalMoves(db.rows, k, r, d, SubjectUsed(s));
    TotalMoves(db.rows, k, r, d, SubjectObjects(s));
  }

  predicate SameKind(db: Db, k: Id, r: Row) {
    var s := r.metadata.binding.subject;
    if k in db.rows then db.rows[k].metadata.state != Deleted
    else s in db.subjects ==> db.subjects[s].anonymous == r.anonymous
  }

  lemma KindMoves(db: Db, k: Id, r: Row, d: Delta)
    requires SubjectKind(db)
    requires Balances(db.rows, k, r, d) && SameKind(db, k, r)
    ensures SubjectKind(AddCharge(db, r, d, db.rows[k := r]))
    ensures k in db.rows ==> SubjectKind(db.(rows := db.rows[k := r]))
  {
  }

  /** A charge leaves every counter equal to its sum. */
  lemma ChargeConserved(db: Db, k: Id, r: Row, d: Delta)
    requires Conserved(db)
    requires Balances(db.rows, k, r, d) && SameKind(db, k, r)
    ensures Conserved(AddCharge(db, r, d, db.rows[k := r]))
  {
    var after := AddCharge(db, r, d, db.rows[k := r]);
    StoreMoves(db, k, r, d, after);
    KindMoves(db, k, r, d);
    forall s
      ensures SubjectConserved(after, s)
    {
      SubjectMoves(db, k, r, d, s);
    }
  }

  /** A subject row is dropped only when nothing is charged to it any more. */
  lemma EmptySubjectDropped(db: Db, s: Id)
    requires Conserved(db)
    ensures Conserved(DropEmptySubject(db, s))
  {
    var after := DropEmptySubject(db, s);
    if after != db {
      assert SubjectConserved(db, s);
      forall k | k in db.rows && db.rows[k].metadata.state != Deleted
        ensures db.rows[k].metadata.binding.subject != s
      {
        TotalAtLeast(db.rows, k, SubjectObjects(s));
        TotalAtLeast(db.rows, k, SubjectObjects(db.rows[k].metadata.binding.subject));
      }
      forall t
        ensures SubjectConserved(after, t)
      {
        assert SubjectConserved(db, t);
      }
    }
  }

  /** Once nothing is charged to a subject any more, a deletion leaves no row for it. */
  lemma EmptySubjectsLeave(db: Db, from: Row, next: Metadata, now: int)
    requires ApplyWrite(db, DeleteBlob(from, next, now)).Some?
    ensures var after, s := ApplyWrite(db, DeleteBlob(from, next, now)).value, from.metadata.binding.subject;
            s in after.subjects ==> after.subjects[s].reserved != 0 || after.subjects[s].used != 0 || after.subjects[s].objects != 0
  {
  }

  /** A write that keeps sizes and liveness of the charge keeps every counter. */
  lemma Uncharged(db: Db, k: Id, r: Row)
    requires Conserved(db)
    requires k in db.rows && Balances(db.rows, k, r, NO_CHARGE) && SameKind(db, k, r)
    ensures Conserved(db.(rows := db.rows[k := r]))
  {
    var after := db.(rows := db.rows[k := r]);
    StoreMoves(db, k, r, NO_CHARGE, after);
    KindMoves(db, k, r, NO_CHARGE);
    forall s
      ensures SubjectConserved(after, s)
    {
      SubjectMoves(db, k, r, NO_CHARGE, s);
    }
  }

  /** The charge a write applies to the counters. */
  function Charge(w: Write): Delta {
    match w
    case Insert(row, _) => Delta(row.metadata.reserved, 0, 1)
    case StageBlob(from, next, _) => Delta(-(from.metadata.reserved as int), next.bytes, 0)
    case ClaimForDeletion(_, _, _, _) => NO_CHARGE
    case DeleteBlob(from, _, _) => Delta(-(from.metadata.reserved as int), -(from.metadata.bytes as int), -1)
  }

  lemma WriteBalances(db: Db, w: Write)
    requires KeysMatch(db) && Shapely(db) && HonestWrite(db, w)
    requires ApplyWrite(db, w).Some?
    ensures Balances(db.rows, WriteKey(w), Written(w), Charge(w)) && SameKind(db, WriteKey(w), Written(w))
    ensures var charged := AddCharge(db, Written(w), Charge(w), db.rows[WriteKey(w) := Written(w)]);
            ApplyWrite(db, w).value ==
              if w.ClaimForDeletion? then db.(rows := db.rows[WriteKey(w) := Written(w)])
              else if w.DeleteBlob? then DropEmptySubject(charged, Written(w).metadata.binding.subject)
              else charged
  {
    WritesOneRow(db, w);
  }

  lemma WriteConserves(db: Db, w: Write)
    requires Conserved(db) && KeysMatch(db) && Shapely(db) && HonestWrite(db, w)
    requires ApplyWrite(db, w).Some?
    ensures Conserved(ApplyWrite(db, w).value)
  {
    WriteBalances(db, w);
    var k, r := WriteKey(w), Written(w);
    if w.ClaimForDeletion? {
      Uncharged(db, k, r);
    } else {
      ChargeConserved(db, k, r, Charge(w));
      EmptySubjectDropped(AddCharge(db, r, Charge(w), db.rows[k := r]), r.metadata.binding.subject);
    }
  }

  lemma WriteKeepsRows(db: Db, w: Write)
    requires SlotsUnique(db) && KeysMatch(db) && Shapely(db) && HonestWrite(db, w)
    requires ApplyWrite(db, w).Some?
    ensures var after := ApplyWrite(db, w).value;
            SlotsUnique(after) && KeysMatch(after) && Shapely(after)
  {
    WritesOneRow(db, w);
    assert Shape(Written(w).metadata);
  }

  /** Every legal write preserves the database invariant, whatever limits it carried. */
  lemma WriteKeepsDb(db: Db, w: Write)
    requires DbInv(db) && HonestWrite(db, w)
    requires ApplyWrite(db, w).Some?
    ensures DbInv(ApplyWrite(db, w).value)
    ensures ApplyWrite(db, w).value.rows == db.rows[WriteKey(w) := Written(w)]
  {
    WritesOneRow(db, w);
    WriteConserves(db, w);
    WriteKeepsRows(db, w);
  }

  lemma AttachKeepsDb(db: Db, k: Id, now: int, handle: Handle, binding: Binding, a: Association)
    requires DbInv(db) && k in db.rows
    requires AttachBlob(db, k, now, handle, binding, a).Ok?
    ensures DbInv(AttachBlob(db, k, now, handle, binding, a).value)
  {
    Uncharged(db, k, AttachBlob(db, k, now, handle, binding, a).value.rows[k]);
  }

  lemma UnreferenceKeepsDb(db: Db, k: Id, a: Association)
    requires DbInv(db) && k in db.rows
    requires UnreferenceBlob(db, k, a).Ok?
    ensures DbInv(UnreferenceBlob(db, k, a).value)
  {
    Uncharged(db, k, UnreferenceBlob(db, k, a).value.rows[k]);
  }

  /** Publication is refused by nothing but its own fence: the charge guards hold whenever
      the row is still there, short of the serial counter or the byte counter overflowing. */
  lemma PublicationIsNeverRefused(db: Db, from: Row, next: Metadata, now: int)
    requires DbInv(db) && HonestWrite(db, StageBlob(from, next, now))
    requires db.store.serial < I64_MAX && db.store.reserved + db.store.used <= I64_MAX
    ensures ApplyWrite(db, StageBlob(from, next, now)).Some? <==> RowFence(db, from)
  {
    if RowFence(db, from) {
      ChargesCovered(db, from.metadata.key);
    }
  }

  /** The same for the release that completes a deletion, so no charge is ever stuck. */
  lemma ReleaseIsNeverRefused(db: Db, from: Row, next: Metadata, now: int)
    requires DbInv(db) && HonestWrite(db, DeleteBlob(from, next, now))
    requires db.store.serial < I64_MAX
    ensures ApplyWrite(db, DeleteBlob(from, next, now)).Some? <==> RowFence(db, from)
  {
    if RowFence(db, from) {
      ChargesCovered(db, from.metadata.key);
    }
  }

  /** The counters cover the charge of every row that has not been deleted. */
  lemma ChargesCovered(db: Db, k: Id)
    requires DbInv(db)
    requires k in db.rows && db.rows[k].metadata.state != Deleted
    ensures var row := db.rows[k];
            var s := row.metadata.binding.subject;
            && ReleaseSubjectGuard(db, row)
            && (db.store.serial < I64_MAX ==> ReleaseStoreGuard(db, row))
            && db.store.anonymousReserved + db.store.anonymousUsed <= db.store.reserved + db.store.used
            && db.subjects[s].reserved + db.subjects[s].used <= db.store.reserved + db.store.used
  {
    var row := db.rows[k];
    var s := row.metadata.binding.subject;
    assert SubjectConserved(db, s);
    TotalAtLeast(db.rows, k, Reserved);
    TotalAtLeast(db.rows, k, Used);
    TotalAtLeast(db.rows, k, Objects);
    TotalAtLeast(db.rows, k, AnonymousReserved);
    TotalAtLeast(db.rows, k, AnonymousUsed);
    TotalAtLeast(db.rows, k, SubjectReserved(s));
    TotalAtLeast(db.rows, k, SubjectUsed(s));
    TotalAtLeast(db.rows, k, SubjectObjects(s));
    TotalDominates(db.rows, Reserved, AnonymousReserved);
    TotalDominates(db.rows, Used, AnonymousUsed);
    TotalDominates(db.rows, Reserved, SubjectReserved(s));
    TotalDominates(db.rows, Used, SubjectUsed(s));
  }

  lemma {:induction false} TotalDominates(rows: map<Id, Row>, big: Weight, small: Weight)
    requires forall k :: k in rows ==> Weigh(small, rows[k]) <= Weigh(big, rows[k])
    ensures Total(rows, small) <= Total(rows, big)
    decreases |rows|
  {
    if rows != map[] {
      var k :| k in rows;
      TotalRemove(rows, k, big);
      TotalRemove(rows, k, small);
      TotalDominates(rows - {k}, big, small);
    }
  }

  /** Live stages: a subject never holds more than four, and anonymous subjects together
      never more than sixteen. */
  ghost predicate StagesBounded(db: Db) {
    && (forall s :: Total(db.rows, SubjectStages(s)) <= MAX_LIVE_STAGES)
    && Total(db.rows, AnonymousStages) <= MAX_ANONYMOUS_STAGES
  }

  /** Only a reservation adds a live stage, and it was admitted below the bound. */
  lemma StageTotalMoves(db: Db, w: Write, stages: Weight, bound: nat)
    requires KeysMatch(db) && HonestWrite(db, w)
    requires ApplyWrite(db, w).Some?
    requires bound == if stages.AnonymousStages? then MAX_ANONYMOUS_STAGES else MAX_LIVE_STAGES
    requires stages.SubjectStages? || stages.AnonymousStages?
    requires Total(db.rows, stages) <= bound
    ensures Total(db.rows[WriteKey(w) := Written(w)], stages) <= bound
  {
    WritesOneRow(db, w);
    TotalUpdate(db.rows, WriteKey(w), Written(w), stages);
    if !w.Insert? {
      assert Weigh(stages, Written(w)) <= Weigh(stages, w.from);
    } else if Weigh(stages, w.row) == 1 {
      assert ReserveStoreGuard(db, w.row, w.policy);
    }
  }

  lemma WriteBoundsStages(db: Db, w: Write)
    requires KeysMatch(db) && HonestWrite(db, w) && StagesBounded(db)
    requires ApplyWrite(db, w).Some?
    ensures StagesBounded(ApplyWrite(db, w).value)
  {
    WritesOneRow(db, w);
    StageTotalMoves(db, w, AnonymousStages, MAX_ANONYMOUS_STAGES);
    forall s
      ensures Total(db.rows[WriteKey(w) := Written(w)], SubjectStages(s)) <= MAX_LIVE_STAGES
    {
      StageTotalMoves(db, w, SubjectStages(s), MAX_LIVE_STAGES);
    }
  }

  // ----- the reference -----

  /** The store's quota and a subject's usage, summed over the rows. */
  ghost function QuotaOf(db: Db): Quota {
    Quota(Total(db.rows, Reserved), Total(db.rows, Used), Total(db.rows, Objects))
  }

  ghost function UsageOf(db: Db, row: Row, p: Policy, byteLimit: nat): SubjectUsage {
    var s := row.metadata.binding.subject;
    SubjectUsage(Total(db.rows, SubjectStages(s)), Total(db.rows, SubjectReserved(s)) + Total(db.rows, SubjectUsed(s)),
                 Min(p.capabilityStages, p.limits.liveStages), byteLimit)
  }

  ghost function Referred(db: Db, row: Row, p: Policy, byteLimit: nat): Result<(Metadata, Quota)> {
    var m := row.metadata;
    Reserve(m.blob, m.handle, m.key, m.binding, row.created, m.reserved, p.limits, UsageOf(db, row, p, byteLimit), QuotaOf(db))
  }

  /** What a reservation meets besides its own quota: a fresh key and slot, a subject of its kind,
      room in the deployment's anonymous ceilings and a serial number to use. */
  ghost predicate Admissible(db: Db, row: Row, p: Policy) {
    var m := row.metadata;
    && m.key !in db.rows && SlotFree(db, m.binding.slot) && db.store.serial < I64_MAX
    && (m.binding.subject in db.subjects ==> db.subjects[m.binding.subject].anonymous == row.anonymous)
    && (row.anonymous ==>
          && Total(db.rows, AnonymousReserved) + Total(db.rows, AnonymousUsed) + m.reserved <= p.anonymousBytes
          && Total(db.rows, AnonymousStages) < p.anonymousStages)
  }

  lemma ReferenceDecides(db: Db, row: Row, p: Policy, byteLimit: nat)
    requires LegalReservation(row, p) && 0 < byteLimit <= MAX_CAPABILITY_BYTES
    ensures var u, q := UsageOf(db, row, p, byteLimit), QuotaOf(db);
            Referred(db, row, p, byteLimit).Ok? <==>
              && u.liveStages < u.stageLimit && ByteRoom(u, row.metadata.reserved)
              && q.reserved + q.used + row.metadata.reserved <= p.limits.appBytes && q.objects < p.limits.objects
  {
  }

  /** A subject within the app's object limit is within its own. */
  lemma SubjectWithinStore(db: Db, s: Id)
    requires Conserved(db) && s in db.subjects
    ensures db.subjects[s].objects <= db.store.objects
    ensures db.subjects[s].reserved == Total(db.rows, SubjectReserved(s)) && db.subjects[s].used == Total(db.rows, SubjectUsed(s))
  {
    assert SubjectConserved(db, s);
    TotalDominates(db.rows, Objects, SubjectObjects(s));
  }

  lemma StatementsDecide(db: Db, row: Row, p: Policy)
    requires DbInv(db) && LegalReservation(row, p)
    ensures var s, q := row.metadata.binding.subject, QuotaOf(db);
            ApplyWrite(db, Insert(row, p)).Some? <==>
              && Admissible(db, row, p)
              && Total(db.rows, SubjectStages(s)) < Min(p.capabilityStages, p.limits.liveStages)
              && (row.anonymous ==> Total(db.rows, SubjectReserved(s)) + Total(db.rows, SubjectUsed(s)) + row.metadata.reserved <= p.capabilityBytes)
              && q.reserved + q.used + row.metadata.reserved <= p.limits.appBytes && q.objects < p.limits.objects
  {
    var s := row.metadata.binding.subject;
    if s in db.subjects {
      SubjectWithinStore(db, s);
    } else {
      assert SubjectConserved(db, s);
    }
  }

  /** The reservation statements accept exactly what the in-memory reference accepts of the sums
      over the rows, and leave the same row and counters. A byte ceiling on the subject is applied
      to anonymous subjects only: the reference also takes one for accounts, and with it refuses
      exactly the accounts it would put over. */
  lemma ReservationMatchesReference(db: Db, row: Row, p: Policy, byteLimit: nat)
    requires DbInv(db) && LegalReservation(row, p) && 0 < byteLimit <= MAX_CAPABILITY_BYTES
    requires row.anonymous ==> byteLimit == p.capabilityBytes
    ensures Admissible(db, row, p) && Referred(db, row, p, byteLimit).Ok? <==>
            ApplyWrite(db, Insert(row, p)).Some? && (row.anonymous || ByteRoom(UsageOf(db, row, p, byteLimit), row.metadata.reserved))
    ensures ApplyWrite(db, Insert(row, p)).Some? && Referred(db, row, p, byteLimit).Ok? ==>
            Referred(db, row, p, byteLimit).value == (row.metadata, QuotaOf(ApplyWrite(db, Insert(row, p)).value))
  {
    ReferenceDecides(db, row, p, byteLimit);
    StatementsDecide(db, row, p);
    if ApplyWrite(db, Insert(row, p)).Some? {
      ReservedQuota(db, row, p);
    }
  }

  /** An accepted reservation adds its bytes and one object to the sums. */
  lemma ReservedQuota(db: Db, row: Row, p: Policy)
    requires DbInv(db) && LegalReservation(row, p) && ApplyWrite(db, Insert(row, p)).Some?
    ensures var q := QuotaOf(db);
            QuotaOf(ApplyWrite(db, Insert(row, p)).value) == Quota(q.reserved + row.metadata.reserved, q.used, q.objects + 1)
  {
    WriteConserves(db, Insert(row, p));
  }

  /** The ceiling in question: an account over it is refused by the reference and accepted by the
      statements, even in an empty store. */
  lemma AccountsHaveNoCeiling(row: Row, p: Policy, byteLimit: nat)
    requires LegalReservation(row, p) && !row.anonymous && 0 < byteLimit < row.metadata.reserved
    ensures ApplyWrite(EMPTY_DB, Insert(row, p)).Some? && Referred(EMPTY_DB, row, p, byteLimit).Err?
  {
    assert forall w :: Total(EMPTY_DB.rows, w) == 0;
  }
}
