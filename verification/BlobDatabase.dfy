/** The blob tables and the conditional statements that change them
    (crates/noxide-store/src/statements/blobs.rs, crates/noxide-blobs/src/metadata.rs).

    One `Write` is everything a single transaction does to the blob tables. Applying it
    re-evaluates every WHERE clause; a clause that matches no row refuses the whole
    transaction, as the callers' `ensure!(changed == 1)` does. */
module BlobDatabase {
  import opened Prelude
  import opened BlobState

  datatype Row = Row(metadata: Metadata, anonymous: bool, created: int, claimed: int, process: Id)

  datatype Counters = Counters(
    reserved: int, used: int, objects: int, anonymousReserved: int, anonymousUsed: int, serial: int)

  datatype Subject = Subject(anonymous: bool, reserved: int, used: int, objects: int)

  /** Rows are indexed by object key, which is unique per row; `slot` is the primary key. */
  datatype Db = Db(rows: map<Id, Row>, store: Counters, subjects: map<Id, Subject>)

  const EMPTY_DB := Db(map[], Counters(0, 0, 0, 0, 0, 1), map[])

  /** The values a reservation request is checked against. */
  datatype Policy = Policy(
    limits: Limits, anonymousStages: nat, anonymousBytes: nat, capabilityStages: nat, capabilityBytes: nat)

  datatype Write =
    | Insert(row: Row, policy: Policy)
    | StageBlob(from: Row, next: Metadata, now: int)
    | ClaimForDeletion(from: Row, next: Metadata, process: Id, now: int)
    | DeleteBlob(from: Row, next: Metadata, now: int)

  function WriteKey(w: Write): Id {
    if w.Insert? then w.row.metadata.key else w.from.metadata.key
  }

  // ----- sums over rows -----

  /** The quantities the counters are meant to equal. */
  datatype Weight =
    | Reserved | Used | Objects | AnonymousReserved | AnonymousUsed
    | SubjectReserved(subject: Id) | SubjectUsed(subject: Id) | SubjectObjects(subject: Id)
    | SubjectStages(subject: Id) | AnonymousStages

  function When(b: bool, n: nat): nat {
    if b then n else 0
  }

  predicate Live(r: Row) {
    r.metadata.state == Uploading || r.metadata.state == Staged
  }

  function Weigh(w: Weight, r: Row): nat {
    var m := r.metadata;
    match w
    case Reserved => m.reserved
    case Used => m.bytes
    case Objects => When(m.state != Deleted, 1)
    case AnonymousReserved => When(r.anonymous, m.reserved)
    case AnonymousUsed => When(r.anonymous, m.bytes)
    case SubjectReserved(s) => When(m.binding.subject == s, m.reserved)
    case SubjectUsed(s) => When(m.binding.subject == s, m.bytes)
    case SubjectObjects(s) => When(m.binding.subject == s && m.state != Deleted, 1)
    case SubjectStages(s) => When(m.binding.subject == s && Live(r), 1)
    case AnonymousStages => When(r.anonymous && Live(r), 1)
  }

  ghost function Total(rows: map<Id, Row>, w: Weight): nat {
    if rows == map[] then 0
    else
      var k :| k in rows;
      Weigh(w, rows[k]) + Total(rows - {k}, w)
  }

  lemma {:induction false} TotalRemove(rows: map<Id, Row>, k: Id, w: Weight)
    requires k in rows
    ensures Total(rows, w) == Weigh(w, rows[k]) + Total(rows - {k}, w)
    decreases |rows|
  {
    var p :| p in rows && Total(rows, w) == Weigh(w, rows[p]) + Total(rows - {p}, w);
    if p != k {
      TotalRemove(rows - {p}, k, w);
      TotalRemove(rows - {k}, p, w);
      assert rows - {p} - {k} == rows - {k} - {p};
    }
  }

  /** Replacing or adding one row changes each total by exactly that row's weight. */
  lemma TotalUpdate(rows: map<Id, Row>, k: Id, r: Row, w: Weight)
    ensures Total(rows[k := r], w) + (if k in rows then Weigh(w, rows[k]) else 0) == Total(rows, w) + Weigh(w, r)
  {
    var after := rows[k := r];
    TotalRemove(after, k, w);
    assert after - {k} == rows - {k};
    if k in rows {
      TotalRemove(rows, k, w);
    } else {
      assert rows - {k} == rows;
    }
  }

  lemma TotalAtLeast(rows: map<Id, Row>, k: Id, w: Weight)
    requires k in rows
    ensures Total(rows, w) >= Weigh(w, rows[k])
  {
    TotalRemove(rows, k, w);
  }

  // ----- statements -----

  ghost predicate ReserveStoreGuard(db: Db, row: Row, p: Policy) {
    var n := row.metadata.reserved;
    var stages := Min(p.capabilityStages, p.limits.liveStages);
    && db.store.serial < I64_MAX
    && db.store.reserved <= p.limits.appBytes - db.store.used - n
    && db.store.objects < p.limits.objects
    && (row.anonymous ==> db.store.anonymousReserved <= p.anonymousBytes - db.store.anonymousUsed - n)
    && Total(db.rows, SubjectStages(row.metadata.binding.subject)) < stages
    && (row.anonymous ==> Total(db.rows, AnonymousStages) < p.anonymousStages)
  }

  predicate ReserveSubjectGuard(db: Db, row: Row, p: Policy) {
    var s := row.metadata.binding.subject;
    s in db.subjects ==>
      && db.subjects[s].anonymous == row.anonymous
      && db.subjects[s].objects < 65_536
      && (row.anonymous ==>
            db.subjects[s].reserved <= Min(p.capabilityBytes, I64_MAX) - db.subjects[s].used - row.metadata.reserved)
  }

  predicate SlotFree(db: Db, slot: Id) {
    forall k :: k in db.rows ==> db.rows[k].metadata.binding.slot != slot
  }

  function SubjectOrEmpty(db: Db, row: Row): Subject {
    var s := row.metadata.binding.subject;
    if s in db.subjects then db.subjects[s] else Subject(row.anonymous, 0, 0, 0)
  }

  function AddCharge(db: Db, row: Row, d: Delta, rows: map<Id, Row>): Db {
    var s := row.metadata.binding.subject;
    var sub := SubjectOrEmpty(db, row);
    var anon := if row.anonymous then 1 else 0;
    Db(rows,
       Counters(db.store.reserved + d.reserved, db.store.used + d.used, db.store.objects + d.objects,
                db.store.anonymousReserved + d.reserved * anon, db.store.anonymousUsed + d.used * anon,
                db.store.serial + 1),
       db.subjects[s := Subject(sub.anonymous, sub.reserved + d.reserved, sub.used + d.used, sub.objects + d.objects)])
  }

  predicate StageStoreGuard(db: Db, from: Row, bytes: nat) {
    var anon := if from.anonymous then 1 else 0;
    && db.store.reserved >= from.metadata.reserved
    && db.store.anonymousReserved >= from.metadata.reserved * anon
    && db.store.objects > 0
    && db.store.serial < I64_MAX
    && db.store.used <= I64_MAX - bytes
    && db.store.anonymousUsed <= I64_MAX - bytes * anon
  }

  predicate StageSubjectGuard(db: Db, from: Row, bytes: nat) {
    var s := from.metadata.binding.subject;
    && s in db.subjects
    && db.subjects[s].anonymous == from.anonymous
    && db.subjects[s].reserved >= from.metadata.reserved
    && db.subjects[s].objects > 0
    && db.subjects[s].used <= I64_MAX - bytes
  }

  predicate ReleaseStoreGuard(db: Db, from: Row) {
    var anon := if from.anonymous then 1 else 0;
    && db.store.reserved >= from.metadata.reserved
    && db.store.used >= from.metadata.bytes
    && db.store.objects > 0
    && db.store.anonymousReserved >= from.metadata.reserved * anon
    && db.store.anonymousUsed >= from.metadata.bytes * anon
    && db.store.serial < I64_MAX
  }

  predicate ReleaseSubjectGuard(db: Db, from: Row) {
    var s := from.metadata.binding.subject;
    && s in db.subjects
    && db.subjects[s].anonymous == from.anonymous
    && db.subjects[s].reserved >= from.metadata.reserved
    && db.subjects[s].used >= from.metadata.bytes
    && db.subjects[s].objects > 0
  }

  /** The row named by `from`, still in the state, generation and process it was read with. */
  predicate RowFence(db: Db, from: Row) {
    var k := from.metadata.key;
    && k in db.rows
    && db.rows[k].metadata.binding.slot == from.metadata.binding.slot
    && db.rows[k].metadata.state == from.metadata.state
    && db.rows[k].metadata.generation == from.metadata.generation
    && db.rows[k].process == from.process
  }

  function DropEmptySubject(db: Db, s: Id): Db {
    if s in db.subjects && db.subjects[s].reserved == 0 && db.subjects[s].used == 0 && db.subjects[s].objects == 0
    then db.(subjects := db.subjects - {s})
    else db
  }

  ghost function ApplyWrite(db: Db, w: Write): Option<Db> {
    match w
    case Insert(row, p) =>
      if && row.metadata.key !in db.rows
         && SlotFree(db, row.metadata.binding.slot)
         && ReserveStoreGuard(db, row, p)
         && ReserveSubjectGuard(db, row, p)
      then Some(AddCharge(db, row, Delta(row.metadata.reserved, 0, 1), db.rows[row.metadata.key := row]))
      else None
    case StageBlob(from, next, now) =>
      var k := from.metadata.key;
      if && StageStoreGuard(db, from, next.bytes)
         && StageSubjectGuard(db, from, next.bytes)
         && from.metadata.state == Uploading
         && RowFence(db, from)
         && db.rows[k].metadata.expires > now
         && db.rows[k].metadata.binding == next.binding
      then
        var m := db.rows[k].metadata.(
                 state := Staged, generation := next.generation, reserved := 0, bytes := next.bytes,
                 digest := next.digest, handle := next.handle);
        Some(AddCharge(db, from, Delta(-(from.metadata.reserved as int), next.bytes, 0),
                       db.rows[k := db.rows[k].(metadata := m)]))
      else None
    case ClaimForDeletion(from, next, process, now) =>
      var k := from.metadata.key;
      if RowFence(db, from)
      then
        var m := db.rows[k].metadata.(state := Deleting, generation := next.generation);
        Some(db.(rows := db.rows[k := db.rows[k].(metadata := m, claimed := now, process := process)]))
      else None
    case DeleteBlob(from, next, now) =>
      var k := from.metadata.key;
      if && ReleaseStoreGuard(db, from)
         && ReleaseSubjectGuard(db, from)
         && from.metadata.state == Deleting
         && RowFence(db, from)
      then
        var m := db.rows[k].metadata.(state := Deleted, generation := next.generation, reserved := 0, bytes := 0);
        Some(DropEmptySubject(
               AddCharge(db, from, Delta(-(from.metadata.reserved as int), -(from.metadata.bytes as int), -1),
                         db.rows[k := db.rows[k].(metadata := m, claimed := now)]),
               from.metadata.binding.subject))
      else None
  }

  /** Attachment, inside the receipt transaction that also locked the staged row. */
  function AttachBlob(db: Db, k: Id, now: int, handle: Handle, binding: Binding, a: Association): Result<Db>
    requires k in db.rows
  {
    var row := db.rows[k];
    var t :- Attach(row.metadata, row.metadata.generation, now, binding, handle, a);
    Ok(db.(rows := db.rows[k := row.(metadata := t.next)]))
  }

  /** Detachment, inside the transaction that deletes the owning record. */
  function UnreferenceBlob(db: Db, k: Id, a: Association): Result<Db>
    requires k in db.rows
  {
    var row := db.rows[k];
    var t :- Unreference(row.metadata, row.metadata.generation, a);
    Ok(db.(rows := db.rows[k := row.(metadata := t.next)]))
  }

  // ----- conservation -----

  ghost predicate SubjectConserved(db: Db, s: Id) {
    if s in db.subjects then
      && db.subjects[s].reserved == Total(db.rows, SubjectReserved(s))
      && db.subjects[s].used == Total(db.rows, SubjectUsed(s))
      && db.subjects[s].objects == Total(db.rows, SubjectObjects(s))
    else
      && Total(db.rows, SubjectReserved(s)) == 0
      && Total(db.rows, SubjectUsed(s)) == 0
      && Total(db.rows, SubjectObjects(s)) == 0
  }

  /** Every row still holding a charge was reserved under its subject's anonymity. */
  predicate SubjectKind(db: Db) {
    forall k :: k in db.rows && db.rows[k].metadata.state != Deleted ==>
      var s := db.rows[k].metadata.binding.subject;
      s in db.subjects && db.subjects[s].anonymous == db.rows[k].anonymous
  }

  ghost predicate StoreConserved(db: Db) {
    && db.store.reserved == Total(db.rows, Reserved)
    && db.store.used == Total(db.rows, Used)
    && db.store.objects == Total(db.rows, Objects)
    && db.store.anonymousReserved == Total(db.rows, AnonymousReserved)
    && db.store.anonymousUsed == Total(db.rows, AnonymousUsed)
  }

  /** The stored counters are exactly the sums over the rows. */
  ghost predicate Conserved(db: Db) {
    && StoreConserved(db)
    && (forall s :: SubjectConserved(db, s))
    && SubjectKind(db)
  }

  predicate SlotsUnique(db: Db) {
    forall j, k :: j in db.rows && k in db.rows && db.rows[j].metadata.binding.slot == db.rows[k].metadata.binding.slot
      ==> j == k
  }

  predicate KeysMatch(db: Db) {
    forall k :: k in db.rows ==> db.rows[k].metadata.key == k
  }

  predicate Shapely(db: Db) {
    forall k :: k in db.rows ==> Shape(db.rows[k].metadata)
  }

  ghost predicate DbInv(db: Db) {
    Conserved(db) && SlotsUnique(db) && KeysMatch(db) && Shapely(db)
  }
}
