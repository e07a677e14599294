/** Pairing a blob store directory with a database
    (crates/noxide-blobs/src/pairing.rs, crates/noxide-blobs/src/metadata.rs `prepare_pair` and
    `acknowledge_pair`, crates/noxide-blobs/src/runtime.rs `activate`).

    One store directory, any number of databases. The process holding the store's lock runs one
    activation; it may stop anywhere, the machine may crash and lose what was not synced, and a
    commit whose acknowledgment was lost may still be applied later. */
module Pairing {
  import opened Prelude

  type Db = nat
  type PairId = string

  // ----- the decision -----

  datatype Phase = Pending | Paired

  datatype PairRecord = PairRecord(store: nat, pair: PairId, phase: Phase, emptyMetadata: bool)

  datatype Observation = Observation(marker: Option<PairId>, pending: Option<string>, empty: bool)

  datatype PairStep = CreatePending | InstallMarker(pair: PairId) | Acknowledge(pair: PairId) | Ready(pair: PairId)

  /** This store's identity. */
  const OURS: nat := 0

  function Decide(obs: Observation, record: Option<PairRecord>): Result<PairStep> {
    match record
    case None =>
      if obs.marker.None? && obs.pending.None? && obs.empty then Ok(CreatePending) else Err
    case Some(r) =>
      if r.store != OURS then Err
      else if r.phase == Paired then
        if obs.pending.None? && obs.marker == Some(r.pair) then Ok(Ready(r.pair)) else Err
      else if !r.emptyMetadata || !obs.empty then Err
      else if obs.marker.Some? then
        if obs.marker.value == r.pair && obs.pending.None? then Ok(Acknowledge(r.pair)) else Err
      else if obs.pending.Some? && !(obs.pending.value <= r.pair) then Err
      else Ok(InstallMarker(r.pair))
  }

  // ----- the system -----

  /** The two names the protocol uses in the store's root. */
  datatype Disk = Disk(marker: Option<PairId>, pending: Option<string>)

  datatype StoreRecord = StoreRecord(store: nat, pair: PairId, phase: Phase)

  datatype CommitWrite = InsertPending(db: Db, pair: PairId) | CompletePair(db: Db, pair: PairId)

  datatype Stage = Check | Unlink | SyncUnlink | Create | Write | Rename | SyncMarker | Confirm

  /** Where the running activation is. */
  datatype Run =
    | Stopped
    | Observed(db: Db, obs: Observation)
    | Inserting(db: Db, pair: PairId)
    | Installing(db: Db, pair: PairId, stage: Stage)
    | Completing(db: Db, pair: PairId)
    | Serving(db: Db, pair: PairId)

  /** `live` is what the running system sees, `synced` what survives any crash. `issued` says for
      which database each random pair ID was drawn; `ready` remembers who ever became ready. */
  datatype Sys = Sys(
    records: map<Db, StoreRecord>,
    populated: set<Db>,
    late: set<CommitWrite>,
    live: Disk,
    synced: Disk,
    empty: bool,
    run: Run,
    issued: map<PairId, Db>,
    ready: map<Db, PairId>)

  /** Databases may already belong to other stores. */
  predicate Init(s: Sys) {
    && (forall d :: d in s.records ==> s.records[d].store != OURS)
    && s.late == {} && s.live == s.synced == Disk(None, None) && s.empty
    && s.run == Stopped && s.issued == map[] && s.ready == map[]
  }

  datatype Event =
    | Begin(db: Db)
    | Step(drawn: PairId)
    | Stop
    | Crash(after: Disk)
    | ApplyLate(write: CommitWrite)
    | Use(empty: bool, populated: bool)
    | Elsewhere(db: Db, record: StoreRecord)

  function Observe(s: Sys): Observation {
    Observation(s.live.marker, s.live.pending, s.empty)
  }

  function RecordOf(s: Sys, d: Db): Option<PairRecord> {
    if d in s.records
    then Some(PairRecord(s.records[d].store, s.records[d].pair, s.records[d].phase, d !in s.populated))
    else None
  }

  /** The statement's own guard decides whether a write takes effect. */
  function Apply(s: Sys, w: CommitWrite): Sys {
    match w
    case InsertPending(d, p) =>
      if d !in s.records && d !in s.populated then s.(records := s.records[d := StoreRecord(OURS, p, Pending)]) else s
    case CompletePair(d, p) =>
      if d in s.records && s.records[d] == StoreRecord(OURS, p, Pending) && d !in s.populated
      then s.(records := s.records[d := StoreRecord(OURS, p, Paired)]) else s
  }

  /** The run gives up. A commit it was waiting for may still be applied. */
  function Abandon(s: Sys): Sys {
    var left := match s.run
                case Inserting(d, p) => s.late + {InsertPending(d, p)}
                case Completing(d, p) => s.late + {CompletePair(d, p)}
                case _ => s.late;
    s.(run := Stopped, late := left)
  }

  /** The transaction that reads or creates the pair record. */
  function PrepareStep(s: Sys, d: Db, obs: Observation, drawn: PairId): Sys {
    var step := Decide(obs, RecordOf(s, d));
    if step.Err? then Abandon(s)
    else
      match step.value
      case CreatePending =>
        if d in s.populated then Abandon(s) else s.(run := Inserting(d, drawn), issued := s.issued[drawn := d])
      case Ready(p) => s.(run := Serving(d, p), ready := s.ready[d := p])
      case InstallMarker(p) => s.(run := Installing(d, p, Check))
      case Acknowledge(p) => s.(run := Installing(d, p, Check))
  }

  /** One file operation of `install_pair_observed`. */
  function InstallStep(s: Sys, d: Db, p: PairId, stage: Stage): Sys {
    match stage
    case Check =>
      var step := Decide(Observe(s), Some(PairRecord(OURS, p, Pending, true)));
      if step.Err? then Abandon(s)
      else if step.value.Acknowledge? then s.(run := Installing(d, p, SyncMarker))
      else s.(run := Installing(d, p, if s.live.pending.Some? then Unlink else Create))
    case Unlink => s.(live := s.live.(pending := None), run := Installing(d, p, SyncUnlink))
    case SyncUnlink => s.(synced := s.live, run := Installing(d, p, Create))
    case Create => if s.live.pending.Some? then Abandon(s) else s.(live := s.live.(pending := Some("")), run := Installing(d, p, Write))
    case Write => s.(live := s.live.(pending := Some(p)), run := Installing(d, p, Rename))
    case Rename => if s.live.marker.Some? then Abandon(s) else s.(live := Disk(Some(p), None), run := Installing(d, p, SyncMarker))
    case SyncMarker => s.(synced := s.live, run := Installing(d, p, Confirm))
    case Confirm => if s.live.marker == Some(p) then s.(run := Completing(d, p)) else Abandon(s)
  }

  /** The next step of the activation's own code; commits are acknowledged. */
  function CodeStep(s: Sys, drawn: PairId): Sys {
    match s.run
    case Observed(d, obs) => PrepareStep(s, d, obs, drawn)
    case Inserting(d, p) =>
      if d in s.records || d in s.populated then Abandon(s)
      else Apply(s, InsertPending(d, p)).(run := Installing(d, p, Check))
    case Installing(d, p, stage) => InstallStep(s, d, p, stage)
    case Completing(d, p) =>
      var after := Apply(s, CompletePair(d, p));
      if d in after.records && after.records[d] == StoreRecord(OURS, p, Paired)
      then after.(run := Serving(d, p), ready := s.ready[d := p])
      else Abandon(s)
    case _ => s
  }

  /** What a crash may leave: synced names stay, and an unsynced change is kept or undone. */
  predicate Survives(s: Sys, after: Disk) {
    && (after.marker == s.synced.marker || after.marker == s.live.marker)
    && (after.marker.Some? ==> after.pending.None?)
    && (after.pending.Some? ==>
          || (s.synced.pending.Some? && after.pending.value <= s.synced.pending.value)
          || (s.live.pending.Some? && after.pending.value <= s.live.pending.value)
          || (s.live.marker.Some? && after.pending.value <= s.live.marker.value)
          || (s.run.Installing? && s.run.stage in {Write, Rename} && after.pending.value <= s.run.pair))
  }

  predicate Next(s: Sys, e: Event, t: Sys) {
    match e
    case Begin(d) => s.run == Stopped && t == s.(run := Observed(d, Observe(s)))
    case Step(drawn) => drawn !in s.issued && t == CodeStep(s, drawn)
    case Stop => t == Abandon(s)
    case Crash(after) => Survives(s, after) && t == Abandon(s).(live := after, synced := after)
    case ApplyLate(w) => w in s.late && t == Apply(s, w)
    case Use(empty, populated) =>
      && s.run.Serving?
      && t == s.(empty := empty, populated := if populated then s.populated + {s.run.db} else s.populated - {s.run.db})
    case Elsewhere(d, r) =>
      && r.store != OURS && (d in s.records ==> s.records[d].store != OURS)
      && t == s.(records := s.records[d := r])
  }

  // ----- what every step keeps -----

  /** The pair ID was drawn for this database, whose record has it. */
  predicate Recorded(s: Sys, p: PairId) {
    p in s.issued && s.issued[p] in s.records
    && s.records[s.issued[p]].store == OURS && s.records[s.issued[p]].pair == p
  }

  predicate PendingBacked(s: Sys, bytes: string) {
    exists p :: p in s.issued && Recorded(s, p) && bytes <= p
  }

  predicate DiskBacked(s: Sys, disk: Disk) {
    && (disk.marker.Some? ==> Recorded(s, disk.marker.value))
    && (disk.pending.Some? ==> PendingBacked(s, disk.pending.value))
    && (disk.marker.Some? ==> disk.pending.None?)
  }

  predicate RecordsInv(s: Sys) {
    forall d :: d in s.records && s.records[d].store == OURS ==>
      && s.records[d].pair in s.issued && s.issued[s.records[d].pair] == d
      && (s.records[d].phase == Paired ==> s.synced.marker == Some(s.records[d].pair))
      && (s.records[d].phase == Pending ==> d !in s.populated)
  }

  predicate LateInv(s: Sys) {
    forall w :: w in s.late ==>
      w.pair in s.issued && s.issued[w.pair] == w.db && (w.CompletePair? ==> s.synced.marker == Some(w.pair))
  }

  predicate DisksInv(s: Sys) {
    DiskBacked(s, s.live) && DiskBacked(s, s.synced) && (s.synced.marker.Some? ==> s.live == s.synced)
  }

  /** Objects exist only once some database is paired. */
  predicate UseInv(s: Sys) {
    !s.empty ==>
      s.synced.marker.Some? && Recorded(s, s.synced.marker.value) && s.records[s.issued[s.synced.marker.value]].phase == Paired
  }

  predicate ReadyInv(s: Sys) {
    forall d :: d in s.ready ==> IsPaired(s, d, s.ready[d])
  }

  predicate IsPaired(s: Sys, d: Db, p: PairId) {
    d in s.records && s.records[d] == StoreRecord(OURS, p, Paired) && s.synced.marker == Some(p)
  }

  predicate HasRecord(s: Sys, d: Db, p: PairId) {
    d in s.records && s.records[d].store == OURS && s.records[d].pair == p
  }

  predicate RunInv(s: Sys) {
    match s.run
    case Stopped => true
    case Observed(d, obs) => obs == Observe(s)
    case Inserting(d, p) => p in s.issued && s.issued[p] == d
    case Installing(d, p, stage) => HasRecord(s, d, p) && StageInv(s, p, stage)
    case Completing(d, p) => HasRecord(s, d, p) && s.synced.marker == Some(p)
    case Serving(d, p) => IsPaired(s, d, p)
  }

  predicate StageInv(s: Sys, p: PairId, stage: Stage) {
    match stage
    case Check => true
    case Unlink => s.live.marker.None? && s.live.pending.Some? && s.live.pending.value <= p
    case SyncUnlink => s.live == Disk(None, None)
    case Create => s.live == Disk(None, None)
    case Write => s.live.marker.None?
    case Rename => s.live == Disk(None, Some(p))
    case SyncMarker => s.live == Disk(Some(p), None)
    case Confirm => s.live == s.synced == Disk(Some(p), None)
  }

  predicate Inv(s: Sys) {
    RecordsInv(s) && LateInv(s) && DisksInv(s) && UseInv(s) && ReadyInv(s) && RunInv(s)
  }

  // ----- the invariant is kept -----

  /** Facts that only grow: drawn IDs, our records, the synced marker. */
  ghost predicate Grows(s: Sys, t: Sys) {
    && (forall p :: p in s.issued ==> p in t.issued && t.issued[p] == s.issued[p])
    && (forall d, p :: HasRecord(s, d, p) ==> HasRecord(t, d, p))
    && (s.synced.marker.Some? ==> t.synced.marker == s.synced.marker && t.live.marker == s.synced.marker)
    && (forall d, p :: IsPaired(s, d, p) ==> IsPaired(t, d, p))
    && (forall d :: d in s.ready ==> d in t.ready && t.ready[d] == s.ready[d])
  }

  lemma AbandonKeepsInv(s: Sys)
    requires Inv(s)
    ensures Inv(Abandon(s)) && Grows(s, Abandon(s))
  {
    var t := Abandon(s);
    assert forall p :: Recorded(s, p) ==> Recorded(t, p);
  }

  lemma ApplyKeepsInv(s: Sys, w: CommitWrite)
    requires Inv(s) && w.pair in s.issued && s.issued[w.pair] == w.db && (w.CompletePair? ==> s.synced.marker == Some(w.pair))
    ensures Inv(Apply(s, w)) && Grows(s, Apply(s, w))
  {
    var t := Apply(s, w);
    assert forall p :: Recorded(s, p) ==> Recorded(t, p);
  }

  /** Only the run moves, and perhaps its database becomes ready. */
  lemma MoveKeepsInv(s: Sys, t: Sys)
    requires Inv(s) && t == s.(run := t.run, ready := t.ready) && RunInv(t) && ReadyInv(t)
    requires forall d :: d in s.ready ==> d in t.ready && t.ready[d] == s.ready[d]
    ensures Inv(t) && Grows(s, t)
  {
    assert forall p :: Recorded(s, p) ==> Recorded(t, p);
  }

  /** Only the directory changes, and no synced marker with it. */
  lemma DiskKeepsInv(s: Sys, t: Sys)
    requires Inv(s) && t == s.(run := t.run, live := t.live, synced := t.synced) && RunInv(t)
    requires DiskBacked(s, t.live) && DiskBacked(s, t.synced) && (t.synced.marker.Some? ==> t.live == t.synced)
    requires s.synced.marker.Some? ==> t.synced == s.synced && t.live == s.live
    ensures Inv(t) && Grows(s, t)
  {
    assert forall p :: Recorded(s, p) == Recorded(t, p);
  }

  lemma InstallKeepsInv(s: Sys)
    requires Inv(s) && s.run.Installing?
    ensures var t := InstallStep(s, s.run.db, s.run.pair, s.run.stage); Inv(t) && Grows(s, t)
  {
    var t := InstallStep(s, s.run.db, s.run.pair, s.run.stage);
    AbandonKeepsInv(s);
    if t != Abandon(s) {
      assert Recorded(s, s.run.pair);
      assert "" <= s.run.pair && PendingBacked(s, s.run.pair);
      DiskKeepsInv(s, t);
    }
  }

  lemma DrawKeepsInv(s: Sys, d: Db, drawn: PairId)
    requires Inv(s) && drawn !in s.issued
    ensures var t := s.(run := Inserting(d, drawn), issued := s.issued[drawn := d]); Inv(t) && Grows(s, t)
  {
    var t := s.(run := Inserting(d, drawn), issued := s.issued[drawn := d]);
    assert forall p :: Recorded(s, p) ==> Recorded(t, p);
  }

  lemma PrepareKeepsInv(s: Sys, drawn: PairId)
    requires Inv(s) && s.run.Observed? && drawn !in s.issued
    ensures var t := PrepareStep(s, s.run.db, s.run.obs, drawn); Inv(t) && Grows(s, t)
  {
    AbandonKeepsInv(s);
    DrawKeepsInv(s, s.run.db, drawn);
    var t := PrepareStep(s, s.run.db, s.run.obs, drawn);
    if t.run.Serving? || t.run.Installing? {
      MoveKeepsInv(s, t);
    }
  }

  lemma CodeKeepsInv(s: Sys, drawn: PairId)
    requires Inv(s) && drawn !in s.issued
    ensures Inv(CodeStep(s, drawn)) && Grows(s, CodeStep(s, drawn))
  {
    match s.run
    case Observed(_, _) => PrepareKeepsInv(s, drawn);
    case Inserting(d, p) =>
      AbandonKeepsInv(s);
      ApplyKeepsInv(s, InsertPending(d, p));
      if d !in s.records && d !in s.populated {
        MoveKeepsInv(Apply(s, InsertPending(d, p)), CodeStep(s, drawn));
      }
    case Installing(_, _, _) => InstallKeepsInv(s);
    case Completing(d, p) =>
      AbandonKeepsInv(s);
      ApplyKeepsInv(s, CompletePair(d, p));
      var after := Apply(s, CompletePair(d, p));
      if d in after.records && after.records[d] == StoreRecord(OURS, p, Paired) {
        MoveKeepsInv(after, CodeStep(s, drawn));
      }
    case _ =>
  }

  lemma CrashKeepsInv(s: Sys, after: Disk)
    requires Inv(s) && Survives(s, after)
    ensures var t := Abandon(s).(live := after, synced := after); Inv(t) && Grows(s, t)
  {
    var t := Abandon(s).(live := after, synced := after);
    assert forall p :: Recorded(s, p) ==> Recorded(t, p);
    if s.run.Installing? {
      assert Recorded(s, s.run.pair);
    }
  }

  lemma NextKeepsInv(s: Sys, e: Event, t: Sys)
    requires Inv(s) && Next(s, e, t)
    ensures Inv(t) && Grows(s, t)
  {
    match e
    case Step(drawn) => CodeKeepsInv(s, drawn);
    case Stop => AbandonKeepsInv(s);
    case Crash(after) => CrashKeepsInv(s, after);
    case ApplyLate(w) => ApplyKeepsInv(s, w);
    case _ => assert forall p :: Recorded(s, p) ==> Recorded(t, p);
  }

  /** The one file an activation ever removes is a beginning of its own pair ID. */
  lemma RemovesOnlyItsOwn(s: Sys, drawn: PairId)
    requires Inv(s) && s.live.pending.Some? && CodeStep(s, drawn).live == Disk(None, None)
    ensures s.run.Installing? && s.run.stage == Unlink && HasRecord(s, s.run.db, s.run.pair)
    ensures s.live.pending.value <= s.run.pair
  {
  }

  /** After each of the two directory syncs a crash leaves exactly what is there. */
  lemma SyncedSurvives(s: Sys, drawn: PairId, after: Disk)
    requires Inv(s) && s.run.Installing? && (s.run.stage == SyncUnlink || s.run.stage == SyncMarker)
    requires Survives(CodeStep(s, drawn), after)
    ensures after == s.live && s.live.pending.None? && s.live.marker == (if s.run.stage == SyncMarker then Some(s.run.pair) else None)
  {
  }

  // ----- whole runs -----

  predicate Trace(states: seq<Sys>, events: seq<Event>) {
    && |states| == |events| + 1
    && (forall i :: 0 <= i < |events| ==> Next(states[i], events[i], states[i + 1]))
  }

  lemma {:induction false} TraceKeepsInv(states: seq<Sys>, events: seq<Event>, i: nat)
    requires Trace(states, events) && Inv(states[0]) && i <= |events|
    ensures Inv(states[i])
  {
    if i > 0 {
      TraceKeepsInv(states, events, i - 1);
      NextKeepsInv(states[i - 1], events[i - 1], states[i]);
    }
  }

  /** Over every run of any databases, stops and crashes: at most one database ever becomes
      ready, and it is the one the installed marker names. */
  lemma AtMostOneReady(states: seq<Sys>, events: seq<Event>, d: Db, e: Db)
    requires Trace(states, events) && Init(states[0])
    requires d in states[|events|].ready && e in states[|events|].ready
    ensures d == e && states[|events|].synced.marker == Some(states[|events|].ready[d])
  {
    assert Inv(states[0]);
    TraceKeepsInv(states, events, |events|);
    var s := states[|events|];
    assert IsPaired(s, d, s.ready[d]) && IsPaired(s, e, s.ready[e]);
  }

  /** Once synced, the marker stays what it is, live and after any crash; a database's pair ID
      never changes; and whoever was ready stays ready with the same ID. */
  lemma {:induction false} PairingIsPermanent(states: seq<Sys>, events: seq<Event>, i: nat, j: nat)
    requires Trace(states, events) && Inv(states[0]) && i <= j <= |events|
    ensures Grows(states[i], states[j])
  {
    TraceKeepsInv(states, events, i);
    if i < j {
      PairingIsPermanent(states, events, i, j - 1);
      TraceKeepsInv(states, events, j - 1);
      NextKeepsInv(states[j - 1], events[j - 1], states[j]);
    } else {
      var s := states[i];
      assert Grows(s, s);
    }
  }

  // ----- recovery -----

  /** No other database has, or may still get, a record for this store. */
  predicate Alone(s: Sys, d: Db) {
    && (forall e :: e in s.records && e != d ==> s.records[e].store != OURS)
    && (forall w :: w in s.late ==> w.db == d)
  }

  /** A recovery run under way. */
  predicate OnTrack(s: Sys, d: Db, p: PairId) {
    && Inv(s) && Alone(s, d) && HasRecord(s, d, p)
    && match s.run
       case Observed(e, _) => e == d
       case Installing(e, q, _) => e == d && q == p && s.empty
       case Completing(e, q) => e == d && q == p
       case Serving(e, q) => e == d && q == p && d in s.ready && s.ready[d] == p
       case _ => false
  }

  function StepsLeft(run: Run): nat {
    match run
    case Observed(_, _) => 10
    case Installing(_, _, stage) =>
      (match stage
       case Check => 9
       case Unlink => 8
       case SyncUnlink => 7
       case Create => 6
       case Write => 5
       case Rename => 4
       case SyncMarker => 3
       case Confirm => 2)
    case Completing(_, _) => 1
    case _ => 0
  }

  /** While no other database interferes, everything in the directory is this pair's. */
  lemma OnlyOurs(s: Sys, d: Db, p: PairId)
    requires Inv(s) && Alone(s, d) && HasRecord(s, d, p)
    ensures s.live.marker.Some? ==> s.live.marker.value == p && s.live.pending.None?
    ensures s.live.pending.Some? ==> s.live.pending.value <= p
    ensures !s.empty ==> s.records[d].phase == Paired
  {
    assert forall q :: Recorded(s, q) ==> q == p;
  }

  /** No check of the recovery run fails, and each of its steps brings it closer. */
  lemma RecoveryStep(s: Sys, d: Db, p: PairId, drawn: PairId)
    requires OnTrack(s, d, p) && drawn !in s.issued
    ensures var t := CodeStep(s, drawn);
            OnTrack(t, d, p) && (s.run.Serving? ==> t == s) && (!s.run.Serving? ==> StepsLeft(t.run) < StepsLeft(s.run))
  {
    CodeKeepsInv(s, drawn);
    if s.run.Observed? {
      PreparedOnTrack(s, d, p, drawn);
    } else if s.run.Installing? {
      InstallOnTrack(s, d, p);
    }
  }

  lemma PreparedOnTrack(s: Sys, d: Db, p: PairId, drawn: PairId)
    requires OnTrack(s, d, p) && s.run.Observed?
    ensures var t := PrepareStep(s, d, s.run.obs, drawn);
            (t.run == Serving(d, p) && t == s.(run := t.run, ready := s.ready[d := p]))
            || (t.run == Installing(d, p, Check) && t == s.(run := t.run) && s.empty)
  {
    OnlyOurs(s, d, p);
  }

  lemma InstallOnTrack(s: Sys, d: Db, p: PairId)
    requires OnTrack(s, d, p) && s.run.Installing?
    ensures var t := InstallStep(s, d, p, s.run.stage);
            && t == s.(run := t.run, live := t.live, synced := t.synced)
            && (t.run == Completing(d, p) || (t.run.Installing? && t.run.db == d && t.run.pair == p))
            && StepsLeft(t.run) < StepsLeft(s.run)
  {
    OnlyOurs(s, d, p);
  }

  lemma RecoveryLate(s: Sys, d: Db, p: PairId, w: CommitWrite)
    requires OnTrack(s, d, p) && w in s.late
    ensures OnTrack(Apply(s, w), d, p) && Apply(s, w).run == s.run
  {
    ApplyKeepsInv(s, w);
  }

  function CodeSteps(events: seq<Event>): nat {
    if events == [] then 0 else CodeSteps(events[..|events| - 1]) + (if events[|events| - 1].Step? then 1 else 0)
  }

  lemma {:induction false} RecoveryProgress(states: seq<Sys>, events: seq<Event>, d: Db, p: PairId)
    requires Trace(states, events) && OnTrack(states[0], d, p)
    requires forall i :: 0 <= i < |events| ==> events[i].Step? || events[i].ApplyLate?
    ensures var last := states[|events|];
            OnTrack(last, d, p) && (last.run.Serving? || StepsLeft(last.run) + CodeSteps(events) <= StepsLeft(states[0].run))
    decreases |events|
  {
    if events != [] {
      var n := |events| - 1;
      RecoveryProgress(states[..n + 1], events[..n], d, p);
      var s, e := states[n], events[n];
      assert Next(s, e, states[n + 1]);
      if e.Step? {
        RecoveryStep(s, d, p, e.drawn);
      } else {
        RecoveryLate(s, d, p, e.write);
      }
    }
  }

  /** From any state a stop or crash can leave once the pending record is committed, with no other
      database involved, activating again succeeds: whatever old commits arrive in between, after
      at most ten of its own steps the database is ready with the same pair ID. */
  lemma RecoveryReachesReady(s: Sys, states: seq<Sys>, events: seq<Event>, d: Db, p: PairId)
    requires Inv(s) && s.run == Stopped && HasRecord(s, d, p) && Alone(s, d)
    requires Trace(states, events) && Next(s, Begin(d), states[0])
    requires forall i :: 0 <= i < |events| ==> events[i].Step? || events[i].ApplyLate?
    requires CodeSteps(events) >= 10
    ensures var last := states[|events|];
            last.run == Serving(d, p) && d in last.ready && last.ready[d] == p && IsPaired(last, d, p)
  {
    NextKeepsInv(s, Begin(d), states[0]);
    assert OnTrack(states[0], d, p);
    RecoveryProgress(states, events, d, p);
  }

  // ----- the first activation -----

  /** A store or a database with contents is only ever served under the marker that names it. */
  lemma ContentsNeedTheirMarker(obs: Observation, record: Option<PairRecord>)
    requires Decide(obs, record).Ok?
    requires !obs.empty || (record.Some? && !record.value.emptyMetadata)
    ensures record.Some? && record.value.phase == Paired && record.value.store == OURS
    ensures obs.marker == Some(record.value.pair) && obs.pending.None?
    ensures Decide(obs, record) == Ok(Ready(record.value.pair))
  {
  }

  /** Nothing has been put into the store, and the database holds no blobs. */
  predicate Untouched(s: Sys, d: Db) {
    s.live == Disk(None, None) && s.empty && d !in s.populated
  }

  /** What may happen around a run of this database's activation: its own steps, late commits of
      other databases, and other databases' dealings with other stores. */
  predicate Bystander(e: Event, d: Db) {
    e.Step? || (e.ApplyLate? && e.write.db != d) || (e.Elsewhere? && e.db != d)
  }

  /** The pair ID drawn by the first of the run's own steps. */
  function FirstDrawn(events: seq<Event>): Option<PairId> {
    if events == [] then None
    else
      var n := |events| - 1;
      var before := FirstDrawn(events[..n]);
      if before.None? && events[n].Step? then Some(events[n].drawn) else before
  }

  /** An activation that found the store untouched and its database unpaired. */
  predicate Founding(s: Sys, d: Db) {
    && Inv(s) && s.empty && d !in s.populated
    && match s.run
       case Observed(e, _) => e == d && d !in s.records && s.live == Disk(None, None)
       case Inserting(e, _) => e == d && d !in s.records && s.live == Disk(None, None)
       case Installing(e, p, stage) =>
         && e == d && s.records[d].phase == Pending
         && stage != Unlink && stage != SyncUnlink
         && (stage == Check ==> s.live == Disk(None, None))
       case Completing(e, p) => e == d && s.records[d].phase == Pending
       case Serving(e, p) => e == d && d in s.ready && s.ready[d] == p
       case _ => false
  }

  function FoundingLeft(run: Run): nat {
    match run
    case Observed(_, _) => 9
    case Inserting(_, _) => 8
    case Installing(_, _, stage) =>
      (match stage
       case Create => 6
       case Write => 5
       case Rename => 4
       case SyncMarker => 3
       case Confirm => 2
       case _ => 7)
    case Completing(_, _) => 1
    case _ => 0
  }

  /** The pair ID the run works with, once it has one. */
  function PairOf(run: Run): Option<PairId> {
    match run
    case Inserting(_, p) => Some(p)
    case Installing(_, p, _) => Some(p)
    case Completing(_, p) => Some(p)
    case Serving(_, p) => Some(p)
    case _ => None
  }

  /** Every step of the run's own succeeds and brings it closer, with the ID it drew. */
  lemma FoundingStep(s: Sys, d: Db, drawn: PairId)
    requires Founding(s, d) && drawn !in s.issued
    ensures var t := CodeStep(s, drawn);
            && Founding(t, d)
            && (if s.run.Serving? then t == s else FoundingLeft(t.run) < FoundingLeft(s.run))
            && PairOf(t.run) == if s.run.Observed? then Some(drawn) else PairOf(s.run)
  {
    CodeKeepsInv(s, drawn);
  }

  lemma FoundingUndisturbed(s: Sys, d: Db, e: Event, t: Sys)
    requires Founding(s, d) && Bystander(e, d) && !e.Step? && Next(s, e, t)
    ensures Founding(t, d) && t.run == s.run
  {
    NextKeepsInv(s, e, t);
  }

  lemma {:induction false} FoundingProgress(states: seq<Sys>, events: seq<Event>, d: Db)
    requires Trace(states, events) && Founding(states[0], d) && states[0].run.Observed?
    requires forall i :: 0 <= i < |events| ==> Bystander(events[i], d)
    ensures var last := states[|events|];
            && Founding(last, d) && PairOf(last.run) == FirstDrawn(events)
            && (last.run.Observed? <==> FirstDrawn(events).None?)
            && (last.run.Serving? || FoundingLeft(last.run) + CodeSteps(events) <= 9)
    decreases |events|
  {
    if events != [] {
      var n := |events| - 1;
      FoundingProgress(states[..n + 1], events[..n], d);
      var s, e := states[n], events[n];
      assert Next(s, e, states[n + 1]);
      if e.Step? {
        FoundingStep(s, d, e.drawn);
      } else {
        FoundingUndisturbed(s, d, e, states[n + 1]);
      }
    }
  }

  /** An activation that must not found a pair: refused at its first step, nothing written. */
  predicate Refused(before: Sys, s: Sys, d: Db, stepped: bool) {
    && Inv(s) && d !in s.records
    && s.live == before.live && s.synced == before.synced && s.ready == before.ready && s.issued == before.issued
    && s.empty == before.empty && (d in s.populated <==> d in before.populated)
    && (s.run == Stopped || (!stepped && s.run == Observed(d, Observe(s))))
  }

  lemma RefusedStep(before: Sys, s: Sys, d: Db, stepped: bool, e: Event, t: Sys)
    requires Refused(before, s, d, stepped) && Bystander(e, d) && Next(s, e, t) && !Untouched(before, d)
    ensures Refused(before, t, d, stepped || e.Step?)
  {
    NextKeepsInv(s, e, t);
  }

  lemma {:induction false} RefusedProgress(before: Sys, states: seq<Sys>, events: seq<Event>, d: Db)
    requires Trace(states, events) && Refused(before, states[0], d, false) && !Untouched(before, d)
    requires forall i :: 0 <= i < |events| ==> Bystander(events[i], d)
    ensures Refused(before, states[|events|], d, CodeSteps(events) > 0)
    decreases |events|
  {
    if events != [] {
      var n := |events| - 1;
      RefusedProgress(before, states[..n + 1], events[..n], d);
      assert Next(states[n], events[n], states[n + 1]);
      RefusedStep(before, states[n], d, CodeSteps(events[..n]) > 0, events[n], states[n + 1]);
    }
  }

  /** Activating an unpaired database, from any state a stop or crash can leave. After nine of its
      own steps, whatever other databases do meanwhile, it is ready if and only if the store had no
      marker, no pending file and no objects and the database no rows. Then its record and the
      synced marker carry the pair ID it drew; otherwise it has stopped with no record, and neither
      the store nor anyone's readiness has changed. */
  lemma UnpairedActivation(s: Sys, states: seq<Sys>, events: seq<Event>, d: Db)
    requires Inv(s) && s.run == Stopped && d !in s.records
    requires Trace(states, events) && Next(s, Begin(d), states[0])
    requires forall i :: 0 <= i < |events| ==> Bystander(events[i], d)
    requires CodeSteps(events) >= 9
    ensures var last := states[|events|];
            d in last.ready <==> s.live.marker.None? && s.live.pending.None? && s.empty && d !in s.populated
    ensures var last, p := states[|events|], FirstDrawn(events);
            if d in last.ready then
              p.Some? && last.run == Serving(d, p.value) && last.ready[d] == p.value && IsPaired(last, d, p.value)
            else
              && last.run == Stopped && d !in last.records
              && last.live == s.live && last.synced == s.synced && last.ready == s.ready
  {
    NextKeepsInv(s, Begin(d), states[0]);
    assert d in s.ready ==> IsPaired(s, d, s.ready[d]);
    if Untouched(s, d) {
      FoundingProgress(states, events, d);
    } else {
      RefusedProgress(s, states, events, d);
    }
  }

  /** The first activation of all succeeds: an empty store and an unpaired, empty database. */
  lemma FirstActivation(s: Sys, states: seq<Sys>, events: seq<Event>, d: Db)
    requires Init(s) && d !in s.records && d !in s.populated
    requires Trace(states, events) && Next(s, Begin(d), states[0])
    requires forall i :: 0 <= i < |events| ==> Bystander(events[i], d)
    requires CodeSteps(events) >= 9
    ensures var last, p := states[|events|], FirstDrawn(events);
            p.Some? && last.run == Serving(d, p.value) && d in last.ready && last.ready[d] == p.value && IsPaired(last, d, p.value)
  {
    UnpairedActivation(s, states, events, d);
  }
}
