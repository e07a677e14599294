/** Pure blob metadata transitions and quota arithmetic (crates/noxide-blobs/src/state.rs).

    Identities (object keys, commitments, process names) are opaque numbers: only their
    equality is ever inspected. A finalized upload handle is a hash over the
    slot, key, blob, length and digest; it is represented by those five values, so two
    finalized handles are equal exactly when everything they bind is equal. */
module BlobState {
  import opened Prelude
  import opened BlobLabels

  type Id = nat

  const MAX_UPLOAD_BYTES: nat := 10 * 1024 * 1024
  const MAX_APP_BLOB_BYTES: nat := 1024 * 1024 * 1024
  const MAX_APP_BLOB_OBJECTS: nat := 65_536
  const MAX_LIVE_STAGES: nat := 4
  const MAX_ANONYMOUS_STAGES: nat := 16
  const MAX_CAPABILITY_BYTES: nat := 40 * 1024 * 1024
  const STAGE_LIFETIME_MILLIS: nat := 15 * 60 * 1000

  datatype State = Uploading | Staged | Attached | Unreferenced | Deleting | Deleted

  datatype Binding = Binding(slot: Id, subject: Id, context: Id, input: Id)

  datatype Association = Association(resource: int, id: int, incarnation: string, field: string)

  datatype Handle =
    | Provisional(token: Id)
    | Finalized(slot: Id, key: Id, blob: Id, bytes: nat, digest: Digest)

  /** Evidence that data and both rename directories were synced. */
  datatype DurableObject = DurableObject(key: Id, bytes: nat, sha256: Digest)

  datatype Metadata = Metadata(
    blob: Id,
    handle: Handle,
    key: Id,
    binding: Binding,
    state: State,
    generation: nat,
    expires: int,
    reserved: nat,
    bytes: nat,
    digest: Option<Digest>,
    association: Option<Association>)

  datatype Delta = Delta(reserved: int, used: int, objects: int)

  const NO_CHARGE := Delta(0, 0, 0)

  /** A candidate row plus the generation it must replace. */
  datatype Transition = Transition(expected: nat, next: Metadata, quota: Delta)

  datatype GcClaim = GcClaim(key: Id, generation: nat)

  /** A proof that the native worker for one key and generation has stopped. */
  datatype StoppedIo = StoppedIo(key: Id, generation: nat, failedOrCancelled: bool)

  predicate IsAlphanumeric(c: char) {
    'a' <= c <= 'z' || 'A' <= c <= 'Z' || '0' <= c <= '9'
  }

  predicate ValidAssociation(a: Association) {
    && a.resource > 0
    && a.id > 0
    && 0 < |a.incarnation| <= 64
    && (forall i :: 0 <= i < |a.incarnation| ==>
          IsAlphanumeric(a.incarnation[i]) || a.incarnation[i] == '-' || a.incarnation[i] == '_')
    && 0 < |a.field| <= 64
    && (forall i :: 0 <= i < |a.field| ==> IsAlphanumeric(a.field[i]) || a.field[i] == '_')
  }

  function ExpectedHandle(m: Metadata, bytes: nat, digest: Digest): Handle {
    Finalized(m.binding.slot, m.key, m.blob, bytes, digest)
  }

  function Candidate(m: Metadata, expected: nat, state: State, quota: Delta): Result<Transition> {
    if m.generation != expected || expected + 1 > I64_MAX then Err
    else Ok(Transition(expected, m.(generation := expected + 1, state := state), quota))
  }

  predicate Fresh(m: Metadata, now: int, binding: Binding) {
    m.binding == binding && now < m.expires
  }

  function Stage(m: Metadata, expected: nat, durable: DurableObject, now: int, binding: Binding): Result<Transition> {
    if !Fresh(m, now, binding) then Err
    else if !(&& m.state == Uploading
              && m.reserved <= MAX_UPLOAD_BYTES
              && m.bytes == 0
              && m.digest.None?
              && m.association.None?
              && durable.key == m.key
              && durable.bytes <= m.reserved) then Err
    else
      var t :- Candidate(m, expected, Staged, Delta(-(m.reserved as int), durable.bytes, 0));
      Ok(t.(next := t.next.(
            reserved := 0,
            bytes := durable.bytes,
            digest := Some(durable.sha256),
            handle := ExpectedHandle(m, durable.bytes, durable.sha256))))
  }

  function Attach(m: Metadata, expected: nat, now: int, binding: Binding, handle: Handle, a: Association): Result<Transition> {
    if !Fresh(m, now, binding) || !ValidAssociation(a) then Err
    else if !(m.state == Staged && m.association.None? && m.handle == handle && m.digest.Some?) then Err
    else
      var t :- Candidate(m, expected, Attached, NO_CHARGE);
      Ok(t.(next := t.next.(association := Some(a))))
  }

  function Unreference(m: Metadata, expected: nat, a: Association): Result<Transition> {
    if m.state == Attached && m.association == Some(a)
    then Candidate(m, expected, Unreferenced, NO_CHARGE)
    else Err
  }

  function WithClaim(t: Result<Transition>): Result<(Transition, GcClaim)> {
    var transition :- t;
    Ok((transition, GcClaim(transition.next.key, transition.next.generation)))
  }

  function Claim(m: Metadata, expected: nat, now: int): Result<(Transition, GcClaim)> {
    if m.state == Unreferenced || (m.state == Staged && now >= m.expires)
    then WithClaim(Candidate(m, expected, Deleting, NO_CHARGE))
    else Err
  }

  function ClaimStoppedUpload(m: Metadata, expected: nat, now: int, stopped: StoppedIo): Result<(Transition, GcClaim)> {
    if && m.state == Uploading
       && stopped.key == m.key
       && stopped.generation == m.generation
       && (stopped.failedOrCancelled || now >= m.expires)
    then WithClaim(Candidate(m, expected, Deleting, NO_CHARGE))
    else Err
  }

  function RecoverPriorUpload(m: Metadata): Result<(Transition, GcClaim)> {
    if m.state == Uploading then WithClaim(Candidate(m, m.generation, Deleting, NO_CHARGE)) else Err
  }

  function ResumeDeletion(m: Metadata): Result<(Transition, GcClaim)> {
    if m.state == Deleting then WithClaim(Candidate(m, m.generation, Deleting, NO_CHARGE)) else Err
  }

  function MarkDeleted(m: Metadata, claim: GcClaim): Result<Transition> {
    if !(m.state == Deleting && m.key == claim.key && m.generation == claim.generation) then Err
    else
      var t :- Candidate(m, claim.generation, Deleted, Delta(-(m.reserved as int), -(m.bytes as int), -1));
      Ok(t.(next := t.next.(reserved := 0, bytes := 0)))
  }

  /** What a row in each state must look like; the stored-row decoder rejects anything else. */
  predicate Shape(m: Metadata) {
    && 0 < m.generation <= I64_MAX
    && m.reserved <= MAX_UPLOAD_BYTES
    && m.bytes <= MAX_UPLOAD_BYTES
    && (m.association.Some? ==> ValidAssociation(m.association.value))
    && (match m.state
        case Uploading => m.reserved > 0 && m.bytes == 0 && m.digest.None? && m.association.None?
        case Staged => m.reserved == 0 && m.digest.Some? && m.association.None?
        case Attached => m.reserved == 0 && m.digest.Some? && m.association.Some?
        case Unreferenced => m.reserved == 0 && m.digest.Some? && m.association.Some?
        case Deleting =>
          || (m.reserved > 0 && m.bytes == 0 && m.digest.None? && m.association.None?)
          || (m.reserved == 0 && m.digest.Some?)
        case Deleted => m.reserved == 0 && m.bytes == 0)
    && (m.state != Deleted && m.digest.Some? ==> m.handle == ExpectedHandle(m, m.bytes, m.digest.value))
  }

  // ----- quota -----

  datatype Limits = Limits(fileBytes: nat, appBytes: nat, objects: nat, liveStages: nat)

  predicate ValidLimits(l: Limits) {
    && 0 < l.fileBytes <= MAX_UPLOAD_BYTES
    && 0 < l.appBytes <= MAX_APP_BLOB_BYTES
    && l.fileBytes <= l.appBytes
    && 0 < l.objects <= MAX_APP_BLOB_OBJECTS
    && 0 < l.liveStages <= MAX_LIVE_STAGES
  }

  datatype Quota = Quota(reserved: nat, used: nat, objects: nat)

  function Add(value: nat, delta: int): Result<nat> {
    if 0 <= value + delta <= U64_MAX then Ok(value + delta) else Err
  }

  function Apply(q: Quota, delta: Delta, limits: Limits): Result<Quota> {
    if !ValidLimits(limits) then Err
    else
      var reserved :- Add(q.reserved, delta.reserved);
      var used :- Add(q.used, delta.used);
      var objects :- Add(q.objects, delta.objects);
      var before := q.reserved + q.used;
      var after := reserved + used;
      if !(before <= I64_MAX && after <= I64_MAX && q.objects <= I64_MAX && objects <= I64_MAX) then Err
      else if !(&& (after <= limits.appBytes || after <= before)
                && (objects <= limits.objects || objects <= q.objects)
                && (delta.objects <= 0 || (after <= limits.appBytes && objects <= limits.objects))) then Err
      else Ok(Quota(reserved, used, objects))
  }

  /** What a subject holds, and what it may. */
  datatype SubjectUsage = SubjectUsage(liveStages: nat, heldBytes: nat, stageLimit: nat, byteLimit: nat)

  predicate StageRoom(u: SubjectUsage, limits: Limits) {
    && 0 < u.stageLimit <= limits.liveStages
    && u.stageLimit <= MAX_LIVE_STAGES
    && u.liveStages < u.stageLimit
    && 0 < u.byteLimit <= MAX_UPLOAD_BYTES * MAX_LIVE_STAGES
  }

  predicate ByteRoom(u: SubjectUsage, bytes: nat) {
    u.heldBytes + bytes <= u.byteLimit
  }

  /** `Metadata::reserve`, the in-memory reference for reservations. */
  function Reserve(blob: Id, pending: Handle, key: Id, binding: Binding, now: int, bytes: nat,
                   limits: Limits, subject: SubjectUsage, quota: Quota): Result<(Metadata, Quota)> {
    if !ValidLimits(limits) || !(1 <= bytes <= limits.fileBytes) then Err
    else if !StageRoom(subject, limits) || !ByteRoom(subject, bytes) then Err
    else
      var next :- Apply(quota, Delta(bytes, 0, 1), limits);
      Ok((Metadata(blob, pending, key, binding, Uploading, 1, now + STAGE_LIFETIME_MILLIS, bytes, 0, None, None), next))
  }

  /** Lowering operator limits cannot block publication: whether the counters accept the
      staging delta does not depend on which valid limits are in force. */
  lemma PublicationIgnoresLimits(m: Metadata, expected: nat, durable: DurableObject, now: int, binding: Binding,
                                 q: Quota, l1: Limits, l2: Limits)
    requires ValidLimits(l1) && ValidLimits(l2)
    requires Stage(m, expected, durable, now, binding).Ok?
    ensures var d := Stage(m, expected, durable, now, binding).value.quota;
            && Apply(q, d, l1) == Apply(q, d, l2)
            && (q.reserved >= m.reserved && q.reserved + q.used <= I64_MAX && q.objects <= I64_MAX
                ==> Apply(q, d, l1) == Ok(Quota(q.reserved - m.reserved, q.used + durable.bytes, q.objects)))
  {
  }

  /** Nor can it block deletion. */
  lemma DeletionIgnoresLimits(m: Metadata, claim: GcClaim, q: Quota, l1: Limits, l2: Limits)
    requires ValidLimits(l1) && ValidLimits(l2)
    requires MarkDeleted(m, claim).Ok?
    ensures var d := MarkDeleted(m, claim).value.quota;
            && Apply(q, d, l1) == Apply(q, d, l2)
            && (q.reserved >= m.reserved && q.used >= m.bytes && q.objects > 0
                && q.reserved + q.used <= I64_MAX && q.objects <= I64_MAX
                ==> Apply(q, d, l1) == Ok(Quota(q.reserved - m.reserved, q.used - m.bytes, q.objects - 1)))
  {
  }

  /** At any moment a finished stage can be attached or reclaimed, never both, and before the
      generation is exhausted exactly one of the two is open to its owner or to collection. */
  lemma StageWindows(m: Metadata, now: int, a: Association)
    requires Shape(m) && m.state == Staged && m.generation < I64_MAX && ValidAssociation(a)
    ensures Attach(m, m.generation, now, m.binding, m.handle, a).Ok? <==> now < m.expires
    ensures Claim(m, m.generation, now).Ok? <==> now >= m.expires
    ensures forall binding, handle :: Attach(m, m.generation, now, binding, handle, a).Ok? ==> binding == m.binding && handle == m.handle
  {
  }

  /** Detaching undoes attaching: exactly the owner that was given succeeds, leaving the row
      unreferenced with everything else as it was. */
  lemma DetachAfterAttach(m: Metadata, now: int, handle: Handle, a: Association, b: Association)
    requires Attach(m, m.generation, now, m.binding, handle, a).Ok? && m.generation + 1 < I64_MAX
    ensures var attached := Attach(m, m.generation, now, m.binding, handle, a).value.next;
            var detached := Unreference(attached, attached.generation, b);
            && attached == m.(state := Attached, generation := m.generation + 1, association := Some(a))
            && (detached.Ok? <==> b == a)
            && (detached.Ok? ==>
                  && detached.value.next == m.(state := Unreferenced, generation := m.generation + 2, association := Some(a))
                  && detached.value.quota == NO_CHARGE)
  {
  }

  /** An upload that has not failed can be published until its stage expires and reclaimed only
      from then on, one that failed at any time; whatever is published names exactly the object that was written. */
  lemma UploadWindows(m: Metadata, now: int, durable: DurableObject, stopped: StoppedIo)
    requires Shape(m) && m.state == Uploading && m.generation < I64_MAX
    requires durable.key == m.key && durable.bytes <= m.reserved
    requires stopped.key == m.key && stopped.generation == m.generation && !stopped.failedOrCancelled
    ensures Stage(m, m.generation, durable, now, m.binding).Ok? <==> now < m.expires
    ensures ClaimStoppedUpload(m, m.generation, now, stopped).Ok? <==> now >= m.expires
    ensures ClaimStoppedUpload(m, m.generation, now, stopped.(failedOrCancelled := true)).Ok?
    ensures now < m.expires ==>
      var next := Stage(m, m.generation, durable, now, m.binding).value.next;
      && Shape(next) && next.state == Staged && next.bytes == durable.bytes && next.digest == Some(durable.sha256)
      && next.key == m.key && next.generation == m.generation + 1
  {
  }
}
