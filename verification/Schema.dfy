/** Application schema migrations (crates/noxide-admission/src/schema.rs). */
module Schema {
  import opened Prelude
  import opened Sorting

  // ----- schemas -----

  datatype Variant = Variant(key: string, caption: string)

  datatype Kind =
    | TextKind
    | AccountKind(scope: nat)
    | BooleanKind
    | BlobKind(maxBytes: nat)
    | UploadHandleKind(maxBytes: nat)
    | TimestampKind
    | DurationKind(maxMillis: int)
    | ReferenceKind(resource: string)
    | IntegerKind(min: Option<int>, max: Option<int>)
    | ChoiceKind(variants: seq<Variant>)

  datatype Field = Field(
    name: string, caption: string, kind: Kind, optional: bool, immutable: bool, initial: Option<string>, maxBytes: nat)

  datatype Expiry = Expiry(field: string, maxAfter: nat)

  datatype Gate = Gate(field: string, rule: nat)

  datatype Unique = Unique(reference: string, account: string)

  datatype Resource = Resource(
    id: nat, name: string, fields: seq<Field>, search: Option<nat>, expiry: Option<Expiry>, gate: Option<Gate>, unique: seq<Unique>)

  type Schema = seq<Resource>

  // ----- normal form -----

  function VariantKey(): Variant -> Key {
    (v: Variant) => [v.key]
  }

  function FieldKey(): Field -> Key {
    (f: Field) => [f.name]
  }

  function UniqueKey(): Unique -> Key {
    (u: Unique) => [u.reference, u.account]
  }

  function ResourceKey(): Resource -> Key {
    (r: Resource) => [r.name]
  }

  function Plain(variants: seq<Variant>): (r: seq<Variant>)
    ensures |r| == |variants| && forall i :: 0 <= i < |r| ==> r[i] == Variant(variants[i].key, variants[i].key)
  {
    seq(|variants|, i requires 0 <= i < |variants| => Variant(variants[i].key, variants[i].key))
  }

  function NormalKind(k: Kind): Kind {
    if k.ChoiceKind? then ChoiceKind(Sort(VariantKey(), Plain(k.variants))) else k
  }

  function NormalField(f: Field): Field {
    f.(caption := f.name, initial := None, kind := NormalKind(f.kind))
  }

  function NormalFields(fields: seq<Field>): (r: seq<Field>)
    ensures |r| == |fields| && forall i :: 0 <= i < |r| ==> r[i] == NormalField(fields[i])
  {
    seq(|fields|, i requires 0 <= i < |fields| => NormalField(fields[i]))
  }

  function NormalResource(r: Resource): Resource {
    r.(id := 0, fields := Sort(FieldKey(), NormalFields(r.fields)), unique := Sort(UniqueKey(), r.unique))
  }

  function NormalResources(s: Schema): (r: Schema)
    ensures |r| == |s| && forall i :: 0 <= i < |r| ==> r[i] == NormalResource(s[i])
  {
    seq(|s|, i requires 0 <= i < |s| => NormalResource(s[i]))
  }

  /** `normalized`: declaration order, identifiers and presentation are dropped. */
  function Normalized(s: Schema): Schema {
    Sort(ResourceKey(), NormalResources(s))
  }

  // ----- operations -----

  datatype Op =
    | AddSearchIndex(resource: string)
    | RebuildSearchIndex(resource: string)
    | RemoveSearchIndex(resource: string)
    | AddResource(resource: string)
    | DropResource(resource: string)
    | RenameResource(from: string, to: string)
    | AddField(resource: string, field: string, value: string)
    | DropField(resource: string, field: string)
    | RenameField(resource: string, from: string, to: string)
    | TextToInteger(resource: string, field: string)
    | IntegerToText(resource: string, field: string)
    | MapChoices(resource: string, field: string, mapping: map<string, string>)
    | ChangeField(resource: string, field: string)
    | ChangeResourceAuthority(resource: string)

  function ResourceAt(s: Schema, name: string): (r: Option<nat>)
    ensures r.Some? ==> r.value < |s| && s[r.value].name == name
    ensures r.None? ==> forall i :: 0 <= i < |s| ==> s[i].name != name
  {
    if s == [] then None
    else if s[0].name == name then Some(0)
    else
      var rest := ResourceAt(s[1..], name);
      if rest.None? then None else Some(rest.value + 1)
  }

  function FieldAt(fields: seq<Field>, name: string): (r: Option<nat>)
    ensures r.Some? ==> r.value < |fields| && fields[r.value].name == name
    ensures r.None? ==> forall i :: 0 <= i < |fields| ==> fields[i].name != name
  {
    if fields == [] then None
    else if fields[0].name == name then Some(0)
    else
      var rest := FieldAt(fields[1..], name);
      if rest.None? then None else Some(rest.value + 1)
  }

  /** The target's declaration of a field. */
  function Destination(target: Schema, resource: string, name: string): Result<Field> {
    var r := ResourceAt(target, resource);
    if r.None? then Err
    else
      var f := FieldAt(target[r.value].fields, name);
      if f.None? then Err else Ok(target[r.value].fields[f.value])
  }

  function OtherResources(s: Schema, name: string): (r: Schema)
    ensures forall x :: x in r <==> x in s && x.name != name
  {
    if s == [] then [] else (if s[0].name == name then [] else [s[0]]) + OtherResources(s[1..], name)
  }

  function OtherFields(fields: seq<Field>, name: string): (r: seq<Field>)
    ensures forall x :: x in r <==> x in fields && x.name != name
  {
    if fields == [] then [] else (if fields[0].name == name then [] else [fields[0]]) + OtherFields(fields[1..], name)
  }

  predicate SameKind(a: Kind, b: Kind) {
    match (a, b)
    case (AccountKind(x), AccountKind(y)) => x == y
    case (ReferenceKind(x), ReferenceKind(y)) => x == y
    case (TextKind, TextKind) => true
    case (BooleanKind, BooleanKind) => true
    case (TimestampKind, TimestampKind) => true
    case (DurationKind(_), DurationKind(_)) => true
    case (IntegerKind(_, _), IntegerKind(_, _)) => true
    case (ChoiceKind(_), ChoiceKind(_)) => true
    case _ => false
  }

  function Renamed(text: string, from: string, to: string): string {
    if text == from then to else text
  }

  function RenamedUnique(us: seq<Unique>, from: string, to: string): seq<Unique> {
    seq(|us|, i requires 0 <= i < |us| => Unique(Renamed(us[i].reference, from, to), Renamed(us[i].account, from, to)))
  }

  predicate HasVariant(k: Kind, key: string)
    requires k.ChoiceKind?
  {
    exists i :: 0 <= i < |k.variants| && k.variants[i].key == key
  }

  /** `canonical` is the field's own value check, which schema changes only consult. */
  type Canonical = (Field, string) -> bool

  /** Replace one existing field by the target's declaration of it, if `fits` allows. */
  function Adopt(target: Schema, r: Resource, name: string, fits: (Kind, Kind) -> bool): Result<Resource> {
    var at := FieldAt(r.fields, name);
    var destination :- Destination(target, r.name, name);
    if at.None? || !fits(r.fields[at.value].kind, destination.kind) then Err
    else Ok(r.(fields := r.fields[at.value := destination]))
  }

  function RenameIn(target: Schema, r: Resource, from: string, to: string): Result<Resource> {
    var at := FieldAt(r.fields, from);
    if FieldAt(r.fields, to).Some? || Destination(target, r.name, to).Err? || at.None? then Err
    else if r.fields[at.value].kind.BlobKind? then Err
    else
      Ok(r.(fields := r.fields[at.value := r.fields[at.value].(name := to, caption := to)],
            gate := if r.gate.Some? then Some(r.gate.value.(field := Renamed(r.gate.value.field, from, to))) else None,
            expiry := if r.expiry.Some? then Some(r.expiry.value.(field := Renamed(r.expiry.value.field, from, to))) else None,
            unique := RenamedUnique(r.unique, from, to)))
  }

  function AddIn(target: Schema, r: Resource, name: string, value: string, canonical: Canonical): Result<Resource> {
    var destination :- Destination(target, r.name, name);
    var k := destination.kind;
    if k.AccountKind? || k.ReferenceKind? || k.BlobKind? || k.UploadHandleKind? then Err
    else if !canonical(destination, value) || FieldAt(r.fields, name).Some? then Err
    else Ok(r.(fields := r.fields + [destination]))
  }

  function DropIn(r: Resource, name: string): Result<Resource> {
    var at := FieldAt(r.fields, name);
    if at.None? || r.fields[at.value].kind.BlobKind? then Err else Ok(r.(fields := OtherFields(r.fields, name)))
  }

  predicate MappingFits(mapping: map<string, string>, before: Kind, after: Kind) {
    && before.ChoiceKind? && after.ChoiceKind? && |mapping| <= 32
    && (forall k :: k in mapping ==> HasVariant(before, k) && HasVariant(after, mapping[k]))
  }

  /** An operation on one resource. */
  function Local(target: Schema, r: Resource, op: Op, canonical: Canonical): Result<Resource>
    requires !op.AddResource? && !op.DropResource? && !op.RenameResource?
  {
    var at := ResourceAt(target, r.name);
    match op
    case AddField(_, name, value) => AddIn(target, r, name, value, canonical)
    case DropField(_, name) => DropIn(r, name)
    case RenameField(_, from, to) => RenameIn(target, r, from, to)
    case TextToInteger(_, name) => Adopt(target, r, name, (a: Kind, b: Kind) => a.TextKind? && b.IntegerKind?)
    case IntegerToText(_, name) => Adopt(target, r, name, (a: Kind, b: Kind) => a.IntegerKind? && b.TextKind?)
    case MapChoices(_, name, mapping) => Adopt(target, r, name, (a: Kind, b: Kind) => MappingFits(mapping, a, b))
    case ChangeField(_, name) => Adopt(target, r, name, (a: Kind, b: Kind) => SameKind(a, b))
    case AddSearchIndex(_) =>
      if at.None? || target[at.value].search.None? || r.search.Some? then Err else Ok(r.(search := target[at.value].search))
    case RebuildSearchIndex(_) =>
      if at.None? || target[at.value].search.None? || r.search.None? then Err else Ok(r.(search := target[at.value].search))
    case RemoveSearchIndex(_) =>
      if (at.Some? && target[at.value].search.Some?) || r.search.None? then Err else Ok(r.(search := None))
    case ChangeResourceAuthority(_) =>
      if at.None? then Err
      else
        var d := target[at.value];
        Ok(r.(gate := d.gate, expiry := d.expiry, unique := d.unique))
  }

  predicate HasBlob(r: Resource) {
    exists i :: 0 <= i < |r.fields| && r.fields[i].kind.BlobKind?
  }

  /** One operation of `transition`. */
  function Apply(target: Schema, current: Schema, op: Op, canonical: Canonical): Result<Schema> {
    match op
    case AddResource(key) =>
      var at := ResourceAt(target, key);
      if ResourceAt(current, key).Some? || at.None? then Err else Ok(current + [target[at.value]])
    case DropResource(key) =>
      var at := ResourceAt(current, key);
      if at.None? || current[at.value].search.Some? || HasBlob(current[at.value]) then Err
      else Ok(OtherResources(current, key))
    case RenameResource(from, to) =>
      var at := ResourceAt(current, from);
      if at.None? || HasBlob(current[at.value]) || ResourceAt(current, to).Some? || ResourceAt(target, to).None? then Err
      else Ok(current[at.value := current[at.value].(name := to)])
    case _ =>
      var at := ResourceAt(current, op.resource);
      if at.None? then Err
      else
        var r :- Local(target, current[at.value], op, canonical);
        Ok(current[at.value := r])
  }

  function ApplyAll(target: Schema, current: Schema, ops: seq<Op>, canonical: Canonical): Result<Schema>
    decreases |ops|
  {
    if ops == [] then Ok(current)
    else
      var before :- ApplyAll(target, current, ops[..|ops| - 1], canonical);
      Apply(target, before, ops[|ops| - 1], canonical)
  }

  predicate DistinctResources(s: Schema) {
    forall i, j :: 0 <= i < j < |s| ==> s[i].name != s[j].name
  }

  /** `transition` accepts. */
  predicate Accepts(source: Schema, target: Schema, ops: seq<Op>, canonical: Canonical) {
    var final := ApplyAll(Normalized(target), Normalized(source), ops, canonical);
    final.Ok? && Normalized(final.value) == Normalized(target) && DistinctResources(final.value)
  }

  method Transition(source: Schema, target: Schema, ops: seq<Op>, canonical: Canonical) returns (ok: bool)
    ensures ok <==> Accepts(source, target, ops, canonical)
  {
    var current := Normalized(source);
    var goal := Normalized(target);
    for i := 0 to |ops|
      invariant ApplyAll(goal, Normalized(source), ops[..i], canonical) == Ok(current)
    {
      assert ops[..i + 1][..i] == ops[..i];
      var next := Apply(goal, current, ops[i], canonical);
      if next.Err? {
        FailsForGood(goal, Normalized(source), ops, i + 1, canonical);
        return false;
      }
      current := next.value;
    }
    assert ops[..|ops|] == ops;
    ok := Normalized(current) == goal && DistinctResources(current);
  }

  lemma {:induction false} FailsForGood(target: Schema, current: Schema, ops: seq<Op>, i: nat, canonical: Canonical)
    requires i <= |ops| && ApplyAll(target, current, ops[..i], canonical).Err?
    ensures ApplyAll(target, current, ops, canonical).Err?
    decreases |ops| - i
  {
    if i == |ops| {
      assert ops[..i] == ops;
    } else {
      assert ops[..i + 1][..i] == ops[..i];
      FailsForGood(target, current, ops, i + 1, canonical);
    }
  }
}
