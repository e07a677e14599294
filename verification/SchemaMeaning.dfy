/** What a migration means: updates of a map from names to resources, whatever the declaration
    order. A migration is accepted if and only if these updates are all permitted and reach the
    target. */
module SchemaMeaning {
  import opened Prelude
  import opened Sorting
  import opened Schema
  import opened SchemaLaws
  import opened SchemaOrder

  // ----- schemas as maps -----

  datatype Shape = Shape(
    fields: map<string, Field>, search: Option<nat>, expiry: Option<Expiry>, gate: Option<Gate>, unique: seq<Unique>)

  type Shapes = map<string, Shape>

  function FieldNames(fields: seq<Field>): set<string> {
    set f | f in fields :: f.name
  }

  function FieldMap(fields: seq<Field>): map<string, Field> {
    map n | n in FieldNames(fields) :: fields[FieldAt(fields, n).value]
  }

  function ShapeOf(r: Resource): Shape {
    Shape(FieldMap(r.fields), r.search, r.expiry, r.gate, r.unique)
  }

  function ResourceNames(s: Schema): set<string> {
    set r | r in s :: r.name
  }

  function ShapesOf(s: Schema): Shapes {
    map n | n in ResourceNames(s) :: ShapeOf(s[ResourceAt(s, n).value])
  }

  // ----- what operations mean -----

  predicate Permanent(k: Kind) {
    k.AccountKind? || k.ReferenceKind? || k.BlobKind? || k.UploadHandleKind?
  }

  predicate HoldsBlob(s: Shape) {
    exists n :: n in s.fields && s.fields[n].kind.BlobKind?
  }

  /** A stored value of the one kind can be carried over to the other by this operation. */
  predicate Converts(op: Op, before: Kind, after: Kind) {
    match op
    case TextToInteger(_, _) => before.TextKind? && after.IntegerKind?
    case IntegerToText(_, _) => before.IntegerKind? && after.TextKind?
    case MapChoices(_, _, mapping) =>
      && before.ChoiceKind? && after.ChoiceKind? && |mapping| <= 32
      && (forall k :: k in mapping ==>
            && (exists v :: v in before.variants && v.key == k)
            && (exists v :: v in after.variants && v.key == mapping[k]))
    case ChangeField(_, _) =>
      && !before.BlobKind? && !before.UploadHandleKind?
      && (match after
          case AccountKind(_) => before == after
          case ReferenceKind(_) => before == after
          case TextKind => before.TextKind?
          case BooleanKind => before.BooleanKind?
          case TimestampKind => before.TimestampKind?
          case DurationKind(_) => before.DurationKind?
          case IntegerKind(_, _) => before.IntegerKind?
          case ChoiceKind(_) => before.ChoiceKind?
          case BlobKind(_) => false
          case UploadHandleKind(_) => false)
    case _ => false
  }

  /** Operations that carry a field's stored values over to the target's declaration of it. */
  predicate Carries(op: Op) {
    op.TextToInteger? || op.IntegerToText? || op.MapChoices? || op.ChangeField?
  }

  function RenamedShape(s: Shape, from: string, to: string): Shape
    requires from in s.fields
  {
    Shape((s.fields - {from})[to := s.fields[from].(name := to, caption := to)],
          s.search,
          if s.expiry.Some? && s.expiry.value.field == from then Some(s.expiry.value.(field := to)) else s.expiry,
          if s.gate.Some? && s.gate.value.field == from then Some(s.gate.value.(field := to)) else s.gate,
          RenamedUnique(s.unique, from, to))
  }

  /** One resource under one operation, given what the target makes of it, if the target has it. */
  function Reshaped(goal: Option<Shape>, now: Shape, op: Op, canonical: Canonical): Option<Shape>
    requires !op.AddResource? && !op.DropResource? && !op.RenameResource?
  {
    if Carries(op) then
      if goal.Some? && op.field in goal.value.fields && op.field in now.fields
         && Converts(op, now.fields[op.field].kind, goal.value.fields[op.field].kind)
      then Some(now.(fields := now.fields[op.field := goal.value.fields[op.field]])) else None
    else
    match op
    case AddField(_, f, value) =>
      if && goal.Some? && f in goal.value.fields && f !in now.fields
         && !Permanent(goal.value.fields[f].kind) && canonical(goal.value.fields[f], value)
      then Some(now.(fields := now.fields[f := goal.value.fields[f]])) else None
    case DropField(_, f) =>
      if f in now.fields && !now.fields[f].kind.BlobKind? then Some(now.(fields := now.fields - {f})) else None
    case RenameField(_, from, to) =>
      if && from in now.fields && to !in now.fields && !now.fields[from].kind.BlobKind?
         && goal.Some? && to in goal.value.fields
      then Some(RenamedShape(now, from, to)) else None
    case AddSearchIndex(_) =>
      if goal.Some? && goal.value.search.Some? && now.search.None? then Some(now.(search := goal.value.search)) else None
    case RebuildSearchIndex(_) =>
      if goal.Some? && goal.value.search.Some? && now.search.Some? then Some(now.(search := goal.value.search)) else None
    case RemoveSearchIndex(_) =>
      if (goal.Some? ==> goal.value.search.None?) && now.search.Some? then Some(now.(search := None)) else None
    case ChangeResourceAuthority(_) =>
      if goal.Some? then Some(now.(gate := goal.value.gate, expiry := goal.value.expiry, unique := goal.value.unique)) else None
    case _ => None
  }

  function Updated(goal: Shapes, now: Shapes, op: Op, canonical: Canonical): Option<Shapes> {
    match op
    case AddResource(r) => if r in goal && r !in now then Some(now[r := goal[r]]) else None
    case DropResource(r) =>
      if r in now && now[r].search.None? && !HoldsBlob(now[r]) then Some(now - {r}) else None
    case RenameResource(from, to) =>
      if from in now && to !in now && to in goal && !HoldsBlob(now[from]) then Some((now - {from})[to := now[from]]) else None
    case _ =>
      if op.resource !in now then None
      else
        var after := Reshaped(if op.resource in goal then Some(goal[op.resource]) else None, now[op.resource], op, canonical);
        if after.None? then None else Some(now[op.resource := after.value])
  }

  function AllUpdated(goal: Shapes, now: Shapes, ops: seq<Op>, canonical: Canonical): Option<Shapes>
    decreases |ops|
  {
    if ops == [] then Some(now)
    else
      var before := AllUpdated(goal, now, ops[..|ops| - 1], canonical);
      if before.None? then None else Updated(goal, before.value, ops[|ops| - 1], canonical)
  }

  // ----- fields -----

  lemma FieldInMap(fields: seq<Field>, i: nat)
    requires DistinctFields(fields) && i < |fields|
    ensures fields[i].name in FieldMap(fields) && FieldMap(fields)[fields[i].name] == fields[i]
  {
    assert fields[i] in fields;
  }

  /** The map knows exactly the fields there are. */
  lemma FieldMapIs(fields: seq<Field>, m: map<string, Field>)
    requires DistinctFields(fields)
    requires forall i :: 0 <= i < |fields| ==> fields[i].name in m && m[fields[i].name] == fields[i]
    requires forall n :: n in m ==> exists i :: 0 <= i < |fields| && fields[i].name == n
    ensures FieldMap(fields) == m
  {
    forall n | n in m ensures n in FieldMap(fields) && FieldMap(fields)[n] == m[n] {
      var i :| 0 <= i < |fields| && fields[i].name == n;
      FieldInMap(fields, i);
    }
    forall n | n in FieldMap(fields) ensures n in m {
      var i := FieldAt(fields, n).value;
      assert fields[i].name == n;
    }
  }

  lemma FieldAtMap(fields: seq<Field>, name: string)
    ensures FieldAt(fields, name).Some? <==> name in FieldMap(fields)
    ensures name in FieldMap(fields) ==> FieldMap(fields)[name] == fields[FieldAt(fields, name).value]
  {
    if FieldAt(fields, name).Some? {
      assert fields[FieldAt(fields, name).value] in fields;
    }
  }

  lemma ReplacedMap(fields: seq<Field>, at: nat, f: Field)
    requires DistinctFields(fields) && at < |fields| && f.name == fields[at].name
    ensures DistinctFields(fields[at := f]) && FieldMap(fields[at := f]) == FieldMap(fields)[f.name := f]
  {
    var after, m := fields[at := f], FieldMap(fields)[f.name := f];
    forall i | 0 <= i < |after| ensures after[i].name in m && m[after[i].name] == after[i] {
      FieldInMap(fields, i);
    }
    forall n | n in m ensures exists i :: 0 <= i < |after| && after[i].name == n {
      FieldAtMap(fields, n);
      var i := if n == f.name then at else FieldAt(fields, n).value;
      assert after[i].name == n;
    }
    FieldMapIs(after, m);
  }

  lemma RenamedMap(fields: seq<Field>, at: nat, f: Field)
    requires DistinctFields(fields) && at < |fields| && f.name !in FieldMap(fields)
    ensures DistinctFields(fields[at := f]) && FieldMap(fields[at := f]) == (FieldMap(fields) - {fields[at].name})[f.name := f]
  {
    var after, m := fields[at := f], (FieldMap(fields) - {fields[at].name})[f.name := f];
    forall i | 0 <= i < |fields| ensures fields[i].name != f.name {
      FieldInMap(fields, i);
    }
    forall i | 0 <= i < |after| ensures after[i].name in m && m[after[i].name] == after[i] {
      FieldInMap(fields, i);
    }
    forall n | n in m ensures exists i :: 0 <= i < |after| && after[i].name == n {
      FieldAtMap(fields, n);
      var i := if n == f.name then at else FieldAt(fields, n).value;
      assert after[i].name == n;
    }
    FieldMapIs(after, m);
  }

  lemma AddedMap(fields: seq<Field>, f: Field)
    requires DistinctFields(fields) && f.name !in FieldMap(fields)
    ensures DistinctFields(fields + [f]) && FieldMap(fields + [f]) == FieldMap(fields)[f.name := f]
  {
    var after, m := fields + [f], FieldMap(fields)[f.name := f];
    forall i | 0 <= i < |fields| ensures fields[i].name != f.name && fields[i].name in m && m[fields[i].name] == fields[i] {
      FieldInMap(fields, i);
    }
    forall n | n in m ensures exists i :: 0 <= i < |after| && after[i].name == n {
      FieldAtMap(fields, n);
      var i := if n == f.name then |fields| else FieldAt(fields, n).value;
      assert after[i].name == n;
    }
    FieldMapIs(after, m);
  }

  lemma DroppedMap(fields: seq<Field>, name: string)
    requires DistinctFields(fields)
    ensures DistinctFields(OtherFields(fields, name)) && FieldMap(OtherFields(fields, name)) == FieldMap(fields) - {name}
  {
    OtherFieldsDistinct(fields, name);
    var after, m := OtherFields(fields, name), FieldMap(fields) - {name};
    forall i | 0 <= i < |after| ensures after[i].name in m && m[after[i].name] == after[i] {
      assert after[i] in fields;
      var j :| 0 <= j < |fields| && fields[j] == after[i];
      FieldInMap(fields, j);
    }
    forall n | n in m ensures exists i :: 0 <= i < |after| && after[i].name == n {
      FieldAtMap(fields, n);
      assert fields[FieldAt(fields, n).value] in after;
    }
    FieldMapIs(after, m);
  }

  // ----- one resource -----

  lemma GoalField(target: Schema, resource: string, name: string)
    requires WellNamed(target)
    ensures var goal := if resource in ShapesOf(target) then Some(ShapesOf(target)[resource]) else None;
            && (resource in ShapesOf(target) <==> ResourceAt(target, resource).Some?)
            && (goal.Some? ==> goal.value == ShapeOf(target[ResourceAt(target, resource).value]))
            && (Destination(target, resource, name).Ok? <==> goal.Some? && name in goal.value.fields)
            && (goal.Some? && name in goal.value.fields ==>
                  Destination(target, resource, name) == Ok(goal.value.fields[name]) && goal.value.fields[name].name == name)
  {
    var at := ResourceAt(target, resource);
    if at.Some? {
      assert target[at.value] in target;
      FieldAtMap(target[at.value].fields, name);
    }
  }

  /** The goal an operation on the resource looks at. */
  function GoalOf(target: Schema, resource: string): Option<Shape> {
    if resource in ShapesOf(target) then Some(ShapesOf(target)[resource]) else None
  }

  predicate Agrees(result: Result<Resource>, meaning: Option<Shape>) {
    && (result.Ok? <==> meaning.Some?)
    && (result.Ok? ==> DistinctFields(result.value.fields) && ShapeOf(result.value) == meaning.value)
  }

  lemma AdoptMeans(target: Schema, r: Resource, op: Op, canonical: Canonical, fits: (Kind, Kind) -> bool)
    requires WellNamed(target) && DistinctFields(r.fields)
    requires Carries(op) && forall a, b :: fits(a, b) == Converts(op, a, b)
    ensures Agrees(Adopt(target, r, op.field, fits), Reshaped(GoalOf(target, r.name), ShapeOf(r), op, canonical))
  {
    GoalField(target, r.name, op.field);
    FieldAtMap(r.fields, op.field);
    var at, d := FieldAt(r.fields, op.field), Destination(target, r.name, op.field);
    if at.Some? && d.Ok? {
      ReplacedMap(r.fields, at.value, d.value);
    }
  }

  lemma MappingMeans(resource: string, field: string, mapping: map<string, string>, a: Kind, b: Kind)
    ensures MappingFits(mapping, a, b) == Converts(MapChoices(resource, field, mapping), a, b)
  {
    if a.ChoiceKind? && b.ChoiceKind? {
      forall k | k in mapping
        ensures HasVariant(a, k) <==> exists v :: v in a.variants && v.key == k
        ensures HasVariant(b, mapping[k]) <==> exists v :: v in b.variants && v.key == mapping[k]
      {
        if v :| v in a.variants && v.key == k {
          var i :| 0 <= i < |a.variants| && a.variants[i] == v;
        }
        if v :| v in b.variants && v.key == mapping[k] {
          var i :| 0 <= i < |b.variants| && b.variants[i] == v;
        }
      }
    }
  }

  lemma AddMeans(target: Schema, r: Resource, op: Op, canonical: Canonical)
    requires WellNamed(target) && DistinctFields(r.fields) && op.AddField?
    ensures Agrees(Local(target, r, op, canonical), Reshaped(GoalOf(target, r.name), ShapeOf(r), op, canonical))
  {
    GoalField(target, r.name, op.field);
    FieldAtMap(r.fields, op.field);
    if Local(target, r, op, canonical).Ok? {
      AddedMap(r.fields, Destination(target, r.name, op.field).value);
    }
  }

  lemma DropMeans(target: Schema, r: Resource, op: Op, canonical: Canonical)
    requires DistinctFields(r.fields) && op.DropField?
    ensures Agrees(Local(target, r, op, canonical), Reshaped(GoalOf(target, r.name), ShapeOf(r), op, canonical))
  {
    FieldAtMap(r.fields, op.field);
    DroppedMap(r.fields, op.field);
  }

  lemma RenameMeans(target: Schema, r: Resource, op: Op, canonical: Canonical)
    requires WellNamed(target) && DistinctFields(r.fields) && op.RenameField?
    ensures Agrees(Local(target, r, op, canonical), Reshaped(GoalOf(target, r.name), ShapeOf(r), op, canonical))
  {
    GoalField(target, r.name, op.to);
    FieldAtMap(r.fields, op.from);
    FieldAtMap(r.fields, op.to);
    if Local(target, r, op, canonical).Ok? {
      var at := FieldAt(r.fields, op.from).value;
      RenamedMap(r.fields, at, r.fields[at].(name := op.to, caption := op.to));
    }
  }

  lemma CarriedMeans(target: Schema, r: Resource, op: Op, canonical: Canonical)
    requires WellNamed(target) && DistinctFields(r.fields) && Carries(op)
    ensures Agrees(Local(target, r, op, canonical), Reshaped(GoalOf(target, r.name), ShapeOf(r), op, canonical))
  {
    match op
    case TextToInteger(_, _) => AdoptMeans(target, r, op, canonical, (a: Kind, b: Kind) => a.TextKind? && b.IntegerKind?);
    case IntegerToText(_, _) => AdoptMeans(target, r, op, canonical, (a: Kind, b: Kind) => a.IntegerKind? && b.TextKind?);
    case MapChoices(resource, name, mapping) =>
      forall a, b ensures MappingFits(mapping, a, b) == Converts(op, a, b) {
        MappingMeans(resource, name, mapping, a, b);
      }
      AdoptMeans(target, r, op, canonical, (a: Kind, b: Kind) => MappingFits(mapping, a, b));
    case ChangeField(_, _) => AdoptMeans(target, r, op, canonical, (a: Kind, b: Kind) => SameKind(a, b));
  }

  lemma LocalMeans(target: Schema, r: Resource, op: Op, canonical: Canonical)
    requires WellNamed(target) && DistinctFields(r.fields)
    requires !op.AddResource? && !op.DropResource? && !op.RenameResource?
    ensures Agrees(Local(target, r, op, canonical), Reshaped(GoalOf(target, r.name), ShapeOf(r), op, canonical))
  {
    if Carries(op) {
      CarriedMeans(target, r, op, canonical);
    } else if op.AddField? {
      AddMeans(target, r, op, canonical);
    } else if op.DropField? {
      DropMeans(target, r, op, canonical);
    } else if op.RenameField? {
      RenameMeans(target, r, op, canonical);
    } else {
      GoalField(target, r.name, "");
    }
  }

  // ----- whole schemas -----

  lemma ShapeInMap(s: Schema, i: nat)
    requires DistinctResources(s) && i < |s|
    ensures s[i].name in ShapesOf(s) && ShapesOf(s)[s[i].name] == ShapeOf(s[i])
  {
    assert s[i] in s;
  }

  lemma ResourceAtMap(s: Schema, name: string)
    ensures ResourceAt(s, name).Some? <==> name in ShapesOf(s)
    ensures name in ShapesOf(s) ==> ShapesOf(s)[name] == ShapeOf(s[ResourceAt(s, name).value])
  {
    if ResourceAt(s, name).Some? {
      assert s[ResourceAt(s, name).value] in s;
    }
  }

  lemma ShapesAre(s: Schema, m: Shapes)
    requires DistinctResources(s)
    requires forall i :: 0 <= i < |s| ==> s[i].name in m && m[s[i].name] == ShapeOf(s[i])
    requires forall n :: n in m ==> exists i :: 0 <= i < |s| && s[i].name == n
    ensures ShapesOf(s) == m
  {
    forall n | n in m ensures n in ShapesOf(s) && ShapesOf(s)[n] == m[n] {
      var i :| 0 <= i < |s| && s[i].name == n;
      ShapeInMap(s, i);
    }
    forall n | n in ShapesOf(s) ensures n in m {
      ResourceAtMap(s, n);
    }
  }

  lemma ReplacedShapes(s: Schema, at: nat, r: Resource)
    requires DistinctResources(s) && at < |s| && r.name == s[at].name
    ensures DistinctResources(s[at := r]) && ShapesOf(s[at := r]) == ShapesOf(s)[r.name := ShapeOf(r)]
  {
    var after, m := s[at := r], ShapesOf(s)[r.name := ShapeOf(r)];
    forall i | 0 <= i < |after| ensures after[i].name in m && m[after[i].name] == ShapeOf(after[i]) {
      ShapeInMap(s, i);
    }
    forall n | n in m ensures exists i :: 0 <= i < |after| && after[i].name == n {
      ResourceAtMap(s, n);
      var i := if n == r.name then at else ResourceAt(s, n).value;
      assert after[i].name == n;
    }
    ShapesAre(after, m);
  }

  lemma MovedShapes(s: Schema, at: nat, r: Resource)
    requires DistinctResources(s) && at < |s| && r.name !in ShapesOf(s)
    ensures DistinctResources(s[at := r]) && ShapesOf(s[at := r]) == (ShapesOf(s) - {s[at].name})[r.name := ShapeOf(r)]
  {
    var after, m := s[at := r], (ShapesOf(s) - {s[at].name})[r.name := ShapeOf(r)];
    forall i | 0 <= i < |s| ensures s[i].name != r.name {
      ShapeInMap(s, i);
    }
    forall i | 0 <= i < |after| ensures after[i].name in m && m[after[i].name] == ShapeOf(after[i]) {
      ShapeInMap(s, i);
    }
    forall n | n in m ensures exists i :: 0 <= i < |after| && after[i].name == n {
      ResourceAtMap(s, n);
      var i := if n == r.name then at else ResourceAt(s, n).value;
      assert after[i].name == n;
    }
    ShapesAre(after, m);
  }

  lemma AddedShapes(s: Schema, r: Resource)
    requires DistinctResources(s) && r.name !in ShapesOf(s)
    ensures DistinctResources(s + [r]) && ShapesOf(s + [r]) == ShapesOf(s)[r.name := ShapeOf(r)]
  {
    var after, m := s + [r], ShapesOf(s)[r.name := ShapeOf(r)];
    forall i | 0 <= i < |s| ensures s[i].name != r.name && s[i].name in m && m[s[i].name] == ShapeOf(s[i]) {
      ShapeInMap(s, i);
    }
    forall n | n in m ensures exists i :: 0 <= i < |after| && after[i].name == n {
      ResourceAtMap(s, n);
      var i := if n == r.name then |s| else ResourceAt(s, n).value;
      assert after[i].name == n;
    }
    ShapesAre(after, m);
  }

  lemma DroppedShapes(s: Schema, name: string)
    requires DistinctResources(s)
    ensures DistinctResources(OtherResources(s, name)) && ShapesOf(OtherResources(s, name)) == ShapesOf(s) - {name}
  {
    OthersDistinct(s, name);
    var after, m := OtherResources(s, name), ShapesOf(s) - {name};
    forall i | 0 <= i < |after| ensures after[i].name in m && m[after[i].name] == ShapeOf(after[i]) {
      assert after[i] in s;
      var j :| 0 <= j < |s| && s[j] == after[i];
      ShapeInMap(s, j);
    }
    forall n | n in m ensures exists i :: 0 <= i < |after| && after[i].name == n {
      ResourceAtMap(s, n);
      assert s[ResourceAt(s, n).value] in after;
    }
    ShapesAre(after, m);
  }

  lemma BlobsHeld(r: Resource)
    requires DistinctFields(r.fields)
    ensures HasBlob(r) <==> HoldsBlob(ShapeOf(r))
  {
    if i :| 0 <= i < |r.fields| && r.fields[i].kind.BlobKind? {
      FieldInMap(r.fields, i);
    }
    if n :| n in FieldMap(r.fields) && FieldMap(r.fields)[n].kind.BlobKind? {
      FieldAtMap(r.fields, n);
    }
  }

  ghost predicate AllAgree(result: Result<Schema>, meaning: Option<Shapes>) {
    && (result.Ok? <==> meaning.Some?)
    && (result.Ok? ==> WellNamed(result.value) && ShapesOf(result.value) == meaning.value)
  }

  lemma ReplacedWellNamed(s: Schema, at: nat, r: Resource)
    requires WellNamed(s) && at < |s| && r.name == s[at].name && DistinctFields(r.fields)
    ensures WellNamed(s[at := r]) && ShapesOf(s[at := r]) == ShapesOf(s)[r.name := ShapeOf(r)]
  {
    ReplacedShapes(s, at, r);
  }

  lemma ReplacementMeans(s: Schema, at: nat, result: Result<Resource>, meaning: Option<Shape>)
    requires WellNamed(s) && at < |s| && Agrees(result, meaning) && (result.Ok? ==> result.value.name == s[at].name)
    ensures AllAgree(if result.Err? then Err else Ok(s[at := result.value]),
                     if meaning.None? then None else Some(ShapesOf(s)[s[at].name := meaning.value]))
  {
    if result.Ok? {
      ReplacedWellNamed(s, at, result.value);
    }
  }

  lemma LocalStepMeans(target: Schema, current: Schema, op: Op, canonical: Canonical)
    requires WellNamed(target) && WellNamed(current) && !op.AddResource? && !op.DropResource? && !op.RenameResource?
    ensures AllAgree(Apply(target, current, op, canonical), Updated(ShapesOf(target), ShapesOf(current), op, canonical))
  {
    ResourceAtMap(current, op.resource);
    var at := ResourceAt(current, op.resource);
    if at.Some? {
      var r := current[at.value];
      var result, meaning := Local(target, r, op, canonical), Reshaped(GoalOf(target, r.name), ShapeOf(r), op, canonical);
      LocalMeans(target, r, op, canonical);
      LocalKeepsName(target, r, op, canonical);
      ReplacementMeans(current, at.value, result, meaning);
      LocalForms(target, current, op, canonical, at.value, result, meaning);
    }
  }

  lemma LocalForms(target: Schema, current: Schema, op: Op, canonical: Canonical, at: nat, result: Result<Resource>, meaning: Option<Shape>)
    requires !op.AddResource? && !op.DropResource? && !op.RenameResource?
    requires ResourceAt(current, op.resource) == Some(at) && op.resource in ShapesOf(current)
    requires ShapesOf(current)[op.resource] == ShapeOf(current[at])
    requires result == Local(target, current[at], op, canonical)
    requires meaning == Reshaped(GoalOf(target, op.resource), ShapeOf(current[at]), op, canonical)
    ensures Apply(target, current, op, canonical) == if result.Err? then Err else Ok(current[at := result.value])
    ensures Updated(ShapesOf(target), ShapesOf(current), op, canonical)
            == if meaning.None? then None else Some(ShapesOf(current)[op.resource := meaning.value])
  {
  }

  lemma AddResourceMeans(target: Schema, current: Schema, op: Op, canonical: Canonical)
    requires WellNamed(target) && WellNamed(current) && op.AddResource?
    ensures AllAgree(Apply(target, current, op, canonical), Updated(ShapesOf(target), ShapesOf(current), op, canonical))
  {
    ResourceAtMap(current, op.resource);
    ResourceAtMap(target, op.resource);
    if Apply(target, current, op, canonical).Ok? {
      AddedShapes(current, target[ResourceAt(target, op.resource).value]);
    }
  }

  predicate Droppable(s: Schema, name: string) {
    var at := ResourceAt(s, name);
    at.Some? && s[at.value].search.None? && !HasBlob(s[at.value])
  }

  lemma DropForms(target: Schema, current: Schema, op: Op, canonical: Canonical)
    requires op.DropResource?
    requires ResourceAt(current, op.resource).Some? <==> op.resource in ShapesOf(current)
    requires var at := ResourceAt(current, op.resource);
             at.Some? ==> ShapesOf(current)[op.resource] == ShapeOf(current[at.value])
                          && (HasBlob(current[at.value]) <==> HoldsBlob(ShapeOf(current[at.value])))
    ensures Apply(target, current, op, canonical)
            == if Droppable(current, op.resource) then Ok(OtherResources(current, op.resource)) else Err
    ensures Updated(ShapesOf(target), ShapesOf(current), op, canonical)
            == if Droppable(current, op.resource) then Some(ShapesOf(current) - {op.resource}) else None
  {
  }

  lemma DropResourceMeans(target: Schema, current: Schema, op: Op, canonical: Canonical)
    requires WellNamed(current) && op.DropResource?
    ensures AllAgree(Apply(target, current, op, canonical), Updated(ShapesOf(target), ShapesOf(current), op, canonical))
  {
    ResourceAtMap(current, op.resource);
    var at := ResourceAt(current, op.resource);
    if at.Some? {
      BlobsHeld(current[at.value]);
    }
    DropForms(target, current, op, canonical);
    DropLeaves(current, op.resource, OtherResources(current, op.resource), ShapesOf(current) - {op.resource});
  }

  lemma DropLeaves(current: Schema, name: string, after: Schema, left: Shapes)
    requires WellNamed(current) && after == OtherResources(current, name) && left == ShapesOf(current) - {name}
    ensures WellNamed(after) && ShapesOf(after) == left
  {
    DroppedShapes(current, name);
    OthersWellNamed(current, name);
  }

  lemma OthersWellNamed(s: Schema, name: string)
    requires WellNamed(s)
    ensures WellNamed(OtherResources(s, name))
  {
    OthersDistinct(s, name);
    var after := OtherResources(s, name);
    forall i | 0 <= i < |after| ensures DistinctFields(after[i].fields) {
      assert after[i] in s;
    }
  }

  lemma RenameResourceMeans(target: Schema, current: Schema, op: Op, canonical: Canonical)
    requires WellNamed(current) && op.RenameResource?
    ensures AllAgree(Apply(target, current, op, canonical), Updated(ShapesOf(target), ShapesOf(current), op, canonical))
  {
    ResourceAtMap(current, op.from);
    ResourceAtMap(current, op.to);
    ResourceAtMap(target, op.to);
    var at := ResourceAt(current, op.from);
    if at.Some? {
      BlobsHeld(current[at.value]);
      if ResourceAt(current, op.to).None? {
        MovedShapes(current, at.value, current[at.value].(name := op.to));
      }
    }
  }

  /** Each operation is accepted exactly when its update of the map is permitted, and then is that
      update. */
  lemma ApplyMeans(target: Schema, current: Schema, op: Op, canonical: Canonical)
    requires WellNamed(target) && WellNamed(current)
    ensures AllAgree(Apply(target, current, op, canonical), Updated(ShapesOf(target), ShapesOf(current), op, canonical))
  {
    if op.AddResource? {
      AddResourceMeans(target, current, op, canonical);
    } else if op.DropResource? {
      DropResourceMeans(target, current, op, canonical);
    } else if op.RenameResource? {
      RenameResourceMeans(target, current, op, canonical);
    } else {
      LocalStepMeans(target, current, op, canonical);
    }
  }

  lemma {:induction false} ApplyAllMeans(target: Schema, current: Schema, ops: seq<Op>, canonical: Canonical)
    requires WellNamed(target) && WellNamed(current)
    ensures AllAgree(ApplyAll(target, current, ops, canonical), AllUpdated(ShapesOf(target), ShapesOf(current), ops, canonical))
    decreases |ops|
  {
    if ops != [] {
      var n := |ops| - 1;
      ApplyAllMeans(target, current, ops[..n], canonical);
      if ApplyAll(target, current, ops[..n], canonical).Ok? {
        ApplyMeans(target, ApplyAll(target, current, ops[..n], canonical).value, ops[n], canonical);
      }
    }
  }

  // ----- normal forms -----

  /** The same resource, but for the order of its unique tuples. */
  predicate SameShape(a: Shape, b: Shape) {
    a.fields == b.fields && a.search == b.search && a.expiry == b.expiry && a.gate == b.gate && multiset(a.unique) == multiset(b.unique)
  }

  predicate SameShapes(a: Shapes, b: Shapes) {
    a.Keys == b.Keys && forall n :: n in a ==> SameShape(a[n], b[n])
  }

  function NormalMap(m: map<string, Field>): map<string, Field> {
    map n | n in m :: NormalField(m[n])
  }

  predicate NormalShapes(m: Shapes) {
    forall n :: n in m ==> NormalMap(m[n].fields) == m[n].fields
  }

  lemma NormalKeys(variants: seq<Variant>)
    ensures multiset(KeysOf(Sort(VariantKey(), Plain(variants)))) == multiset(KeysOf(variants))
  {
    var w := Sort(VariantKey(), Plain(variants));
    forall i | 0 <= i < |w| ensures w[i].caption == w[i].key {
      assert w[i] in multiset(w);
      assert w[i] in Plain(variants);
    }
    assert Plain(w) == w;
    forall k ensures multiset(KeysOf(w))[k] == multiset(KeysOf(variants))[k] {
      PlainCount(w, Variant(k, k));
      PlainCount(variants, Variant(k, k));
    }
  }

  lemma NormalTwice(f: Field)
    ensures NormalField(NormalField(f)) == NormalField(f) && RearrangedField(NormalField(f), f)
  {
    if f.kind.ChoiceKind? {
      NormalKeys(f.kind.variants);
      VariantsAgree(NormalKind(f.kind).variants, f.kind.variants);
    }
  }

  lemma NormalShape(r: Resource)
    requires DistinctFields(r.fields)
    ensures DistinctFields(NormalResource(r).fields)
    ensures ShapeOf(NormalResource(r)).fields == NormalMap(FieldMap(r.fields))
  {
    NormalFieldsDistinct(r);
    var fields, m := NormalResource(r).fields, NormalMap(FieldMap(r.fields));
    forall i | 0 <= i < |fields| ensures fields[i].name in m && m[fields[i].name] == fields[i] {
      NormalFieldIn(r, fields[i]);
      var j :| 0 <= j < |r.fields| && fields[i] == NormalField(r.fields[j]);
      FieldInMap(r.fields, j);
    }
    forall n | n in m ensures exists i :: 0 <= i < |fields| && fields[i].name == n {
      FieldAtMap(r.fields, n);
      NormalFieldIn(r, NormalField(r.fields[FieldAt(r.fields, n).value]));
      var i :| 0 <= i < |fields| && fields[i] == NormalField(r.fields[FieldAt(r.fields, n).value]);
      assert fields[i].name == n;
    }
    FieldMapIs(fields, m);
  }

  lemma NormalWellNamed(s: Schema)
    requires WellNamed(s)
    ensures WellNamed(Normalized(s))
  {
    NormalIsDistinct(s);
    var t := Normalized(s);
    forall i | 0 <= i < |t| ensures DistinctFields(t[i].fields) {
      NormalResourceIn(s, t[i]);
      var j :| 0 <= j < |s| && t[i] == NormalResource(s[j]);
      NormalFieldsDistinct(s[j]);
    }
  }

  /** Normalizing changes a schema's map only by normalizing its fields. */
  lemma NormalizedShapes(s: Schema, n: string)
    requires WellNamed(s)
    ensures n in ShapesOf(Normalized(s)) <==> n in ShapesOf(s)
    ensures n in ShapesOf(s) ==> SameShape(ShapesOf(Normalized(s))[n], ShapesOf(s)[n].(fields := NormalMap(ShapesOf(s)[n].fields)))
  {
    NormalWellNamed(s);
    var t := Normalized(s);
    ResourceAtMap(s, n);
    ResourceAtMap(t, n);
    if n in ShapesOf(t) {
      var x := t[ResourceAt(t, n).value];
      NormalResourceIn(s, x);
      var i :| 0 <= i < |s| && x == NormalResource(s[i]);
      ShapeInMap(s, i);
      NormalShape(s[i]);
    }
    if n in ShapesOf(s) {
      var r := s[ResourceAt(s, n).value];
      NormalResourceIn(s, NormalResource(r));
      var i :| 0 <= i < |t| && t[i] == NormalResource(r);
      ShapeInMap(t, i);
    }
  }

  lemma NormalMapTwice(m: map<string, Field>)
    ensures NormalMap(NormalMap(m)) == NormalMap(m)
  {
    forall n | n in m ensures NormalField(NormalField(m[n])) == NormalField(m[n]) {
      NormalTwice(m[n]);
    }
  }

  lemma NormalAt(s: Schema, n: string)
    requires WellNamed(s) && n in ShapesOf(Normalized(s))
    ensures var fields := ShapesOf(Normalized(s))[n].fields; NormalMap(fields) == fields
  {
    NormalizedShapes(s, n);
    NormalMapTwice(ShapesOf(s)[n].fields);
  }

  lemma NormalizedIsNormal(s: Schema)
    requires WellNamed(s)
    ensures NormalShapes(ShapesOf(Normalized(s)))
  {
    forall n | n in ShapesOf(Normalized(s))
      ensures NormalMap(ShapesOf(Normalized(s))[n].fields) == ShapesOf(Normalized(s))[n].fields
    {
      NormalAt(s, n);
    }
  }

  lemma UpdatedIsNormal(goal: Shapes, now: Shapes, op: Op, canonical: Canonical)
    requires NormalShapes(goal) && NormalShapes(now) && Updated(goal, now, op, canonical).Some?
    ensures NormalShapes(Updated(goal, now, op, canonical).value)
  {
    var after := Updated(goal, now, op, canonical).value;
    if !op.AddResource? && !op.DropResource? && !op.RenameResource? {
      ReshapedIsNormal(if op.resource in goal then Some(goal[op.resource]) else None, now[op.resource], op, canonical);
    }
  }

  lemma ReshapedIsNormal(goal: Option<Shape>, now: Shape, op: Op, canonical: Canonical)
    requires !op.AddResource? && !op.DropResource? && !op.RenameResource?
    requires goal.Some? ==> NormalMap(goal.value.fields) == goal.value.fields
    requires NormalMap(now.fields) == now.fields && Reshaped(goal, now, op, canonical).Some?
    ensures var after := Reshaped(goal, now, op, canonical).value; NormalMap(after.fields) == after.fields
  {
    var after := Reshaped(goal, now, op, canonical).value;
    forall f | f in after.fields ensures NormalField(after.fields[f]) == after.fields[f] {
      if f in now.fields {
        assert NormalMap(now.fields)[f] == now.fields[f];
      }
      if goal.Some? && f in goal.value.fields {
        assert NormalMap(goal.value.fields)[f] == goal.value.fields[f];
      }
      if op.RenameField? && f == op.to {
        assert NormalMap(now.fields)[op.from] == now.fields[op.from];
      }
    }
  }

  lemma {:induction false} AllUpdatedIsNormal(goal: Shapes, now: Shapes, ops: seq<Op>, canonical: Canonical)
    requires NormalShapes(goal) && NormalShapes(now) && AllUpdated(goal, now, ops, canonical).Some?
    ensures NormalShapes(AllUpdated(goal, now, ops, canonical).value)
    decreases |ops|
  {
    if ops != [] {
      var n := |ops| - 1;
      AllUpdatedIsNormal(goal, now, ops[..n], canonical);
      UpdatedIsNormal(goal, AllUpdated(goal, now, ops[..n], canonical).value, ops[n], canonical);
    }
  }

  // ----- equal maps are rearranged schemas -----

  lemma {:induction false} FieldCount(fields: seq<Field>)
    requires DistinctFields(fields)
    ensures |FieldNames(fields)| == |fields|
  {
    if fields != [] {
      FieldCount(fields[1..]);
      assert FieldNames(fields) == {fields[0].name} + FieldNames(fields[1..]);
      assert fields[0].name !in FieldNames(fields[1..]);
    }
  }

  lemma {:induction false} ResourceCount(s: Schema)
    requires DistinctResources(s)
    ensures |ResourceNames(s)| == |s|
  {
    if s != [] {
      ResourceCount(s[1..]);
      assert ResourceNames(s) == {s[0].name} + ResourceNames(s[1..]);
      assert s[0].name !in ResourceNames(s[1..]);
    }
  }

  lemma SameShapeRearranges(a: Resource, b: Resource)
    requires DistinctFields(a.fields) && DistinctFields(b.fields) && a.name == b.name && SameShape(ShapeOf(a), ShapeOf(b))
    ensures RearrangedResource(a, b)
  {
    FieldCount(a.fields);
    FieldCount(b.fields);
    assert FieldMap(a.fields).Keys == FieldNames(a.fields) && FieldMap(b.fields).Keys == FieldNames(b.fields);
    forall i | 0 <= i < |a.fields| ensures exists j :: 0 <= j < |b.fields| && RearrangedField(a.fields[i], b.fields[j]) {
      FieldInMap(a.fields, i);
      FieldAtMap(b.fields, a.fields[i].name);
      var j := FieldAt(b.fields, a.fields[i].name).value;
      assert RearrangedField(a.fields[i], b.fields[j]);
    }
  }

  lemma Counterpart(a: Schema, b: Schema, i: nat)
    requires WellNamed(a) && WellNamed(b) && i < |a| && SameShapes(ShapesOf(a), ShapesOf(b))
    ensures var j := ResourceAt(b, a[i].name); j.Some? && RearrangedResource(a[i], b[j.value])
  {
    ShapeInMap(a, i);
    ResourceAtMap(b, a[i].name);
    SameShapeRearranges(a[i], b[ResourceAt(b, a[i].name).value]);
  }

  lemma ShapeCount(s: Schema)
    requires DistinctResources(s)
    ensures |ShapesOf(s).Keys| == |s|
  {
    ResourceCount(s);
    assert ShapesOf(s).Keys == ResourceNames(s);
  }

  lemma SameCount(a: Schema, b: Schema)
    requires DistinctResources(a) && DistinctResources(b) && ShapesOf(a).Keys == ShapesOf(b).Keys
    ensures |a| == |b|
  {
    ShapeCount(a);
    ShapeCount(b);
  }

  lemma SameShapesRearrange(a: Schema, b: Schema)
    requires WellNamed(a) && WellNamed(b) && SameShapes(ShapesOf(a), ShapesOf(b))
    ensures Rearranged(a, b)
  {
    SameCount(a, b);
    forall i | 0 <= i < |a| ensures HasCounterpart(a[i], b) {
      Counterpart(a, b, i);
    }
  }

  lemma NormalizedTwice(s: Schema)
    requires WellNamed(s)
    ensures Normalized(Normalized(s)) == Normalized(s)
  {
    NormalWellNamed(s);
    var t := Normalized(s);
    forall i | 0 <= i < |t| ensures HasCounterpart(t[i], s) {
      NormalResourceIn(s, t[i]);
      var j :| 0 <= j < |s| && t[i] == NormalResource(s[j]);
      NormalRearranges(s[j]);
    }
    NormalForgetsOrder(t, s);
  }

  lemma NormalRearranges(r: Resource)
    requires DistinctFields(r.fields)
    ensures RearrangedResource(NormalResource(r), r)
  {
    NormalFieldsDistinct(r);
    var fields := NormalResource(r).fields;
    forall i | 0 <= i < |fields| ensures exists j :: 0 <= j < |r.fields| && RearrangedField(fields[i], r.fields[j]) {
      NormalFieldIn(r, fields[i]);
      var j :| 0 <= j < |r.fields| && fields[i] == NormalField(r.fields[j]);
      NormalTwice(r.fields[j]);
    }
  }

  lemma SameAfterNormal(a: Shapes, b: Shapes)
    requires NormalShapes(a)
    requires forall n :: n in b <==> n in a
    requires forall n :: n in a ==> SameShape(b[n], a[n].(fields := NormalMap(a[n].fields)))
    ensures SameShapes(a, b)
  {
  }

  lemma NormalizedSame(s: Schema)
    requires WellNamed(s) && NormalShapes(ShapesOf(s))
    ensures SameShapes(ShapesOf(s), ShapesOf(Normalized(s)))
  {
    forall n
      ensures n in ShapesOf(Normalized(s)) <==> n in ShapesOf(s)
      ensures n in ShapesOf(s) ==> SameShape(ShapesOf(Normalized(s))[n], ShapesOf(s)[n].(fields := NormalMap(ShapesOf(s)[n].fields)))
    {
      NormalizedShapes(s, n);
    }
    SameAfterNormal(ShapesOf(s), ShapesOf(Normalized(s)));
  }

  /** A schema of normal fields normalizes to the target exactly when its map is the target's. */
  lemma NormalizesExactly(final: Schema, target: Schema)
    requires WellNamed(final) && WellNamed(target) && NormalShapes(ShapesOf(final))
    ensures Normalized(final) == Normalized(target) <==> SameShapes(ShapesOf(final), ShapesOf(Normalized(target)))
  {
    NormalizedSame(final);
    NormalWellNamed(target);
    if SameShapes(ShapesOf(final), ShapesOf(Normalized(target))) {
      SameShapesRearrange(final, Normalized(target));
      NormalForgetsOrder(final, Normalized(target));
      NormalizedTwice(target);
    }
  }

  /** A migration is accepted if and only if its operations, as updates of the source's map, are all
      permitted and arrive at the target's. */
  lemma MigrationsMean(source: Schema, target: Schema, ops: seq<Op>, canonical: Canonical)
    requires WellNamed(source) && WellNamed(target)
    ensures var goal := ShapesOf(Normalized(target));
            var final := AllUpdated(goal, ShapesOf(Normalized(source)), ops, canonical);
            Accepts(source, target, ops, canonical) <==> final.Some? && SameShapes(final.value, goal)
  {
    NormalWellNamed(source);
    NormalWellNamed(target);
    ApplyAllMeans(Normalized(target), Normalized(source), ops, canonical);
    var reached := ApplyAll(Normalized(target), Normalized(source), ops, canonical);
    if reached.Ok? {
      NormalizedIsNormal(source);
      NormalizedIsNormal(target);
      AllUpdatedIsNormal(ShapesOf(Normalized(target)), ShapesOf(Normalized(source)), ops, canonical);
      NormalizesExactly(reached.value, target);
    }
  }
}
