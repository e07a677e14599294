/** What every accepted schema migration preserves. */
module SchemaLaws {
  import opened Prelude
  import opened Sorting
  import opened Schema

  // ----- normal forms keep names and elements -----

  predicate DistinctFields(fields: seq<Field>) {
    forall i, j :: 0 <= i < j < |fields| ==> fields[i].name != fields[j].name
  }

  /** Names a manifest admits: no two resources and no two fields of one share a name. */
  predicate WellNamed(s: Schema) {
    DistinctResources(s) && (forall i :: 0 <= i < |s| ==> DistinctFields(s[i].fields))
  }

  lemma NormalFieldIn(r: Resource, x: Field)
    ensures x in NormalResource(r).fields <==> exists i :: 0 <= i < |r.fields| && x == NormalField(r.fields[i])
  {
    var plain := NormalFields(r.fields);
    assert x in NormalResource(r).fields <==> x in multiset(NormalResource(r).fields);
    assert x in multiset(plain) <==> x in plain;
    if i :| 0 <= i < |r.fields| && x == NormalField(r.fields[i]) {
      assert plain[i] == x;
    }
  }

  lemma NormalResourceIn(s: Schema, x: Resource)
    ensures x in Normalized(s) <==> exists i :: 0 <= i < |s| && x == NormalResource(s[i])
  {
    var plain := NormalResources(s);
    assert x in Normalized(s) <==> x in multiset(Normalized(s));
    assert x in multiset(plain) <==> x in plain;
    if i :| 0 <= i < |s| && x == NormalResource(s[i]) {
      assert plain[i] == x;
    }
  }

  lemma NormalIsDistinct(s: Schema)
    requires DistinctResources(s)
    ensures DistinctResources(Normalized(s))
  {
    var plain := NormalResources(s);
    var key := ResourceKey();
    assert forall i, j :: 0 <= i < j < |plain| ==> key(plain[i]) != key(plain[j]) by {
      forall i, j | 0 <= i < j < |plain| ensures key(plain[i]) != key(plain[j]) {
        assert key(plain[i])[0] == s[i].name && key(plain[j])[0] == s[j].name;
      }
    }
    PermutedKeys(key, plain, Normalized(s));
    forall i, j | 0 <= i < j < |Normalized(s)| ensures Normalized(s)[i].name != Normalized(s)[j].name {
      assert key(Normalized(s)[i]) != key(Normalized(s)[j]);
    }
  }

  lemma NormalFieldsDistinct(r: Resource)
    requires DistinctFields(r.fields)
    ensures DistinctFields(NormalResource(r).fields)
  {
    var plain, sorted := NormalFields(r.fields), NormalResource(r).fields;
    var key := FieldKey();
    forall i, j | 0 <= i < j < |plain| ensures key(plain[i]) != key(plain[j]) {
      assert key(plain[i])[0] == r.fields[i].name && key(plain[j])[0] == r.fields[j].name;
    }
    PermutedKeys(key, plain, sorted);
    forall i, j | 0 <= i < j < |sorted| ensures sorted[i].name != sorted[j].name {
      assert key(sorted[i]) != key(sorted[j]);
    }
  }

  // ----- resource names stay distinct -----

  lemma {:induction false} OthersDistinct(s: Schema, name: string)
    requires DistinctResources(s)
    ensures DistinctResources(OtherResources(s, name))
  {
    if s != [] {
      OthersDistinct(s[1..], name);
      var rest := OtherResources(s[1..], name);
      forall i | 0 <= i < |rest| ensures rest[i].name != s[0].name {
        assert rest[i] in s[1..];
      }
    }
  }

  lemma LocalKeepsName(target: Schema, r: Resource, op: Op, canonical: Canonical)
    requires !op.AddResource? && !op.DropResource? && !op.RenameResource?
    ensures var t := Local(target, r, op, canonical); t.Ok? ==> t.value.name == r.name
  {
  }

  lemma ApplyDistinct(target: Schema, current: Schema, op: Op, canonical: Canonical)
    requires DistinctResources(current) && Apply(target, current, op, canonical).Ok?
    ensures DistinctResources(Apply(target, current, op, canonical).value)
  {
    match op
    case DropResource(key) => OthersDistinct(current, key);
    case AddResource(_) =>
    case RenameResource(_, _) =>
    case _ =>
      var at := ResourceAt(current, op.resource);
      LocalKeepsName(target, current[at.value], op, canonical);
  }

  // ----- blob fields -----

  predicate HoldsField(s: Schema, name: string, f: Field) {
    exists i :: 0 <= i < |s| && s[i].name == name && f in s[i].fields && DistinctFields(s[i].fields)
  }

  lemma {:induction false} OtherFieldsDistinct(fields: seq<Field>, name: string)
    requires DistinctFields(fields)
    ensures DistinctFields(OtherFields(fields, name))
  {
    if fields != [] {
      OtherFieldsDistinct(fields[1..], name);
      var rest := OtherFields(fields[1..], name);
      forall i | 0 <= i < |rest| ensures rest[i].name != fields[0].name {
        assert rest[i] in fields[1..];
      }
    }
  }

  lemma ReplaceKeeps(fields: seq<Field>, at: nat, g: Field, f: Field)
    requires at < |fields| && DistinctFields(fields) && f in fields && f != fields[at]
    requires g.name == fields[at].name || forall i :: 0 <= i < |fields| ==> fields[i].name != g.name
    ensures f in fields[at := g] && DistinctFields(fields[at := g])
  {
    var j :| 0 <= j < |fields| && fields[j] == f;
    assert fields[at := g][j] == f;
  }

  lemma DropKeepsBlob(target: Schema, r: Resource, op: Op, canonical: Canonical, f: Field)
    requires op.DropField? && f in r.fields && f.kind.BlobKind? && DistinctFields(r.fields)
    requires Local(target, r, op, canonical).Ok?
    ensures var t := Local(target, r, op, canonical).value; f in t.fields && DistinctFields(t.fields)
  {
    OtherFieldsDistinct(r.fields, op.field);
    var j :| 0 <= j < |r.fields| && r.fields[j] == f;
    assert r.fields[FieldAt(r.fields, op.field).value] != f;
  }

  lemma LocalKeepsBlob(target: Schema, r: Resource, op: Op, canonical: Canonical, f: Field)
    requires !op.AddResource? && !op.DropResource? && !op.RenameResource?
    requires f in r.fields && f.kind.BlobKind? && DistinctFields(r.fields) && Local(target, r, op, canonical).Ok?
    ensures var t := Local(target, r, op, canonical).value; f in t.fields && DistinctFields(t.fields)
  {
    var t := Local(target, r, op, canonical).value;
    match op
    case AddField(_, _, _) =>
      assert t.fields == r.fields + [t.fields[|r.fields|]];
    case DropField(_, _) => DropKeepsBlob(target, r, op, canonical, f);
    case RenameField(_, from, to) =>
      var at := FieldAt(r.fields, from).value;
      ReplaceKeeps(r.fields, at, t.fields[at], f);
    case TextToInteger(_, name) => AdoptKeeps(r, t, name, f);
    case IntegerToText(_, name) => AdoptKeeps(r, t, name, f);
    case MapChoices(_, name, _) => AdoptKeeps(r, t, name, f);
    case ChangeField(_, name) => AdoptKeeps(r, t, name, f);
    case _ =>
  }

  lemma AdoptKeeps(r: Resource, t: Resource, name: string, f: Field)
    requires FieldAt(r.fields, name).Some? && f in r.fields && DistinctFields(r.fields)
    requires var at := FieldAt(r.fields, name).value;
             r.fields[at] != f && at < |t.fields| && t.fields == r.fields[at := t.fields[at]] && t.fields[at].name == name
    ensures f in t.fields && DistinctFields(t.fields)
  {
    var at := FieldAt(r.fields, name).value;
    ReplaceKeeps(r.fields, at, t.fields[at], f);
  }

  lemma ApplyKeepsBlob(target: Schema, current: Schema, op: Op, canonical: Canonical, name: string, f: Field)
    requires DistinctResources(current) && HoldsField(current, name, f) && f.kind.BlobKind?
    requires Apply(target, current, op, canonical).Ok?
    ensures HoldsField(Apply(target, current, op, canonical).value, name, f)
  {
    var next := Apply(target, current, op, canonical).value;
    var i :| 0 <= i < |current| && current[i].name == name && f in current[i].fields && DistinctFields(current[i].fields);
    assert HasBlob(current[i]) by {
      var j :| 0 <= j < |current[i].fields| && current[i].fields[j] == f;
    }
    if op.DropResource? {
      DropKeeps(current, op.resource, i);
    } else if op.AddResource? || op.RenameResource? {
      ResourceStepKeepsBlob(target, current, op, canonical, i);
      assert HoldsField(next, name, f);
    } else {
      LocalStepKeepsBlob(target, current, op, canonical, i, f);
      assert next[i].name == name;
    }
  }

  lemma ResourceStepKeepsBlob(target: Schema, current: Schema, op: Op, canonical: Canonical, i: nat)
    requires i < |current| && HasBlob(current[i]) && Apply(target, current, op, canonical).Ok?
    requires op.AddResource? || op.RenameResource?
    ensures var next := Apply(target, current, op, canonical).value; i < |next| && next[i] == current[i]
  {
  }

  lemma DropKeeps(current: Schema, key: string, i: nat)
    requires i < |current| && current[i].name != key
    ensures exists k :: 0 <= k < |OtherResources(current, key)| && OtherResources(current, key)[k] == current[i]
  {
    assert current[i] in current;
    assert current[i] in OtherResources(current, key);
  }

  lemma LocalStepKeepsBlob(target: Schema, current: Schema, op: Op, canonical: Canonical, i: nat, f: Field)
    requires !op.AddResource? && !op.DropResource? && !op.RenameResource?
    requires i < |current| && f in current[i].fields && DistinctFields(current[i].fields) && f.kind.BlobKind?
    requires Apply(target, current, op, canonical).Ok?
    ensures var next := Apply(target, current, op, canonical).value;
            |next| == |current| && next[i].name == current[i].name && f in next[i].fields && DistinctFields(next[i].fields)
  {
    var at := ResourceAt(current, op.resource).value;
    LocalKeepsName(target, current[at], op, canonical);
    if at == i {
      LocalKeepsBlob(target, current[at], op, canonical, f);
    }
  }

  lemma {:induction false} AllKeepBlob(target: Schema, current: Schema, ops: seq<Op>, canonical: Canonical, name: string, f: Field)
    requires DistinctResources(current) && HoldsField(current, name, f) && f.kind.BlobKind?
    requires ApplyAll(target, current, ops, canonical).Ok?
    ensures var final := ApplyAll(target, current, ops, canonical).value; DistinctResources(final) && HoldsField(final, name, f)
    decreases |ops|
  {
    if ops != [] {
      var n := |ops| - 1;
      AllKeepBlob(target, current, ops[..n], canonical, name, f);
      var before := ApplyAll(target, current, ops[..n], canonical).value;
      ApplyDistinct(target, before, ops[n], canonical);
      ApplyKeepsBlob(target, before, ops[n], canonical, name, f);
    }
  }

  /** Every blob field of the source is in the target, in the resource of the same name, under the
      same name and unchanged but for presentation. */
  lemma BlobFieldsSurvive(source: Schema, target: Schema, ops: seq<Op>, canonical: Canonical, i: nat, j: nat)
    requires WellNamed(source) && Accepts(source, target, ops, canonical)
    requires i < |source| && j < |source[i].fields| && source[i].fields[j].kind.BlobKind?
    ensures exists k, l ::
      && 0 <= k < |target| && 0 <= l < |target[k].fields| && target[k].name == source[i].name
      && NormalField(target[k].fields[l]) == NormalField(source[i].fields[j])
  {
    var f := NormalField(source[i].fields[j]);
    var start, goal := Normalized(source), Normalized(target);
    NormalIsDistinct(source);
    NormalFieldsDistinct(source[i]);
    NormalResourceIn(source, NormalResource(source[i]));
    NormalFieldIn(source[i], f);
    assert HoldsField(start, source[i].name, f) by {
      var a :| 0 <= a < |start| && start[a] == NormalResource(source[i]);
    }
    AllKeepBlob(goal, start, ops, canonical, source[i].name, f);
    var final := ApplyAll(goal, start, ops, canonical).value;
    var b :| 0 <= b < |final| && final[b].name == source[i].name && f in final[b].fields;
    FoundInTarget(final, target, b, f);
  }

  lemma FoundInTarget(final: Schema, target: Schema, b: nat, f: Field)
    requires Normalized(final) == Normalized(target) && b < |final| && f in final[b].fields && NormalField(f) == f
    ensures exists k, l ::
      && 0 <= k < |target| && 0 <= l < |target[k].fields| && target[k].name == final[b].name
      && NormalField(target[k].fields[l]) == f
  {
    var c :| 0 <= c < |final[b].fields| && final[b].fields[c] == f;
    NormalResourceIn(final, NormalResource(final[b]));
    NormalFieldIn(final[b], f);
    NormalResourceIn(target, NormalResource(final[b]));
    var k :| 0 <= k < |target| && NormalResource(target[k]) == NormalResource(final[b]);
    NormalFieldIn(target[k], f);
    var l :| 0 <= l < |target[k].fields| && f == NormalField(target[k].fields[l]);
    assert target[k].name == NormalResource(target[k]).name == final[b].name;
  }

  // ----- identity fields -----

  /** Kinds that bind a record to an account, another record or an attachment. */
  predicate Identity(k: Kind) {
    k.AccountKind? || k.ReferenceKind? || k.BlobKind?
  }

  /** The name a resource had before an operation; none if the operation created it. */
  function ResourceBefore(op: Op, name: string): Option<string> {
    match op
    case AddResource(key) => if key == name then None else Some(name)
    case RenameResource(from, to) => if to == name then Some(from) else Some(name)
    case _ => Some(name)
  }

  function FieldBefore(op: Op, resource: string, name: string): Option<string> {
    match op
    case AddField(r, f, _) => if r == resource && f == name then None else Some(name)
    case RenameField(r, from, to) => if r == resource && to == name then Some(from) else Some(name)
    case _ => Some(name)
  }

  /** The source name of a resource carried over by the operations. */
  function Origin(ops: seq<Op>, name: string): Option<string>
    decreases |ops|
  {
    if ops == [] then Some(name)
    else
      var before := ResourceBefore(ops[|ops| - 1], name);
      if before.None? then None else Origin(ops[..|ops| - 1], before.value)
  }

  function FieldOrigin(ops: seq<Op>, resource: string, name: string): Option<string>
    decreases |ops|
  {
    if ops == [] then Some(name)
    else
      var op := ops[|ops| - 1];
      var r, f := ResourceBefore(op, resource), FieldBefore(op, resource, name);
      if r.None? || f.None? then None else FieldOrigin(ops[..|ops| - 1], r.value, f.value)
  }

  /** Every identity field of `after` was one of the same kind in `before`. */
  predicate FieldsInherit(op: Op, before: Resource, after: Resource) {
    forall i :: 0 <= i < |after.fields| && Identity(after.fields[i].kind) ==>
      exists j :: 0 <= j < |before.fields|
        && before.fields[j].kind == after.fields[i].kind
        && FieldBefore(op, after.name, after.fields[i].name) == Some(before.fields[j].name)
  }

  lemma AdoptInherits(target: Schema, r: Resource, op: Op, name: string, fits: (Kind, Kind) -> bool)
    requires !op.AddField? && !op.RenameField? && Adopt(target, r, name, fits).Ok?
    requires forall a, b :: fits(a, b) && Identity(b) ==> a == b
    ensures FieldsInherit(op, r, Adopt(target, r, name, fits).value)
  {
    var t := Adopt(target, r, name, fits).value;
    var at := FieldAt(r.fields, name).value;
    forall i | 0 <= i < |t.fields| && Identity(t.fields[i].kind)
      ensures r.fields[i].kind == t.fields[i].kind && FieldBefore(op, t.name, t.fields[i].name) == Some(r.fields[i].name)
    {
      if i == at {
        assert fits(r.fields[at].kind, t.fields[at].kind);
      }
    }
  }

  lemma RenameInherits(target: Schema, r: Resource, op: Op)
    requires op.RenameField? && op.resource == r.name && RenameIn(target, r, op.from, op.to).Ok?
    ensures FieldsInherit(op, r, RenameIn(target, r, op.from, op.to).value)
  {
    var t := RenameIn(target, r, op.from, op.to).value;
    forall i | 0 <= i < |t.fields| && Identity(t.fields[i].kind)
      ensures r.fields[i].kind == t.fields[i].kind && FieldBefore(op, t.name, t.fields[i].name) == Some(r.fields[i].name)
    {
    }
  }

  lemma AddInherits(target: Schema, r: Resource, op: Op, canonical: Canonical)
    requires op.AddField? && op.resource == r.name && AddIn(target, r, op.field, op.value, canonical).Ok?
    ensures FieldsInherit(op, r, AddIn(target, r, op.field, op.value, canonical).value)
  {
    var t := AddIn(target, r, op.field, op.value, canonical).value;
    forall i | 0 <= i < |t.fields| && Identity(t.fields[i].kind)
      ensures i < |r.fields| && r.fields[i] == t.fields[i] && FieldBefore(op, t.name, t.fields[i].name) == Some(r.fields[i].name)
    {
    }
  }

  lemma SubsetInherits(op: Op, r: Resource, t: Resource)
    requires !op.AddField? && !op.RenameField? && t.name == r.name && forall x :: x in t.fields ==> x in r.fields
    ensures FieldsInherit(op, r, t)
  {
    forall i | 0 <= i < |t.fields| && Identity(t.fields[i].kind)
      ensures exists j :: 0 <= j < |r.fields| && r.fields[j].kind == t.fields[i].kind
                          && FieldBefore(op, t.name, t.fields[i].name) == Some(r.fields[j].name)
    {
      assert t.fields[i] in t.fields;
      var j :| 0 <= j < |r.fields| && r.fields[j] == t.fields[i];
    }
  }

  lemma LocalInherits(target: Schema, r: Resource, op: Op, canonical: Canonical)
    requires !op.AddResource? && !op.DropResource? && !op.RenameResource?
    requires op.resource == r.name && Local(target, r, op, canonical).Ok?
    ensures FieldsInherit(op, r, Local(target, r, op, canonical).value)
  {
    if op.AddField? {
      AddInherits(target, r, op, canonical);
    } else if op.RenameField? {
      RenameInherits(target, r, op);
    } else if op.TextToInteger? {
      AdoptInherits(target, r, op, op.field, (a: Kind, b: Kind) => a.TextKind? && b.IntegerKind?);
    } else if op.IntegerToText? {
      AdoptInherits(target, r, op, op.field, (a: Kind, b: Kind) => a.IntegerKind? && b.TextKind?);
    } else if op.MapChoices? {
      AdoptInherits(target, r, op, op.field, (a: Kind, b: Kind) => MappingFits(op.mapping, a, b));
    } else if op.ChangeField? {
      AdoptInherits(target, r, op, op.field, (a: Kind, b: Kind) => SameKind(a, b));
    } else {
      SubsetInherits(op, r, Local(target, r, op, canonical).value);
    }
  }

  /** Every resource after an operation was there before, unless the operation created it, and its
      identity fields with it. */
  lemma ApplyInherits(target: Schema, current: Schema, op: Op, canonical: Canonical, i: nat) returns (j: nat)
    requires DistinctResources(current) && Apply(target, current, op, canonical).Ok?
    requires i < |Apply(target, current, op, canonical).value|
    requires ResourceBefore(op, Apply(target, current, op, canonical).value[i].name).Some?
    ensures var c := Apply(target, current, op, canonical).value[i];
            && j < |current| && ResourceBefore(op, c.name) == Some(current[j].name)
            && FieldsInherit(op, current[j], c)
  {
    var next := Apply(target, current, op, canonical).value;
    match op
    case AddResource(_) =>
      j := i;
      SubsetInherits(op, current[j], next[i]);
    case DropResource(_) =>
      assert next[i] in current;
      j :| 0 <= j < |current| && current[j] == next[i];
      SubsetInherits(op, current[j], next[i]);
    case RenameResource(from, to) =>
      j := i;
      RenamedInherits(op, current[j], next[i]);
    case _ =>
      j := i;
      LocalStepInherits(target, current, op, canonical, i);
  }

  lemma RenamedInherits(op: Op, r: Resource, t: Resource)
    requires op.RenameResource? && t.fields == r.fields
    ensures FieldsInherit(op, r, t)
  {
    forall i | 0 <= i < |t.fields|
      ensures r.fields[i].kind == t.fields[i].kind && FieldBefore(op, t.name, t.fields[i].name) == Some(r.fields[i].name)
    {
    }
  }

  lemma LocalStepInherits(target: Schema, current: Schema, op: Op, canonical: Canonical, i: nat)
    requires !op.AddResource? && !op.DropResource? && !op.RenameResource?
    requires DistinctResources(current) && i < |current| && Apply(target, current, op, canonical).Ok?
    ensures var next := Apply(target, current, op, canonical).value;
            |next| == |current| && next[i].name == current[i].name && FieldsInherit(op, current[i], next[i])
  {
    var at := ResourceAt(current, op.resource).value;
    LocalKeepsName(target, current[at], op, canonical);
    if at == i {
      LocalInherits(target, current[at], op, canonical);
    } else {
      var c := current[i];
      assert c.name != op.resource;
      forall k | 0 <= k < |c.fields|
        ensures FieldBefore(op, c.name, c.fields[k].name) == Some(c.fields[k].name)
      {
      }
    }
  }

  /** Every identity field of the resource comes from one of the same kind in its source. */
  predicate Inherited(ops: seq<Op>, s: Resource, c: Resource) {
    forall i :: 0 <= i < |c.fields| && Identity(c.fields[i].kind) ==>
      exists j :: 0 <= j < |s.fields|
        && s.fields[j].kind == c.fields[i].kind
        && FieldOrigin(ops, c.name, c.fields[i].name) == Some(s.fields[j].name)
  }

  lemma InheritedStep(ops: seq<Op>, s: Resource, b: Resource, c: Resource)
    requires ops != [] && ResourceBefore(ops[|ops| - 1], c.name) == Some(b.name)
    requires Inherited(ops[..|ops| - 1], s, b) && FieldsInherit(ops[|ops| - 1], b, c)
    ensures Inherited(ops, s, c)
  {
    var n := |ops| - 1;
    forall i | 0 <= i < |c.fields| && Identity(c.fields[i].kind)
      ensures exists j :: 0 <= j < |s.fields| && s.fields[j].kind == c.fields[i].kind
                          && FieldOrigin(ops, c.name, c.fields[i].name) == Some(s.fields[j].name)
    {
      var k :| 0 <= k < |b.fields| && b.fields[k].kind == c.fields[i].kind
               && FieldBefore(ops[n], c.name, c.fields[i].name) == Some(b.fields[k].name);
      var j :| 0 <= j < |s.fields| && s.fields[j].kind == b.fields[k].kind
               && FieldOrigin(ops[..n], b.name, b.fields[k].name) == Some(s.fields[j].name);
    }
  }

  lemma {:induction false} AllInherit(target: Schema, start: Schema, ops: seq<Op>, canonical: Canonical, i: nat) returns (j: nat)
    requires DistinctResources(start) && ApplyAll(target, start, ops, canonical).Ok?
    requires i < |ApplyAll(target, start, ops, canonical).value|
    requires Origin(ops, ApplyAll(target, start, ops, canonical).value[i].name).Some?
    ensures var c := ApplyAll(target, start, ops, canonical).value[i];
            j < |start| && Origin(ops, c.name) == Some(start[j].name) && Inherited(ops, start[j], c)
    decreases |ops|
  {
    if ops == [] {
      j := i;
    } else {
      var n := |ops| - 1;
      var before := ApplyAll(target, start, ops[..n], canonical).value;
      AllDistinct(target, start, ops[..n], canonical);
      var b := ApplyInherits(target, before, ops[n], canonical, i);
      j := AllInherit(target, start, ops[..n], canonical, b);
      InheritedStep(ops, start[j], before[b], ApplyAll(target, start, ops, canonical).value[i]);
    }
  }

  lemma {:induction false} AllDistinct(target: Schema, start: Schema, ops: seq<Op>, canonical: Canonical)
    requires DistinctResources(start) && ApplyAll(target, start, ops, canonical).Ok?
    ensures DistinctResources(ApplyAll(target, start, ops, canonical).value)
    decreases |ops|
  {
    if ops != [] {
      var n := |ops| - 1;
      AllDistinct(target, start, ops[..n], canonical);
      ApplyDistinct(target, ApplyAll(target, start, ops[..n], canonical).value, ops[n], canonical);
    }
  }

  /** In an accepted migration, every resource of the target that was carried over from the source
      has each of its account, reference and blob fields from a source field of exactly that kind:
      no operation turns another kind into one of them. */
  lemma IdentityIsInherited(source: Schema, target: Schema, ops: seq<Op>, canonical: Canonical, k: nat)
    requires DistinctResources(source) && Accepts(source, target, ops, canonical)
    requires k < |target| && Origin(ops, target[k].name).Some?
    ensures exists j :: 0 <= j < |source| && Origin(ops, target[k].name) == Some(source[j].name) && Inherited(ops, source[j], target[k])
  {
    var start, goal := Normalized(source), Normalized(target);
    NormalIsDistinct(source);
    var final := ApplyAll(goal, start, ops, canonical).value;
    var n := NormalResource(target[k]);
    NormalResourceIn(target, n);
    NormalResourceIn(final, n);
    var i :| 0 <= i < |final| && n == NormalResource(final[i]);
    var a := AllInherit(goal, start, ops, canonical, i);
    assert start[a] in start;
    NormalResourceIn(source, start[a]);
    var j :| 0 <= j < |source| && start[a] == NormalResource(source[j]);
    InheritedNormal(ops, source[j], final[i], target[k]);
  }

  /** Normal forms keep names and identity kinds. */
  lemma InheritedNormal(ops: seq<Op>, s: Resource, c: Resource, t: Resource)
    requires Inherited(ops, NormalResource(s), c) && NormalResource(c) == NormalResource(t)
    ensures Inherited(ops, s, t)
  {
    assert c.name == NormalResource(c).name == NormalResource(t).name == t.name;
    forall i | 0 <= i < |t.fields| && Identity(t.fields[i].kind)
      ensures exists j :: 0 <= j < |s.fields| && s.fields[j].kind == t.fields[i].kind
                          && FieldOrigin(ops, t.name, t.fields[i].name) == Some(s.fields[j].name)
    {
      InheritedField(ops, s, c, t, i);
    }
  }

  lemma InheritedField(ops: seq<Op>, s: Resource, c: Resource, t: Resource, i: nat)
    requires Inherited(ops, NormalResource(s), c) && NormalResource(c) == NormalResource(t) && c.name == t.name
    requires i < |t.fields| && Identity(t.fields[i].kind)
    ensures exists j :: 0 <= j < |s.fields| && s.fields[j].kind == t.fields[i].kind
                        && FieldOrigin(ops, t.name, t.fields[i].name) == Some(s.fields[j].name)
  {
    var k := SharedField(c, t, i);
    var normal := NormalResource(s).fields;
    var a :| 0 <= a < |normal| && normal[a].kind == c.fields[k].kind
             && FieldOrigin(ops, c.name, c.fields[k].name) == Some(normal[a].name);
    var j := SourceField(s, a);
  }

  /** Resources with the same normal form have the same fields, presentation aside. */
  lemma SharedField(c: Resource, t: Resource, i: nat) returns (k: nat)
    requires NormalResource(c) == NormalResource(t) && i < |t.fields| && Identity(t.fields[i].kind)
    ensures k < |c.fields| && c.fields[k].name == t.fields[i].name && c.fields[k].kind == t.fields[i].kind
  {
    var f := NormalField(t.fields[i]);
    NormalFieldIn(t, f);
    NormalFieldIn(c, f);
    k :| 0 <= k < |c.fields| && f == NormalField(c.fields[k]);
  }

  lemma SourceField(s: Resource, a: nat) returns (j: nat)
    requires a < |NormalResource(s).fields| && Identity(NormalResource(s).fields[a].kind)
    ensures j < |s.fields|
    ensures s.fields[j].name == NormalResource(s).fields[a].name && s.fields[j].kind == NormalResource(s).fields[a].kind
  {
    var f := NormalResource(s).fields[a];
    assert f in NormalResource(s).fields;
    NormalFieldIn(s, f);
    j :| 0 <= j < |s.fields| && f == NormalField(s.fields[j]);
  }

  // ----- renamed fields -----

  /** The field a name stands for: its place in the declaration. */
  predicate StandsFor(fields: seq<Field>, name: string, i: nat) {
    i < |fields| && fields[i].name == name
  }

  /** After a rename the gate, the expiry and the unique tuples stand for the same fields as
      before, and everything else about them is unchanged. */
  lemma RenameFollows(target: Schema, r: Resource, from: string, to: string, i: nat)
    requires DistinctFields(r.fields) && RenameIn(target, r, from, to).Ok? && i < |r.fields|
    ensures var t := RenameIn(target, r, from, to).value;
            && |t.fields| == |r.fields| && t.fields[i].kind == r.fields[i].kind && t.name == r.name && t.search == r.search
            && (r.gate.None? <==> t.gate.None?) && (r.expiry.None? <==> t.expiry.None?) && |t.unique| == |r.unique|
            && (r.gate.Some? && StandsFor(r.fields, r.gate.value.field, i) ==>
                  StandsFor(t.fields, t.gate.value.field, i) && t.gate.value.rule == r.gate.value.rule)
            && (r.expiry.Some? && StandsFor(r.fields, r.expiry.value.field, i) ==>
                  StandsFor(t.fields, t.expiry.value.field, i) && t.expiry.value.maxAfter == r.expiry.value.maxAfter)
            && (forall k :: 0 <= k < |r.unique| ==>
                  && (StandsFor(r.fields, r.unique[k].reference, i) ==> StandsFor(t.fields, t.unique[k].reference, i))
                  && (StandsFor(r.fields, r.unique[k].account, i) ==> StandsFor(t.fields, t.unique[k].account, i)))
  {
    var at := FieldAt(r.fields, from).value;
    assert r.fields[i].name == from <==> i == at;
  }

  // ----- disappearing resources -----

  predicate Named(s: Schema, name: string) {
    exists i :: 0 <= i < |s| && s[i].name == name
  }

  predicate Removes(op: Op, name: string) {
    op == DropResource(name) || (op.RenameResource? && op.from == name)
  }

  lemma ApplyKeepsNamed(target: Schema, current: Schema, op: Op, canonical: Canonical, name: string)
    requires Named(current, name) && Apply(target, current, op, canonical).Ok? && !Removes(op, name)
    ensures Named(Apply(target, current, op, canonical).value, name)
  {
    var next := Apply(target, current, op, canonical).value;
    var i :| 0 <= i < |current| && current[i].name == name;
    if op.DropResource? {
      DropKeeps(current, op.resource, i);
    } else if op.AddResource? || op.RenameResource? {
      assert next[i] == current[i];
    } else {
      var at := ResourceAt(current, op.resource).value;
      LocalKeepsName(target, current[at], op, canonical);
      assert next[i].name == name;
    }
  }

  lemma {:induction false} AllKeepNamed(target: Schema, start: Schema, ops: seq<Op>, canonical: Canonical, name: string)
    requires Named(start, name) && ApplyAll(target, start, ops, canonical).Ok?
    ensures Named(ApplyAll(target, start, ops, canonical).value, name) || exists i :: 0 <= i < |ops| && Removes(ops[i], name)
    decreases |ops|
  {
    if ops != [] {
      var n := |ops| - 1;
      AllKeepNamed(target, start, ops[..n], canonical, name);
      if Named(ApplyAll(target, start, ops[..n], canonical).value, name) {
        if !Removes(ops[n], name) {
          ApplyKeepsNamed(target, ApplyAll(target, start, ops[..n], canonical).value, ops[n], canonical, name);
        }
      } else {
        var i :| 0 <= i < |ops[..n]| && Removes(ops[..n][i], name);
        assert Removes(ops[i], name);
      }
    }
  }

  lemma NamedNormal(s: Schema, name: string)
    ensures Named(Normalized(s), name) <==> Named(s, name)
  {
    if Named(s, name) {
      var i :| 0 <= i < |s| && s[i].name == name;
      NormalResourceIn(s, NormalResource(s[i]));
      var j :| 0 <= j < |Normalized(s)| && Normalized(s)[j] == NormalResource(s[i]);
    }
    if Named(Normalized(s), name) {
      var j :| 0 <= j < |Normalized(s)| && Normalized(s)[j].name == name;
      assert Normalized(s)[j] in Normalized(s);
      NormalResourceIn(s, Normalized(s)[j]);
    }
  }

  /** A resource that disappears is named by a drop or a rename. */
  lemma RemovalsAreExplicit(source: Schema, target: Schema, ops: seq<Op>, canonical: Canonical, name: string)
    requires Accepts(source, target, ops, canonical) && Named(source, name) && !Named(target, name)
    ensures exists i :: 0 <= i < |ops| && Removes(ops[i], name)
  {
    NamedNormal(source, name);
    NamedNormal(target, name);
    AllKeepNamed(Normalized(target), Normalized(source), ops, canonical, name);
    NamedNormal(ApplyAll(Normalized(target), Normalized(source), ops, canonical).value, name);
  }
}
