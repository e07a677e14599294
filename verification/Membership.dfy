/** Expiry and one-hop membership, evaluated on rows and compiled to SQL
    (crates/noxide-admission/src/expiry.rs, crates/noxide-admission/src/membership.rs). */
module Membership {
  import opened Prelude
  import Decimal
  import opened PolicySql
  import opened Policy

  const MAX_MEMBERSHIP_PREDICATES: nat := 2
  const MAX_MEMBERSHIP_CONDITIONS: nat := 4

  // ----- the declared schema -----

  datatype FieldKind =
    | BooleanKind
    | ChoiceKind(variants: seq<string>)
    | TimestampKind
    | ReferenceKind(resource: string)
    | AccountKind
    | OtherKind

  datatype Field = Field(name: string, kind: FieldKind, optional: bool, hasInitial: bool, maxBytes: nat)

  datatype Expiry = Expiry(field: string, maxAfter: nat)

  datatype Resource = Resource(id: nat, name: string, fields: seq<Field>, expiry: Option<Expiry>)

  type Manifest = seq<Resource>

  function FieldNamed(fields: seq<Field>, name: string): (r: Option<Field>)
    ensures r.Some? ==> r.value in fields && r.value.name == name
    ensures r.None? ==> forall f :: f in fields ==> f.name != name
  {
    if fields == [] then None
    else if fields[0].name == name then Some(fields[0])
    else FieldNamed(fields[1..], name)
  }

  function ResourceNamed(m: Manifest, name: string): (r: Option<Resource>)
    ensures r.Some? ==> r.value in m && r.value.name == name
    ensures r.None? ==> forall x :: x in m ==> x.name != name
  {
    if m == [] then None
    else if m[0].name == name then Some(m[0])
    else ResourceNamed(m[1..], name)
  }

  function ResourceById(m: Manifest, id: nat): (r: Option<Resource>)
    ensures r.Some? ==> r.value in m && r.value.id == id
    ensures r.None? ==> forall x :: x in m ==> x.id != id
  {
    if m == [] then None
    else if m[0].id == id then Some(m[0])
    else ResourceById(m[1..], id)
  }

  /** `validate_value`: stored text is canonical for its field. */
  predicate CanonicalValue(field: Field, value: string) {
    (field.optional && value == "") ||
    (&& |value| <= field.maxBytes
     && match field.kind
        case BooleanKind => value == "true" || value == "false"
        case ChoiceKind(variants) => value in variants
        case TimestampKind => Decimal.Read(value).Some?
        case ReferenceKind(_) => Decimal.Read(value).Some? && Decimal.Read(value).value > 0
        case AccountKind => AccountId(value)
        case OtherKind => true)
  }

  predicate AccountId(s: string) {
    && |s| == 43
    && (forall i :: 0 <= i < |s| ==>
          'a' <= s[i] <= 'z' || 'A' <= s[i] <= 'Z' || '0' <= s[i] <= '9' || s[i] == '-' || s[i] == '_')
    && s[42] in "AEIMQUYcgkosw048"
  }

  /** The character URL-safe base64 writes for six bits. */
  function Url64(v: nat): char
    requires v < 64
  {
    if v < 26 then ('A' as int + v) as char
    else if v < 52 then ('a' as int + v - 26) as char
    else if v < 62 then ('0' as int + v - 52) as char
    else if v == 62 then '-'
    else '_'
  }

  /** Forty-three characters hold 258 bits: a 32-byte key, and two bits that must be zero. */
  predicate SpellsKey(s: string, values: seq<nat>) {
    && |s| == |values| == 43
    && (forall i :: 0 <= i < 43 ==> values[i] < 64 && s[i] == Url64(values[i]))
    && values[42] % 4 == 0
  }

  function UrlValue(c: char): (v: nat)
    requires 'a' <= c <= 'z' || 'A' <= c <= 'Z' || '0' <= c <= '9' || c == '-' || c == '_'
    ensures v < 64 && Url64(v) == c
  {
    if 'A' <= c <= 'Z' then c as int - 'A' as int
    else if 'a' <= c <= 'z' then c as int - 'a' as int + 26
    else if '0' <= c <= '9' then c as int - '0' as int + 52
    else if c == '-' then 62
    else 63
  }

  lemma LastCharacter(v: nat)
    requires v < 64
    ensures Url64(v) in "AEIMQUYcgkosw048" <==> v % 4 == 0
  {
    var ends := "AEIMQUYcgkosw048";
    assert ends == ['A', 'E', 'I', 'M', 'Q', 'U', 'Y', 'c', 'g', 'k', 'o', 's', 'w', '0', '4', '8'];
  }

  /** Account identifiers are the canonical spellings of 32-byte keys. */
  lemma AccountIdsSpellKeys(s: string)
    ensures AccountId(s) <==> exists values :: SpellsKey(s, values)
  {
    if AccountId(s) {
      var values := seq(43, i requires 0 <= i < 43 => UrlValue(s[i]));
      LastCharacter(values[42]);
      assert SpellsKey(s, values);
    }
    if values :| SpellsKey(s, values) {
      LastCharacter(values[42]);
      assert s[42] == Url64(values[42]);
    }
  }

  /** What canonical text is, for each kind of field. */
  lemma CanonicalValuesAre(field: Field, value: string)
    ensures CanonicalValue(field, value) <==>
      || (field.optional && value == "")
      || (&& |value| <= field.maxBytes
          && (field.kind == BooleanKind ==> value in ["true", "false"])
          && (field.kind.ChoiceKind? ==> value in field.kind.variants)
          && (field.kind == TimestampKind ==> exists n: nat :: n <= I64_MAX && value == Decimal.Print(n))
          && (field.kind.ReferenceKind? ==> exists n: nat :: 0 < n <= I64_MAX && value == Decimal.Print(n))
          && (field.kind == AccountKind ==> AccountId(value)))
  {
    if n: nat :| n <= I64_MAX && value == Decimal.Print(n) {
      Decimal.ReadPrint(n);
    }
  }

  // ----- expiry -----

  function ExpiresAt(resource: Resource, fields: map<string, string>): Result<Option<nat>> {
    if resource.expiry.None? then Ok(None)
    else
      var name := resource.expiry.value.field;
      var field := FieldNamed(resource.fields, name);
      if field.None? || name !in fields || !CanonicalValue(field.value, fields[name]) then Err
      else
        var at := Decimal.Read(fields[name]);
        if at.None? then Err else Ok(Some(at.value))
  }

  function Available(resource: Resource, fields: map<string, string>, time: Option<nat>): Result<bool> {
    var expires :- ExpiresAt(resource, fields);
    if expires.None? then Ok(true)
    else if time.None? then Err
    else Ok(expires.value > time.value)
  }

  /** Approved maintenance by a worker also sees expired rows, if their expiry is readable. */
  function AvailableTo(resource: Resource, fields: map<string, string>, time: Option<nat>, maintenance: bool,
                       principal: Principal): Result<bool>
  {
    if maintenance && principal.Worker? then
      if resource.expiry.Some? && (time.None? || ExpiresAt(resource, fields).Err?) then Err else Ok(true)
    else Available(resource, fields, time)
  }

  /** `check_write` on a create: the expiry is readable and within the horizon. */
  predicate CanCreate(resource: Resource, fields: map<string, string>, time: Option<nat>) {
    resource.expiry.None? ||
    (&& ExpiresAt(resource, fields).Ok?
     && time.Some?
     && time.value + resource.expiry.value.maxAfter <= I64_MAX
     && ExpiresAt(resource, fields).value.value <= time.value + resource.expiry.value.maxAfter)
  }

  /** The declared expiry field holds canonical text of a time within the horizon of the attempt. */
  predicate WithinHorizon(resource: Resource, fields: map<string, string>, time: Option<nat>) {
    resource.expiry.Some? ==>
      var name, most := resource.expiry.value.field, resource.expiry.value.maxAfter;
      && time.Some? && time.value + most <= I64_MAX
      && (exists f :: f in resource.fields && FieldNamed(resource.fields, name) == Some(f)
                      && name in fields && CanonicalValue(f, fields[name]))
      && exists at: nat :: Decimal.Read(fields[name]) == Some(at) && at <= time.value + most
  }

  /** A create passes exactly with an expiry within its horizon. */
  lemma CreatesWithinHorizon(resource: Resource, fields: map<string, string>, time: Option<nat>)
    ensures CanCreate(resource, fields, time) <==> WithinHorizon(resource, fields, time)
  {
  }

  /** What the SQL expiry clause says of a row. */
  predicate Unexpired(db: Database, resource: Resource, fields: map<string, string>, time: nat) {
    resource.expiry.Some? ==>
      var name := resource.expiry.value.field;
      name in fields && db.cast(fields[name]).Number? && db.cast(fields[name]).number > time
  }

  /** On readable rows the SQL comparison of the cast text is the evaluator's comparison. */
  lemma ExpiryAgrees(db: Database, resource: Resource, fields: map<string, string>, time: nat)
    requires CastsDecimals(db) && Available(resource, fields, Some(time)).Ok?
    ensures Unexpired(db, resource, fields, time) == Available(resource, fields, Some(time)).value
  {
  }

  function FrameFields(f: Frame, onMember: bool): Option<map<string, string>> {
    if !onMember then Some(f.row.fields) else if f.member.Some? then Some(f.member.value.fields) else None
  }

  /** `expiry::sql`: one more conjunct, or none. */
  method ExpirySql(resource: Resource, time: Option<nat>, onMember: bool, params: Parameters) returns (r: Result<seq<Expr>>)
    modifies params
    ensures old(params.items) <= params.items
    ensures r.Ok? <==> resource.expiry.None? || time.Some?
    ensures r.Ok? && resource.expiry.None? ==> r.value == []
    ensures r.Ok? && resource.expiry.Some? ==> |r.value| == 1
    ensures r.Ok? && resource.expiry.Some? ==>
      forall db, f, more {:trigger Selects(db, f, more, r.value[0])} :: params.items <= more && FrameFields(f, onMember).Some? ==>
        (Selects(db, f, more, r.value[0]) <==> Unexpired(db, resource, FrameFields(f, onMember).value, time.value))
  {
    if resource.expiry.None? {
      return Ok([]);
    }
    if time.None? {
      return Err;
    }
    var t := params.Push(Number(time.value));
    var name := resource.expiry.value.field;
    var field := if onMember then MemberField(name) else RowField(name);
    r := Ok([Greater(AsNumber(field), t)]);
    forall db, f, more | params.items <= more && FrameFields(f, onMember).Some?
      ensures Read(db, f, more, t) == Number(time.value)
      ensures Read(db, f, more, field) == FieldOf(FrameFields(f, onMember).value, name)
    {
    }
  }

  // ----- membership plans -----

  datatype Plan = Plan(declaration: ExistsRelated, protectedReference: Option<Field>, resource: Resource)

  function LiteralText(l: MembershipLiteral): string {
    match l
    case BooleanLiteral(flag) => if flag then "true" else "false"
    case ChoiceLiteral(choice) => choice
  }

  predicate ConditionAdmitted(membership: Resource, c: (string, MembershipLiteral)) {
    var field := FieldNamed(membership.fields, c.0);
    && field.Some? && !field.value.optional
    && ((field.value.kind.BooleanKind? && c.1.BooleanLiteral?) || (field.value.kind.ChoiceKind? && c.1.ChoiceLiteral?))
    && CanonicalValue(field.value, LiteralText(c.1))
  }

  predicate Required(f: Option<Field>) {
    f.Some? && !f.value.optional && !f.value.hasInitial
  }

  /** `admit` for one declaration. */
  function Admit(m: Manifest, protected: Resource, d: ExistsRelated): (r: Result<Plan>)
    ensures r.Ok? ==> r.value.declaration == d && ResourceNamed(m, d.resource) == Some(r.value.resource)
    ensures r.Ok? && r.value.protectedReference.Some? ==> r.value.protectedReference.value.kind.ReferenceKind?
    ensures r.Ok? ==>
      match d.target
      case SelfRecord => r.value.protectedReference.None?
      case Reference(name) => r.value.protectedReference == FieldNamed(protected.fields, name) && FieldNamed(protected.fields, name).Some?
  {
    var membership := ResourceNamed(m, d.resource);
    if membership.None? || |d.conditions| > MAX_MEMBERSHIP_CONDITIONS then Err
    else
      var reference := FieldNamed(membership.value.fields, d.reference);
      var account := FieldNamed(membership.value.fields, d.account);
      if !Required(reference) || !reference.value.kind.ReferenceKind? then Err
      else if !Required(account) || !account.value.kind.AccountKind? then Err
      else if exists k :: 0 <= k < |d.conditions| && !ConditionAdmitted(membership.value, d.conditions[k]) then Err
      else
        match d.target
        case SelfRecord =>
          if reference.value.kind.resource == protected.name then Ok(Plan(d, None, membership.value)) else Err
        case Reference(name) =>
          var f := FieldNamed(protected.fields, name);
          if Required(f) && f.value.kind == reference.value.kind then Ok(Plan(d, f, membership.value)) else Err
  }

  /** The resource has a required field of this name, set on every record. */
  predicate HasRequired(resource: Resource, name: string, f: Field) {
    FieldNamed(resource.fields, name) == Some(f) && !f.optional && !f.hasInitial
  }

  /** What a declaration must find in the manifest: a membership resource whose reference points at
      the protected resource, or at what the named field of the protected resource points at. */
  predicate Declarable(m: Manifest, protected: Resource, d: ExistsRelated) {
    && |d.conditions| <= MAX_MEMBERSHIP_CONDITIONS
    && exists r :: r in m && ResourceNamed(m, d.resource) == Some(r) && MembershipFits(r, protected, d)
  }

  predicate MembershipFits(r: Resource, protected: Resource, d: ExistsRelated) {
    && (exists f :: f in r.fields && HasRequired(r, d.account, f) && f.kind == AccountKind)
    && (exists f :: f in r.fields && HasRequired(r, d.reference, f) && f.kind.ReferenceKind? && PointsAt(f.kind.resource, protected, d.target))
    && (forall k :: 0 <= k < |d.conditions| ==> ConditionAdmitted(r, d.conditions[k]))
  }

  predicate PointsAt(resource: string, protected: Resource, target: RelatedTarget) {
    match target
    case SelfRecord => resource == protected.name
    case Reference(name) => exists f :: f in protected.fields && HasRequired(protected, name, f) && f.kind == ReferenceKind(resource)
  }

  /** A declaration is admitted exactly when the manifest's fields fit it. */
  lemma AdmittedIffDeclarable(m: Manifest, protected: Resource, d: ExistsRelated)
    ensures Admit(m, protected, d).Ok? <==> Declarable(m, protected, d)
  {
  }

  /** A plan reads the row's own identity for a declaration about the record itself, and the field
      the declaration names otherwise. */
  lemma PlansReadTheirTarget(m: Manifest, protected: Resource, policy: Policy, p: Plan, row: Row)
    requires Plans(m, protected, policy).Ok? && p in Plans(m, protected, policy).value
    ensures TargetOf(p, row.id, row.fields) ==
              match p.declaration.target
              case SelfRecord => Text(Decimal.Print(row.id))
              case Reference(name) => FieldOf(row.fields, name)
  {
  }

  function RuleDeclarations(rule: seq<Predicate>): (ds: seq<ExistsRelated>)
    ensures forall d :: d in ds <==> Related(d) in rule
  {
    if rule == [] then []
    else (if rule[0].Related? then [rule[0].declaration] else []) + RuleDeclarations(rule[1..])
  }

  function Declarations(policy: Policy): (ds: seq<ExistsRelated>)
    ensures forall d :: d in ds <==> Declares(policy, d)
  {
    if policy == [] then []
    else
      var rest := Declarations(policy[1..]);
      DeclaresSplits(policy);
      RuleDeclarations(policy[0]) + rest
  }

  lemma DeclaresSplits(policy: Policy)
    requires policy != []
    ensures forall d :: Declares(policy, d) <==> Related(d) in policy[0] || Declares(policy[1..], d)
  {
    forall d ensures Declares(policy, d) <==> Related(d) in policy[0] || Declares(policy[1..], d) {
      if Declares(policy, d) {
        var r, i :| 0 <= r < |policy| && 0 <= i < |policy[r]| && policy[r][i] == Related(d);
        if r > 0 {
          assert policy[1..][r - 1][i] == Related(d);
        }
      }
      if Related(d) in policy[0] {
        var i :| 0 <= i < |policy[0]| && policy[0][i] == Related(d);
        assert policy[0][i] == Related(d);
      }
      if Declares(policy[1..], d) {
        var r, i :| 0 <= r < |policy[1..]| && 0 <= i < |policy[1..][r]| && policy[1..][r][i] == Related(d);
        assert policy[r + 1][i] == Related(d);
      }
    }
  }

  function AdmitAll(m: Manifest, protected: Resource, ds: seq<ExistsRelated>): (r: Result<seq<Plan>>)
    ensures r.Ok? ==> |r.value| <= |ds|
    ensures r.Ok? ==> forall p :: p in r.value ==> p.declaration in ds && Admit(m, protected, p.declaration) == Ok(p)
    ensures r.Ok? ==> forall d :: d in ds ==> Admit(m, protected, d).Ok? && Admit(m, protected, d).value in r.value
  {
    if ds == [] then Ok([])
    else
      var rest :- AdmitAll(m, protected, ds[1..]);
      if ds[0] in ds[1..] then Ok(rest)
      else
        var p :- Admit(m, protected, ds[0]);
        Ok([p] + rest)
  }

  /** `plans`: one plan per distinct declaration of the operation's policy. */
  function Plans(m: Manifest, protected: Resource, policy: Policy): (r: Result<seq<Plan>>)
    ensures r.Ok? ==> |r.value| <= MAX_MEMBERSHIP_PREDICATES
    ensures r.Ok? ==> forall p :: p in r.value ==> Declares(policy, p.declaration) && Admit(m, protected, p.declaration) == Ok(p)
    ensures r.Ok? ==> forall d :: Declares(policy, d) ==> Admit(m, protected, d).Ok? && Admit(m, protected, d).value in r.value
  {
    var ds := Declarations(policy);
    if |ds| > MAX_MEMBERSHIP_PREDICATES then Err else AdmitAll(m, protected, ds)
  }

  /** How many membership predicates a policy has, repeated ones counted again. */
  function RelatedIn(rule: seq<Predicate>): nat {
    if rule == [] then 0 else (if rule[|rule| - 1].Related? then 1 else 0) + RelatedIn(rule[..|rule| - 1])
  }

  function RelatedCount(policy: Policy): nat {
    if policy == [] then 0 else RelatedIn(policy[0]) + RelatedCount(policy[1..])
  }

  lemma {:induction false} RuleCount(rule: seq<Predicate>)
    ensures |RuleDeclarations(rule)| == RelatedIn(rule)
  {
    if rule != [] {
      RuleCount(rule[1..]);
      RelatedFront(rule);
    }
  }

  lemma {:induction false} RelatedFront(rule: seq<Predicate>)
    requires rule != []
    ensures RelatedIn(rule) == (if rule[0].Related? then 1 else 0) + RelatedIn(rule[1..])
    decreases |rule|
  {
    var n := |rule| - 1;
    if n > 0 {
      RelatedFront(rule[..n]);
      assert rule[..n][1..] == rule[1..][..n - 1];
    }
  }

  lemma {:induction false} DeclarationCount(policy: Policy)
    ensures |Declarations(policy)| == RelatedCount(policy)
  {
    if policy != [] {
      RuleCount(policy[0]);
      DeclarationCount(policy[1..]);
    }
  }

  lemma {:induction false} AllAdmit(m: Manifest, protected: Resource, ds: seq<ExistsRelated>)
    ensures AdmitAll(m, protected, ds).Ok? <==> forall d :: d in ds ==> Admit(m, protected, d).Ok?
  {
    if ds != [] {
      AllAdmit(m, protected, ds[1..]);
      assert forall d :: d in ds <==> d == ds[0] || d in ds[1..];
    }
  }

  /** An operation has plans exactly when its policy has at most two membership predicates and the
      manifest fits each. */
  lemma PlannedIffDeclarable(m: Manifest, protected: Resource, policy: Policy)
    ensures Plans(m, protected, policy).Ok? <==>
              RelatedCount(policy) <= 2 && forall d :: Declares(policy, d) ==> Declarable(m, protected, d)
  {
    DeclarationCount(policy);
    AllAdmit(m, protected, Declarations(policy));
    forall d ensures Admit(m, protected, d).Ok? <==> Declarable(m, protected, d) {
      AdmittedIffDeclarable(m, protected, d);
    }
  }

  /** Who is looking, in which tenant, under which deployment and at what time. */
  datatype Scope = Scope(account: string, tenant: string, deployment: Deployment, time: nat)

  /** This membership record relates `key` to the account. */
  predicate MemberMatches(db: Database, plan: Plan, storage: int, scope: Scope, m: Record, key: Value) {
    var d := plan.declaration;
    && m.resource == storage && m.tenant == scope.tenant
    && key.Text? && FieldOf(m.fields, d.reference) == key
    && FieldOf(m.fields, d.account) == Text(scope.account)
    && (forall k :: 0 <= k < |d.conditions| ==> FieldOf(m.fields, d.conditions[k].0) == Text(LiteralText(d.conditions[k].1)))
    && Unexpired(db, plan.resource, m.fields, scope.time)
  }

  predicate ScopeStands(db: Database, scope: Scope) {
    && ActiveAccount(db, Text(scope.account), Text(scope.tenant))
    && db.deployment == Some(scope.deployment)
  }

  predicate IsMember(db: Database, plan: Plan, storage: int, scope: Scope, key: Value) {
    && ScopeStands(db, scope)
    && (exists k :: 0 <= k < |db.records| && MemberMatches(db, plan, storage, scope, db.records[k], key))
  }

  /** The reference a protected row offers: one of its fields, or its own identity. */
  function TargetOf(plan: Plan, id: nat, fields: map<string, string>): Value {
    match plan.protectedReference
    case Some(field) => FieldOf(fields, field.name)
    case None => Text(Decimal.Print(id))
  }

  /** The membership record refers to the row, as declared: by its identity or by its own reference. */
  predicate SameReference(d: ExistsRelated, m: Record, row: Row) {
    && d.reference in m.fields
    && match d.target
       case SelfRecord => m.fields[d.reference] == Decimal.Print(row.id)
       case Reference(name) => name in row.fields && m.fields[d.reference] == row.fields[name]
  }

  predicate SaysCondition(m: Record, c: (string, MembershipLiteral)) {
    c.0 in m.fields && m.fields[c.0] == LiteralText(c.1)
  }

  /** The membership record makes this account a member for this row. */
  predicate MakesMember(db: Database, resource: Resource, d: ExistsRelated, user: User, time: nat, m: Record, row: Row) {
    && resource.name in db.catalog && m.resource == db.catalog[resource.name] && m.tenant == user.tenant
    && SameReference(d, m, row)
    && d.account in m.fields && m.fields[d.account] == user.id
    && (forall k :: 0 <= k < |d.conditions| ==> SaysCondition(m, d.conditions[k]))
    && Unexpired(db, resource, m.fields, time)
  }

  /** What a membership predicate means on a row, in terms of the records alone: an active account
      of the row's tenant, the deployment in force, and a record that makes the account a member. */
  predicate Relation(db: Database, m: Manifest, d: ExistsRelated, user: User, deployment: Option<Deployment>, time: Option<nat>, row: Row) {
    && user.tenant != "" && row.tenant == user.tenant
    && time.Some? && deployment.Some? && db.deployment == deployment
    && (exists k :: 0 <= k < |db.accounts| && db.accounts[k] == Account(user.id, user.tenant, true))
    && (exists r :: r in m && ResourceNamed(m, d.resource) == Some(r)
          && exists k :: 0 <= k < |db.records| && MakesMember(db, r, d, user, time.value, db.records[k], row))
  }

  /** A plan's membership check is that meaning. */
  lemma PlanMeansRelation(db: Database, m: Manifest, protected: Resource, d: ExistsRelated, user: User,
                          deployment: Option<Deployment>, time: Option<nat>, row: Row)
    requires Admit(m, protected, d).Ok?
    ensures var p := Admit(m, protected, d).value;
            Relation(db, m, d, user, deployment, time, row)
            <==> && p.resource.name in db.catalog && user.tenant != "" && row.tenant == user.tenant && time.Some? && deployment.Some?
                 && IsMember(db, p, db.catalog[p.resource.name], Scope(user.id, user.tenant, deployment.value, time.value),
                             TargetOf(p, row.id, row.fields))
  {
    var p := Admit(m, protected, d).value;
    if p.resource.name in db.catalog && deployment.Some? && time.Some? {
      var scope := Scope(user.id, user.tenant, deployment.value, time.value);
      if user.tenant == row.tenant {
        forall r: Record
          ensures MakesMember(db, p.resource, d, user, time.value, r, row)
                  <==> MemberMatches(db, p, db.catalog[p.resource.name], scope, r, TargetOf(p, row.id, row.fields))
        {
          RecordMeans(db, p, d, user, scope, r, row);
        }
      }
      AccountStands(db, user, scope);
    }
  }

  lemma AccountStands(db: Database, user: User, scope: Scope)
    requires scope.account == user.id && scope.tenant == user.tenant
    ensures ActiveAccount(db, Text(scope.account), Text(scope.tenant))
            <==> exists k :: 0 <= k < |db.accounts| && db.accounts[k] == Account(user.id, user.tenant, true)
  {
  }

  lemma RecordMeans(db: Database, p: Plan, d: ExistsRelated, user: User, scope: Scope, r: Record, row: Row)
    requires p.declaration == d && p.resource.name in db.catalog && scope.account == user.id && scope.tenant == user.tenant
    requires TargetOf(p, row.id, row.fields) ==
               match d.target
               case SelfRecord => Text(Decimal.Print(row.id))
               case Reference(name) => FieldOf(row.fields, name)
    ensures MakesMember(db, p.resource, d, user, scope.time, r, row)
            <==> MemberMatches(db, p, db.catalog[p.resource.name], scope, r, TargetOf(p, row.id, row.fields))
  {
    forall k | 0 <= k < |d.conditions|
      ensures SaysCondition(r, d.conditions[k]) <==> FieldOf(r.fields, d.conditions[k].0) == Text(LiteralText(d.conditions[k].1))
    {
    }
  }

  function KeyValue(plan: Plan, protectedRow: bool, f: Frame): Value {
    if protectedRow then TargetOf(plan, f.row.id, f.row.fields) else f.requested
  }

  method ConditionClauses(conditions: seq<(string, MembershipLiteral)>, params: Parameters) returns (clauses: seq<Expr>)
    modifies params
    ensures old(params.items) <= params.items && |clauses| == |conditions|
    ensures forall k, db: Database, f: Frame, more {:trigger Selects(db, f, more, clauses[k])} ::
      0 <= k < |clauses| && params.items <= more && f.member.Some? ==>
        (Selects(db, f, more, clauses[k])
         <==> FieldOf(f.member.value.fields, conditions[k].0) == Text(LiteralText(conditions[k].1)))
  {
    clauses := [];
    for i := 0 to |conditions|
      invariant old(params.items) <= params.items && |clauses| == i
      invariant forall k, db: Database, f: Frame, more {:trigger Selects(db, f, more, clauses[k])} ::
        0 <= k < |clauses| && params.items <= more && f.member.Some? ==>
          (Selects(db, f, more, clauses[k])
           <==> FieldOf(f.member.value.fields, conditions[k].0) == Text(LiteralText(conditions[k].1)))
    {
      ghost var before := params.items;
      var t := params.Push(Text(LiteralText(conditions[i].1)));
      assert before <= params.items;
      clauses := clauses + [Equal(MemberField(conditions[i].0), t)];
    }
  }

  function Head(d: ExistsRelated, storage: int, target: Term, tenant: Term, account: Term): seq<Expr> {
    [Equal(MemberResource, Literal(storage)),
     Equal(MemberTenant, tenant),
     Equal(MemberField(d.reference), target),
     Equal(MemberField(d.account), account)]
  }

  lemma HeadSelects(db: Database, f: Frame, params: seq<Value>, d: ExistsRelated, storage: int, target: Term, tenant: Term,
                    account: Term, scope: Scope)
    requires f.member.Some?
    requires Read(db, f, params, tenant) == Text(scope.tenant) && Read(db, f, params, account) == Text(scope.account)
    ensures var m := f.member.value;
            var key := Read(db, f, params, target);
            Selects(db, f, params, All(Head(d, storage, target, tenant, account)))
            <==> && m.resource == storage && m.tenant == scope.tenant
                 && !key.Null? && FieldOf(m.fields, d.reference) == key
                 && FieldOf(m.fields, d.account) == Text(scope.account)
  {
    var parts := Head(d, storage, target, tenant, account);
    AllTwo(db, f, params, parts[0], parts[1]);
    AllTwo(db, f, params, parts[2], parts[3]);
    AllJoined(db, f, params, [parts[0], parts[1]], [parts[2], parts[3]]);
    assert parts == [parts[0], parts[1]] + [parts[2], parts[3]];
  }

  lemma TailSelects(db: Database, f: Frame, params: seq<Value>, account: Term, tenant: Term, contract: Term, incarnation: Term,
                    generation: Term, scope: Scope)
    requires Read(db, f, params, tenant) == Text(scope.tenant) && Read(db, f, params, account) == Text(scope.account)
    requires Read(db, f, params, contract) == Text(scope.deployment.contract)
    requires Read(db, f, params, incarnation) == Text(scope.deployment.incarnation)
    requires Read(db, f, params, generation) == Text(scope.deployment.generation)
    ensures Selects(db, f, params, All([ExistsActiveAccount(account, tenant), ExistsDeployment(contract, incarnation, generation)]))
            <==> ScopeStands(db, scope)
  {
    AllTwo(db, f, params, ExistsActiveAccount(account, tenant), ExistsDeployment(contract, incarnation, generation));
  }

  lemma MemberConjunction(db: Database, f: Frame, params: seq<Value>, plan: Plan, storage: int, scope: Scope, target: Term,
                          head: seq<Expr>, conditions: seq<Expr>, tail: seq<Expr>, expiry: seq<Expr>)
    requires f.member.Some?
    requires var m := f.member.value;
             var key := Read(db, f, params, target);
             Selects(db, f, params, All(head))
             <==> && m.resource == storage && m.tenant == scope.tenant
                  && !key.Null? && FieldOf(m.fields, plan.declaration.reference) == key
                  && FieldOf(m.fields, plan.declaration.account) == Text(scope.account)
    requires Selects(db, f, params, All(tail)) <==> ScopeStands(db, scope)
    requires |conditions| == |plan.declaration.conditions|
    requires forall k :: 0 <= k < |conditions| ==>
      (Selects(db, f, params, conditions[k])
       <==> FieldOf(f.member.value.fields, plan.declaration.conditions[k].0) == Text(LiteralText(plan.declaration.conditions[k].1)))
    requires if plan.resource.expiry.None? then expiry == []
             else |expiry| == 1
                  && (Selects(db, f, params, expiry[0]) <==> Unexpired(db, plan.resource, f.member.value.fields, scope.time))
    ensures Selects(db, f, params, All((head + conditions) + (tail + expiry)))
            <==> ScopeStands(db, scope) && MemberMatches(db, plan, storage, scope, f.member.value, Read(db, f, params, target))
  {
    AllJoined(db, f, params, head + conditions, tail + expiry);
    AllJoined(db, f, params, head, conditions);
    AllJoined(db, f, params, tail, expiry);
    AllOf(db, f, params, conditions);
    AllOf(db, f, params, expiry);
  }

  /** The conjuncts about the membership record, the account and the deployment. */
  method MemberClauses(plan: Plan, storage: int, scope: Scope, target: Term, params: Parameters)
    returns (clauses: seq<Expr>, tenant: Term)
    modifies params
    ensures old(params.items) <= params.items
    ensures forall db: Database, f: Frame, more {:trigger Read(db, f, more, tenant)} ::
      params.items <= more ==> Read(db, f, more, tenant) == Text(scope.tenant)
    ensures forall db: Database, f: Frame, more {:trigger Selects(db, f, more, All(clauses))} ::
      params.items <= more && f.member.Some? ==>
        (Selects(db, f, more, All(clauses))
         <==> ScopeStands(db, scope) && MemberMatches(db, plan, storage, scope, f.member.value, Read(db, f, more, target)))
  {
    var d := plan.declaration;
    var account := params.Push(Text(scope.account));
    ghost var first := params.items;
    tenant := params.Push(Text(scope.tenant));
    ghost var start := params.items;
    var conditions := ConditionClauses(d.conditions, params);
    ghost var middle := params.items;
    var expiry := ExpirySql(plan.resource, Some(scope.time), true, params);
    ghost var late := params.items;
    var contract := params.Push(Text(scope.deployment.contract));
    var incarnation := params.Push(Text(scope.deployment.incarnation));
    var generation := params.Push(Text(scope.deployment.generation));
    var head := Head(d, storage, target, tenant, account);
    var tail := [ExistsActiveAccount(account, tenant), ExistsDeployment(contract, incarnation, generation)];
    clauses := (head + conditions) + (tail + expiry.value);
    forall db: Database, f: Frame, more | params.items <= more && f.member.Some?
      ensures Selects(db, f, more, All(clauses))
              <==> ScopeStands(db, scope) && MemberMatches(db, plan, storage, scope, f.member.value, Read(db, f, more, target))
    {
      assert first <= start <= middle <= late <= more;
      HeadSelects(db, f, more, d, storage, target, tenant, account, scope);
      TailSelects(db, f, more, account, tenant, contract, incarnation, generation, scope);
      assert plan.resource.expiry.Some? ==>
        (Selects(db, f, more, expiry.value[0]) <==> Unexpired(db, plan.resource, f.member.value.fields, scope.time));
      MemberConjunction(db, f, more, plan, storage, scope, target, head, conditions, tail, expiry.value);
    }
  }

  lemma MemberExists(db: Database, f: Frame, params: seq<Value>, plan: Plan, storage: int, scope: Scope, target: Term,
                     clauses: seq<Expr>, protectedRow: bool)
    requires forall m :: Read(db, f.(member := m), params, target) == KeyValue(plan, protectedRow, f)
    requires forall m ::
      Selects(db, f.(member := Some(m)), params, All(clauses))
      <==> ScopeStands(db, scope) && MemberMatches(db, plan, storage, scope, m, Read(db, f.(member := Some(m)), params, target))
    ensures Selects(db, f, params, ExistsMember(All(clauses))) <==> IsMember(db, plan, storage, scope, KeyValue(plan, protectedRow, f))
  {
    forall k | 0 <= k < |db.records|
      ensures Selects(db, f.(member := Some(db.records[k])), params, All(clauses))
              <==> ScopeStands(db, scope)
                   && MemberMatches(db, plan, storage, scope, db.records[k], KeyValue(plan, protectedRow, f))
    {
    }
  }

  /** `exists_sql`. It selects exactly when the target's value has a membership; on a protected
      row the row must also be in the scope's tenant. */
  method ExistsSql(plan: Plan, storage: int, scope: Scope, protectedRow: bool, params: Parameters) returns (r: Result<Expr>)
    modifies params
    ensures old(params.items) <= params.items
    ensures r.Ok? <==> storage > 0 && AccountId(scope.account) && scope.tenant != ""
    ensures r.Ok? ==> forall db: Database, f: Frame, more {:trigger Selects(db, f, more, r.value)} :: params.items <= more ==>
      (Selects(db, f, more, r.value)
       <==> (protectedRow ==> f.row.tenant == scope.tenant)
            && IsMember(db, plan, storage, scope, KeyValue(plan, protectedRow, f)))
  {
    if !(storage > 0 && AccountId(scope.account) && scope.tenant != "") {
      return Err;
    }
    var target := if !protectedRow then Requested
                  else if plan.protectedReference.Some? then RowField(plan.protectedReference.value.name)
                  else RowIdText;
    var clauses, tenant := MemberClauses(plan, storage, scope, target, params);
    var related := ExistsMember(All(clauses));
    r := Ok(if protectedRow then All([Equal(RowTenant, tenant), related]) else related);
    forall db: Database, f: Frame, more | params.items <= more
      ensures Selects(db, f, more, related) <==> IsMember(db, plan, storage, scope, KeyValue(plan, protectedRow, f))
      ensures Selects(db, f, more, All([Equal(RowTenant, tenant), related]))
              <==> f.row.tenant == scope.tenant && Selects(db, f, more, related)
    {
      MemberExists(db, f, more, plan, storage, scope, target, clauses, protectedRow);
      AllTwo(db, f, more, Equal(RowTenant, tenant), related);
    }
  }
}
