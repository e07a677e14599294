/** Policies compiled to SQL filters with numbered parameters
    (crates/noxide-admission/src/policy.rs, `filter_with`, `filter`, `AuthorizedFilter`). */
module PolicyFilter {
  import opened Prelude
  import opened PolicySql
  import opened Policy
  import opened Membership

  /** How a compilation treats membership predicates: a relaxed scan denies them; a full filter
      looks each up in the operation's admitted plans. */
  datatype Lookup =
    | Denied
    | ByPlans(plans: map<ExistsRelated, (Plan, int)>, deployment: Option<Deployment>, time: Option<nat>)

  /** A stored record as the row evaluator reads it: a NULL owner becomes the empty text. */
  function RowOf(r: Record): Row {
    Row(r.id, if r.owner.Some? then r.owner.value else "", r.tenant, r.fields)
  }

  /** The membership a stored record has under a lookup. */
  predicate RelatedUnder(db: Database, lookup: Lookup, principal: Principal, row: Row, d: ExistsRelated) {
    && lookup.ByPlans? && principal.SignedIn? && principal.user.tenant != ""
    && d in lookup.plans && lookup.deployment.Some? && lookup.time.Some?
    && row.tenant == principal.user.tenant
    && var (plan, storage) := lookup.plans[d];
       IsMember(db, plan, storage, UserScope(principal.user, lookup.deployment.value, lookup.time.value), TargetOf(plan, row.id, row.fields))
  }

  function UserScope(user: User, deployment: Deployment, time: nat): Scope {
    Scope(user.id, user.tenant, deployment, time)
  }

  ghost function Relates(db: Database, lookup: Lookup, principal: Principal, row: Row): ExistsRelated -> bool {
    d => RelatedUnder(db, lookup, principal, row, d)
  }

  /** An account's identifier is never the empty text an absent owner reads as. */
  predicate Identified(principal: Principal) {
    principal.SignedIn? ==> principal.user.id != ""
  }

  /** SQL compares a NULL owner to unknown, the evaluator compares the empty text: they agree on
      every record exactly when the identifier is not empty. */
  lemma OwnersAgree(db: Database, id: string)
    ensures (forall f: Frame :: SameValue(Read(db, f, [Text(id)], RowOwner), Text(id)) == Yes <==> RowOf(f.row).owner == id)
            <==> id != ""
  {
    if id == "" {
      var f := Frame(Record(1, 1, None, "", map[]), None, Null);
      assert SameValue(Read(db, f, [Text(id)], RowOwner), Text(id)) == Unknown && RowOf(f.row).owner == id;
    }
  }

  /** A membership predicate compiles when it is denied anyway, or when there is a plan, a time and a
      deployment to look it up with. */
  predicate MemberCompiles(d: ExistsRelated, user: User, lookup: Lookup) {
    || lookup.Denied? || user.tenant == ""
    || (lookup.deployment.Some? && d in lookup.plans && lookup.time.Some? && lookup.plans[d].1 > 0 && AccountId(user.id))
  }

  predicate AtomCompiles(p: Predicate, principal: Principal, lookup: Lookup) {
    p.Related? && principal.SignedIn? ==> MemberCompiles(p.declaration, principal.user, lookup)
  }

  predicate RuleCompiles(rule: seq<Predicate>, principal: Principal, lookup: Lookup) {
    forall i :: 0 <= i < |rule| ==> AtomCompiles(rule[i], principal, lookup)
  }

  /** A policy compiles exactly when each of its membership predicates does. */
  predicate Compiles(policy: Policy, principal: Principal, lookup: Lookup) {
    forall i :: 0 <= i < |policy| ==> RuleCompiles(policy[i], principal, lookup)
  }

  method CompileAtom(p: Predicate, principal: Principal, lookup: Lookup, params: Parameters) returns (r: Result<Expr>)
    modifies params
    ensures old(params.items) <= params.items
    ensures r.Ok? <==> AtomCompiles(p, principal, lookup)
    ensures r.Ok? && Identified(principal) ==>
      forall db: Database, f: Frame, more {:trigger Selects(db, f, more, r.value)} :: params.items <= more ==>
        (Selects(db, f, more, r.value) <==> Holds(Bind(p, principal), RowOf(f.row), Relates(db, lookup, principal, RowOf(f.row))))
  {
    match Bind(p, principal)
    case Member(d) => r := CompileMember(d, principal.user, lookup, params);
    case AccountIs(field, id) =>
      var t := params.Push(Text(id));
      r := Ok(Equal(RowField(field), t));
    case Allow => r := Ok(Always);
    case Deny => r := Ok(Never);
    case OwnerIs(id) =>
      var t := params.Push(Text(id));
      r := Ok(Equal(RowOwner, t));
    case TenantIs(tenant) =>
      var t := params.Push(Text(tenant));
      r := Ok(Equal(RowTenant, t));
  }

  /** The closure `Authority::filter` passes, or the denying one of relaxed scans. */
  method CompileMember(d: ExistsRelated, user: User, lookup: Lookup, params: Parameters) returns (r: Result<Expr>)
    modifies params
    ensures old(params.items) <= params.items
    ensures r.Ok? <==> MemberCompiles(d, user, lookup)
    ensures r.Ok? ==>
      forall db: Database, f: Frame, more {:trigger Selects(db, f, more, r.value)} :: params.items <= more ==>
        (Selects(db, f, more, r.value) <==> RelatedUnder(db, lookup, SignedIn(user), RowOf(f.row), d))
  {
    if lookup.Denied? || user.tenant == "" {
      return Ok(Never);
    }
    if lookup.deployment.None? || d !in lookup.plans || lookup.time.None? {
      return Err;
    }
    var (plan, storage) := lookup.plans[d];
    r := ExistsSql(plan, storage, UserScope(user, lookup.deployment.value, lookup.time.value), true, params);
  }

  method CompileRule(rule: seq<Predicate>, principal: Principal, lookup: Lookup, params: Parameters) returns (r: Result<Expr>)
    modifies params
    ensures old(params.items) <= params.items
    ensures r.Ok? <==> RuleCompiles(rule, principal, lookup)
    ensures r.Ok? && Identified(principal) ==>
      forall db: Database, f: Frame, more {:trigger Selects(db, f, more, r.value)} :: params.items <= more ==>
        (Selects(db, f, more, r.value) <==> RuleHolds(rule, principal, RowOf(f.row), Relates(db, lookup, principal, RowOf(f.row))))
  {
    if rule == [] {
      return Ok(Never);
    }
    var terms := [];
    for i := 0 to |rule|
      invariant old(params.items) <= params.items && |terms| == i
      invariant forall k :: 0 <= k < i ==> AtomCompiles(rule[k], principal, lookup)
      invariant Identified(principal) ==>
        forall k, db: Database, f: Frame, more {:trigger Selects(db, f, more, terms[k])} ::
          0 <= k < i && params.items <= more ==>
            (Selects(db, f, more, terms[k]) <==> Holds(Bind(rule[k], principal), RowOf(f.row), Relates(db, lookup, principal, RowOf(f.row))))
    {
      var term := CompileAtom(rule[i], principal, lookup, params);
      if term.Err? {
        return Err;
      }
      terms := terms + [term.value];
    }
    r := Ok(All(terms));
    forall db: Database, f: Frame, more | params.items <= more && Identified(principal)
      ensures Selects(db, f, more, All(terms))
              <==> RuleHolds(rule, principal, RowOf(f.row), Relates(db, lookup, principal, RowOf(f.row)))
    {
      AllOf(db, f, more, terms);
      ghost var related := Relates(db, lookup, principal, RowOf(f.row));
      assert forall k :: 0 <= k < |rule| ==>
        (Selects(db, f, more, terms[k]) <==> Holds(Bind(rule[k], principal), RowOf(f.row), related));
    }
  }

  /** `filter_with`: one clause per rule. The parameters only grow, so earlier numbers keep their
      meaning; together the clauses select exactly the rows the policy allows. */
  method FilterWith(policy: Policy, principal: Principal, lookup: Lookup, params: Parameters) returns (r: Result<seq<Expr>>)
    modifies params
    ensures old(params.items) <= params.items
    ensures r.Ok? <==> Compiles(policy, principal, lookup)
    ensures r.Ok? && Identified(principal) ==>
      forall db: Database, f: Frame, more {:trigger Selects(db, f, more, Any(r.value))} :: params.items <= more ==>
        (Selects(db, f, more, Any(r.value))
         <==> AllowedWith(policy, principal, RowOf(f.row), Relates(db, lookup, principal, RowOf(f.row))))
  {
    if policy == [] {
      return Ok([Never]);
    }
    var clauses := [];
    for i := 0 to |policy|
      invariant old(params.items) <= params.items && |clauses| == i
      invariant forall k :: 0 <= k < i ==> RuleCompiles(policy[k], principal, lookup)
      invariant Identified(principal) ==>
        forall k, db: Database, f: Frame, more {:trigger Selects(db, f, more, clauses[k])} ::
          0 <= k < i && params.items <= more ==>
            (Selects(db, f, more, clauses[k])
             <==> RuleHolds(policy[k], principal, RowOf(f.row), Relates(db, lookup, principal, RowOf(f.row))))
    {
      var clause := CompileRule(policy[i], principal, lookup, params);
      if clause.Err? {
        return Err;
      }
      clauses := clauses + [clause.value];
    }
    r := Ok(clauses);
    forall db: Database, f: Frame, more | params.items <= more && Identified(principal)
      ensures Selects(db, f, more, Any(clauses))
              <==> AllowedWith(policy, principal, RowOf(f.row), Relates(db, lookup, principal, RowOf(f.row)))
    {
      AnyOf(db, f, more, clauses);
      ghost var related := Relates(db, lookup, principal, RowOf(f.row));
      assert forall k :: 0 <= k < |policy| ==>
        (Selects(db, f, more, clauses[k]) <==> RuleHolds(policy[k], principal, RowOf(f.row), related));
    }
  }

  function Narrowed(clauses: seq<Expr>, extra: seq<Expr>): (r: seq<Expr>)
    ensures |r| == |clauses| && forall i :: 0 <= i < |r| ==> r[i] == All([clauses[i]] + extra)
  {
    seq(|clauses|, i requires 0 <= i < |clauses| => All([clauses[i]] + extra))
  }

  lemma AnyNarrowed(db: Database, f: Frame, params: seq<Value>, clauses: seq<Expr>, extra: seq<Expr>)
    ensures Selects(db, f, params, Any(Narrowed(clauses, extra)))
            <==> Selects(db, f, params, Any(clauses)) && Selects(db, f, params, All(extra))
  {
    var narrow := Narrowed(clauses, extra);
    AnyOf(db, f, params, clauses);
    AnyOf(db, f, params, narrow);
    forall i | 0 <= i < |clauses|
      ensures Selects(db, f, params, narrow[i]) <==> Selects(db, f, params, clauses[i]) && Selects(db, f, params, All(extra))
    {
      AllJoined(db, f, params, [clauses[i]], extra);
      AllOf(db, f, params, [clauses[i]]);
      assert [clauses[i]][0] == clauses[i];
    }
  }

  /** `unexpired`: the same conjunct narrows every clause. */
  method NarrowUnexpired(clauses: seq<Expr>, resource: Resource, time: Option<nat>, params: Parameters) returns (r: Result<seq<Expr>>)
    modifies params
    ensures old(params.items) <= params.items
    ensures r.Ok? <==> resource.expiry.None? || time.Some?
    ensures r.Ok? ==>
      forall db: Database, f: Frame, more {:trigger Selects(db, f, more, Any(r.value))} :: params.items <= more ==>
        (Selects(db, f, more, Any(r.value))
         <==> Selects(db, f, more, Any(clauses))
              && (resource.expiry.Some? ==> Unexpired(db, resource, f.row.fields, time.value)))
  {
    var expires := ExpirySql(resource, time, false, params);
    if expires.Err? {
      return Err;
    }
    r := Ok(Narrowed(clauses, expires.value));
    forall db: Database, f: Frame, more | params.items <= more
      ensures Selects(db, f, more, Any(r.value))
              <==> Selects(db, f, more, Any(clauses))
                   && (resource.expiry.Some? ==> Unexpired(db, resource, f.row.fields, time.value))
    {
      AnyNarrowed(db, f, more, clauses, expires.value);
      AllOf(db, f, more, expires.value);
      assert resource.expiry.Some? ==>
        (Selects(db, f, more, expires.value[0]) <==> Unexpired(db, resource, FrameFields(f, false).value, time.value));
    }
  }
}
