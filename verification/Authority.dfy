/** The row evaluator and the full filter of one request attempt
    (crates/noxide-authority/src/authority.rs, crates/noxide-authority/src/authority/witnesses.rs). */
module Authority {
  import opened Prelude
  import Decimal
  import opened PolicySql
  import opened Policy
  import opened Membership
  import opened PolicyFilter

  const MAX_BATCH: nat := 64
  const MAX_WITNESSES: nat := 128

  datatype Operation = Operation(resource: nat, create: bool, maintenance: bool, policy: Policy)

  // ----- what a grant means -----

  /** The plan and storage of every declaration that has both. */
  function PlansFor(db: Database, m: Manifest, protected: Resource, policy: Policy): map<ExistsRelated, (Plan, int)> {
    map d | d in Declarations(policy) && Admit(m, protected, d).Ok? && Admit(m, protected, d).value.resource.name in db.catalog
      :: (Admit(m, protected, d).value, db.catalog[Admit(m, protected, d).value.resource.name])
  }

  predicate Visible(protected: Resource, op: Operation, principal: Principal, time: Option<nat>, row: Row) {
    op.create || AvailableTo(protected, row.fields, time, op.maintenance, principal) == Ok(true)
  }

  /** Membership as the database's records state it. */
  ghost function Relations(db: Database, m: Manifest, principal: Principal, time: Option<nat>, deployment: Option<Deployment>,
                           row: Row): ExistsRelated -> bool
  {
    d => principal.SignedIn? && Relation(db, m, d, principal.user, deployment, time, row)
  }

  /** The operation is granted on this row: it is visible and some rule holds, membership being
      what the database's membership records say. */
  ghost predicate Granted(db: Database, m: Manifest, principal: Principal, op: Operation, time: Option<nat>,
                          deployment: Option<Deployment>, row: Row)
  {
    var protected := ResourceById(m, op.resource);
    && protected.Some?
    && Visible(protected.value, op, principal, time, row)
    && AllowedWith(op.policy, principal, row, Relations(db, m, principal, time, deployment, row))
  }

  /** The operation's plans grant what the records state. */
  lemma PlansGrant(db: Database, m: Manifest, protected: Resource, principal: Principal, policy: Policy, time: Option<nat>,
                   deployment: Option<Deployment>, row: Row)
    requires Plans(m, protected, policy).Ok?
    ensures AllowedWith(policy, principal, row, Relations(db, m, principal, time, deployment, row))
            == AllowedWith(policy, principal, row,
                           Relates(db, ByPlans(PlansFor(db, m, protected, policy), deployment, time), principal, row))
  {
    var stated := Relations(db, m, principal, time, deployment, row);
    var planned := Relates(db, ByPlans(PlansFor(db, m, protected, policy), deployment, time), principal, row);
    forall d | Declares(policy, d) ensures stated(d) == planned(d) {
      assert d in Declarations(policy);
      if principal.SignedIn? {
        PlanMeansRelation(db, m, protected, d, principal.user, deployment, time, row);
      }
    }
    AllowedOnlyByDeclared(policy, principal, row, stated, planned);
  }

  predicate StoredAt(db: Database, plans: seq<Plan>, d: ExistsRelated, entry: (Plan, int)) {
    && entry.0 in plans && entry.0.declaration == d
    && entry.0.resource.name in db.catalog && entry.1 == db.catalog[entry.0.resource.name]
  }

  lemma StoredAreAll(db: Database, m: Manifest, protected: Resource, policy: Policy, plans: seq<Plan>,
                     stored: map<ExistsRelated, (Plan, int)>)
    requires Plans(m, protected, policy) == Ok(plans)
    requires forall d :: d in stored ==> StoredAt(db, plans, d, stored[d])
    requires forall j :: 0 <= j < |plans| ==> plans[j].declaration in stored
    ensures stored == PlansFor(db, m, protected, policy)
  {
    var all := PlansFor(db, m, protected, policy);
    forall d | d in stored ensures d in all && all[d] == stored[d] {
      var p := stored[d].0;
      assert Declares(policy, d) && Admit(m, protected, d) == Ok(p);
    }
    forall d | d in all ensures d in stored {
      var p := all[d].0;
      assert p in plans;
      var j :| 0 <= j < |plans| && plans[j] == p;
      assert plans[j].declaration == d;
    }
  }

  // ----- witnesses -----

  datatype WitnessScope = WitnessScope(storage: int, deployment: Deployment, declaration: ExistsRelated)

  /** The reference text a protected row is looked up by. */
  function Key(plan: Plan, row: Row): (r: Result<string>)
    ensures r.Ok? ==> TargetOf(plan, row.id, row.fields) == Text(r.value)
  {
    match plan.protectedReference
    case Some(field) =>
      if field.name in row.fields && CanonicalValue(field, row.fields[field.name]) then Ok(row.fields[field.name]) else Err
    case None =>
      if row.id > 0 then Ok(Decimal.Print(row.id)) else Err
  }

  function Keys(plan: Plan, rows: seq<Row>): (r: Result<seq<string>>)
    ensures r.Ok? ==> |r.value| == |rows|
    ensures r.Ok? ==> forall i :: 0 <= i < |rows| ==> Key(plan, rows[i]) == Ok(r.value[i])
    ensures r.Ok? <==> forall i :: 0 <= i < |rows| ==> Key(plan, rows[i]).Ok?
  {
    if rows == [] then Ok([])
    else
      var first :- Key(plan, rows[0]);
      var rest :- Keys(plan, rows[1..]);
      Ok([first] + rest)
  }

  /** Membership depends on the plan only through its declaration and membership resource. */
  predicate MemberOf(db: Database, m: Manifest, scope: WitnessScope, user: Scope, key: string) {
    var resource := ResourceNamed(m, scope.declaration.resource);
    resource.Some? && IsMember(db, Plan(scope.declaration, None, resource.value), scope.storage, user, Text(key))
  }

  lemma MemberOfPlan(db: Database, m: Manifest, plan: Plan, storage: int, user: Scope, key: string)
    requires ResourceNamed(m, plan.declaration.resource) == Some(plan.resource)
    ensures MemberOf(db, m, WitnessScope(storage, user.deployment, plan.declaration), user, key)
            == IsMember(db, plan, storage, user, Text(key))
  {
    var bare := Plan(plan.declaration, None, plan.resource);
    assert forall r :: MemberMatches(db, plan, storage, user, r, Text(key)) == MemberMatches(db, bare, storage, user, r, Text(key));
  }

  /** `Witnesses`: membership facts looked up for one account at one time. */
  class Witnesses {
    const account: string
    const tenant: string
    const time: nat
    var values: map<(WitnessScope, string), bool>

    constructor (user: User, time: nat)
      ensures account == user.id && tenant == user.tenant && this.time == time && values == map[]
    {
      account, tenant, this.time := user.id, user.tenant, time;
      values := map[];
    }

    function ScopeFor(deployment: Deployment): Scope {
      Scope(account, tenant, deployment, time)
    }

    /** Every fact held is true of the database. */
    ghost predicate Sound(db: Database, m: Manifest)
      reads this
    {
      forall w :: w in values ==> values[w] == MemberOf(db, m, w.0, ScopeFor(w.0.deployment), w.1)
    }

    /** The distinct keys not yet known. */
    method Missing(scope: WitnessScope, rows: seq<Row>, keys: seq<string>) returns (missing: seq<string>)
      requires |keys| == |rows|
      ensures |missing| <= |rows|
      ensures forall i :: 0 <= i < |rows| && rows[i].tenant == tenant ==> (scope, keys[i]) in values || keys[i] in missing
    {
      missing := [];
      for i := 0 to |rows|
        invariant |missing| <= i
        invariant forall j :: 0 <= j < i && rows[j].tenant == tenant ==> (scope, keys[j]) in values || keys[j] in missing
      {
        if rows[i].tenant == tenant && (scope, keys[i]) !in values && keys[i] !in missing {
          missing := missing + [keys[i]];
        }
      }
    }

    method Remember(ghost db: Database, ghost m: Manifest, scope: WitnessScope, key: string, answer: bool)
      requires Sound(db, m) && answer == MemberOf(db, m, scope, ScopeFor(scope.deployment), key)
      modifies this
      ensures Sound(db, m) && values == old(values)[(scope, key) := answer] && |values| <= |old(values)| + 1
    {
      values := values[(scope, key) := answer];
    }

    /** One query for all missing keys: each is asked as the requested reference. */
    method Query(db: Database, m: Manifest, plan: Plan, scope: WitnessScope, missing: seq<string>) returns (ok: bool)
      requires Sound(db, m) && ResourceNamed(m, plan.declaration.resource) == Some(plan.resource)
      requires scope.declaration == plan.declaration
      modifies this
      ensures Sound(db, m)
      ensures ok ==> forall w :: w in old(values) ==> w in values
      ensures ok ==> forall i :: 0 <= i < |missing| ==> (scope, missing[i]) in values
      ensures ok <==> scope.storage > 0 && AccountId(account) && tenant != ""
      ensures |values| <= |old(values)| + |missing|
    {
      var params := new Parameters();
      for i := 0 to |missing|
        invariant fresh(params) && values == old(values)
      {
        var _ := params.Push(Text(missing[i]));
      }
      var related := ExistsSql(plan, scope.storage, ScopeFor(scope.deployment), false, params);
      if related.Err? {
        return false;
      }
      ok := true;
      Fill(db, m, plan, scope, missing, params.items, related.value);
    }

    /** The answers of the witness query, one per key. */
    method Fill(db: Database, m: Manifest, ghost plan: Plan, scope: WitnessScope, missing: seq<string>, params: seq<Value>, related: Expr)
      requires Sound(db, m) && ResourceNamed(m, plan.declaration.resource) == Some(plan.resource)
      requires scope.declaration == plan.declaration
      requires forall f: Frame {:trigger Selects(db, f, params, related)} ::
        Selects(db, f, params, related) <==> IsMember(db, plan, scope.storage, ScopeFor(scope.deployment), f.requested)
      modifies this
      ensures Sound(db, m)
      ensures forall w :: w in old(values) ==> w in values
      ensures forall i :: 0 <= i < |missing| ==> (scope, missing[i]) in values
      ensures |values| <= |old(values)| + |missing|
    {
      var nowhere := Record(0, 0, None, "", map[]);
      for i := 0 to |missing|
        invariant Sound(db, m)
        invariant forall w :: w in old(values) ==> w in values
        invariant forall j :: 0 <= j < i ==> (scope, missing[j]) in values
        invariant |values| <= |old(values)| + i
      {
        var answer := Selects(db, Frame(nowhere, None, Text(missing[i])), params, related);
        MemberOfPlan(db, m, plan, scope.storage, ScopeFor(scope.deployment), missing[i]);
        assert scope == WitnessScope(scope.storage, scope.deployment, plan.declaration);
        Remember(db, m, scope, missing[i], answer);
      }
    }

    /** `lookup`: every answer, remembered or fresh, is the membership of the row's reference in
        the account's tenant. */
    method Lookup(db: Database, m: Manifest, deployment: Deployment, plan: Plan, storage: int, rows: seq<Row>, calls: nat)
      returns (r: Result<seq<bool>>, left: nat)
      requires Sound(db, m) && ResourceNamed(m, plan.declaration.resource) == Some(plan.resource)
      modifies this
      ensures Sound(db, m) && left <= calls && |values| <= |old(values)| + |rows|
      ensures storage > 0 && |rows| <= MAX_BATCH && |old(values)| + |rows| <= MAX_WITNESSES && calls > 0
              && AccountId(account) && tenant != "" && (forall i :: 0 <= i < |rows| ==> Key(plan, rows[i]).Ok?)
              ==> r.Ok? && calls <= left + 1
      ensures r.Ok? ==> |r.value| == |rows|
      ensures r.Ok? ==> forall i :: 0 <= i < |rows| ==>
        (r.value[i] <==> rows[i].tenant == tenant
                         && IsMember(db, plan, storage, ScopeFor(deployment), TargetOf(plan, rows[i].id, rows[i].fields)))
    {
      left := calls;
      if storage <= 0 || |rows| > MAX_BATCH {
        return Err, left;
      }
      var scope := WitnessScope(storage, deployment, plan.declaration);
      var found := Keys(plan, rows);
      if found.Err? {
        return Err, left;
      }
      var keys := found.value;
      var missing := Missing(scope, rows, keys);
      if |values| + |missing| > MAX_WITNESSES {
        return Err, left;
      }
      if missing != [] {
        if left == 0 {
          return Err, left;
        }
        left := left - 1;
        var ok := Query(db, m, plan, scope, missing);
        if !ok {
          return Err, left;
        }
      }
      r := Ok(seq(|rows|, i requires 0 <= i < |rows| reads this =>
        rows[i].tenant == tenant && (scope, keys[i]) in values && values[(scope, keys[i])]));
      forall i | 0 <= i < |rows|
        ensures r.value[i] <==> rows[i].tenant == tenant
                                && IsMember(db, plan, storage, ScopeFor(deployment), TargetOf(plan, rows[i].id, rows[i].fields))
      {
        assert Key(plan, rows[i]) == Ok(keys[i]);
        MemberOfPlan(db, m, plan, storage, ScopeFor(deployment), keys[i]);
      }
    }
  }

  // ----- the evaluator -----

  datatype PrincipalKey = AnonymousKey | UserKey(id: string, tenant: string) | ServiceKey(deployment: string, tenant: string, worker: string)

  function KeyOf(p: Principal): PrincipalKey {
    match p
    case Anonymous => AnonymousKey
    case SignedIn(user) => UserKey(user.id, user.tenant)
    case Worker(deployment, tenant, worker) => ServiceKey(deployment, tenant, worker)
  }

  /** Whether each row is visible, or an error if one cannot be judged. */
  function VisibleRows(protected: Resource, op: Operation, principal: Principal, time: Option<nat>, rows: seq<Row>): (r: Result<seq<bool>>)
    ensures r.Ok? ==> |r.value| == |rows|
    ensures r.Ok? ==> forall i :: 0 <= i < |rows| ==> r.value[i] == Visible(protected, op, principal, time, rows[i])
    ensures !op.create ==>
      (r.Ok? <==> forall i :: 0 <= i < |rows| ==> AvailableTo(protected, rows[i].fields, time, op.maintenance, principal).Ok?)
    ensures op.create ==> (r.Ok? <==> forall i :: 0 <= i < |rows| ==> CanCreate(protected, rows[i].fields, time))
  {
    if rows == [] then Ok([])
    else
      var first :- if op.create then (if CanCreate(protected, rows[0].fields, time) then Ok(true) else Err)
                   else AvailableTo(protected, rows[0].fields, time, op.maintenance, principal);
      var rest :- VisibleRows(protected, op, principal, time, rows[1..]);
      Ok([first] + rest)
  }

  type Decisions = map<ExistsRelated, seq<bool>>

  function Decided(decisions: Decisions, i: nat): ExistsRelated -> bool {
    d => d in decisions && i < |decisions[d]| && decisions[d][i]
  }

  /** The looked-up answer for one row is its membership, whatever the declaration. */
  ghost predicate Answered(db: Database, plans: map<ExistsRelated, (Plan, int)>, deployment: Option<Deployment>, time: Option<nat>,
                           principal: Principal, policy: Policy, row: Row, decisions: Decisions, i: nat)
  {
    forall d :: Declares(policy, d) ==>
      Decided(decisions, i)(d) == Relates(db, ByPlans(plans, deployment, time), principal, row)(d)
  }

  /** Skipping a lookup changes no decision: a row an ordinary rule grants stays granted, and for
      the others the answers are the memberships. */
  lemma SkippedLookups(db: Database, plans: map<ExistsRelated, (Plan, int)>, deployment: Option<Deployment>, time: Option<nat>,
                       principal: Principal, policy: Policy, row: Row, decisions: Decisions, i: nat)
    requires || Allowed(policy, principal, row) || !principal.SignedIn?
             || Answered(db, plans, deployment, time, principal, policy, row, decisions, i)
    ensures AllowedWith(policy, principal, row, Decided(decisions, i))
            == AllowedWith(policy, principal, row, Relates(db, ByPlans(plans, deployment, time), principal, row))
  {
    var decided := Decided(decisions, i);
    var relates := Relates(db, ByPlans(plans, deployment, time), principal, row);
    if Allowed(policy, principal, row) {
      AllowedGrows(policy, principal, row, NoneRelated, decided);
      AllowedGrows(policy, principal, row, NoneRelated, relates);
    } else if !principal.SignedIn? {
      OnlyAccountsAreMembers(policy, principal, row, decided, relates);
    } else {
      AllowedOnlyByDeclared(policy, principal, row, decided, relates);
    }
  }

  /** The catalog knows the membership resource. */
  predicate Stored(db: Database, plan: Plan) {
    plan.resource.name in db.catalog && db.catalog[plan.resource.name] > 0
  }

  class Authority {
    const time: Option<nat>
    const deployment: Option<Deployment>
    var storage: map<string, int>
    var witnesses: Witnesses?
    var witnessPrincipal: Option<PrincipalKey>

    constructor (time: Option<nat>, deployment: Option<Deployment>)
      ensures this.time == time && this.deployment == deployment && witnesses == null
      ensures forall db, m :: Sound(db, m)
    {
      this.time, this.deployment := time, deployment;
      storage, witnesses, witnessPrincipal := map[], null, None;
    }

    /** The remembered facts belong to the remembered principal and are true. */
    ghost predicate Sound(db: Database, m: Manifest)
      reads this, witnesses
    {
      && (forall name :: name in storage ==> name in db.catalog && storage[name] == db.catalog[name])
      && (witnesses != null ==>
            && witnesses.Sound(db, m)
            && witnessPrincipal == Some(UserKey(witnesses.account, witnesses.tenant))
            && time == Some(witnesses.time))
    }

    /** `invalidate`: after a mutation nothing remembered about memberships survives. */
    method Invalidate(ghost after: Database, ghost m: Manifest)
      requires forall name :: name in storage ==> name in after.catalog && storage[name] == after.catalog[name]
      modifies this
      ensures Sound(after, m) && witnesses == null && storage == old(storage)
    {
      witnesses, witnessPrincipal := null, None;
    }

    /** The membership resource's storage, from the catalog once. */
    method Storage(db: Database, m: Manifest, plan: Plan, calls: nat) returns (r: Result<int>, left: nat)
      requires Sound(db, m)
      modifies this`storage
      ensures Sound(db, m) && left <= calls
      ensures r.Ok? ==> plan.resource.name in db.catalog && r.value == db.catalog[plan.resource.name]
      ensures Stored(db, plan) && calls > 0 ==> r.Ok? && calls <= left + 1
    {
      left := calls;
      if plan.resource.name in storage {
        return Ok(storage[plan.resource.name]), left;
      }
      if left == 0 {
        return Err, left;
      }
      left := left - 1;
      if plan.resource.name !in db.catalog || db.catalog[plan.resource.name] <= 0 {
        return Err, left;
      }
      storage := storage[plan.resource.name := db.catalog[plan.resource.name]];
      r := Ok(db.catalog[plan.resource.name]);
    }

    /** Take over the principal, forgetting another one's witnesses. */
    method Adopt(ghost db: Database, ghost m: Manifest, principal: Principal)
      requires Sound(db, m)
      modifies this`witnesses, this`witnessPrincipal
      ensures Sound(db, m) && witnessPrincipal == Some(KeyOf(principal))
      ensures witnesses == if old(witnessPrincipal) == Some(KeyOf(principal)) then old(witnesses) else null
    {
      if witnessPrincipal != Some(KeyOf(principal)) {
        witnesses := null;
      }
      witnessPrincipal := Some(KeyOf(principal));
    }

    /** One plan's answers for the selected rows. */
    method LookupPlan(db: Database, m: Manifest, user: User, plan: Plan, selected: seq<nat>, rows: seq<Row>, calls: nat)
      returns (r: Result<seq<bool>>, left: nat)
      requires Sound(db, m) && witnesses != null && deployment.Some?
      requires witnesses.account == user.id && witnesses.tenant == user.tenant
      requires ResourceNamed(m, plan.declaration.resource) == Some(plan.resource)
      requires Ascending(selected) && forall j :: 0 <= j < |selected| ==> selected[j] < |rows|
      modifies this`storage, witnesses
      ensures Sound(db, m) && left <= calls && |witnesses.values| <= old(|witnesses.values|) + |selected|
      ensures CanLookUp(db, plan, user, selected, rows, old(|witnesses.values|), calls) ==> r.Ok? && calls <= left + 2
      ensures r.Ok? ==> PlanAnswered(db, plan, UserScope(user, deployment.value, time.value), selected, rows, r.value)
    {
      left := calls;
      var chosen := seq(|selected|, j requires 0 <= j < |selected| => rows[selected[j]]);
      var storage;
      storage, left := Storage(db, m, plan, left);
      if storage.Err? {
        return Err, left;
      }
      var looked;
      looked, left := witnesses.Lookup(db, m, deployment.value, plan, storage.value, chosen, left);
      if looked.Err? {
        return Err, left;
      }
      var allowed := Spread(|rows|, selected, looked.value);
      assert forall j :: 0 <= j < |selected| ==> allowed[selected[j]] == looked.value[j] && chosen[j] == rows[selected[j]];
      r := Ok(allowed);
    }

    /** One lookup per plan, for the selected rows. */
    method LookupAll(db: Database, m: Manifest, protected: Resource, user: User, plans: seq<Plan>, selected: seq<nat>, rows: seq<Row>,
                     calls: nat)
      returns (r: Result<Decisions>, left: nat)
      requires Sound(db, m) && witnesses != null && deployment.Some?
      requires witnesses.account == user.id && witnesses.tenant == user.tenant
      requires AllAdmitted(m, protected, plans)
      requires Ascending(selected) && forall j :: 0 <= j < |selected| ==> selected[j] < |rows|
      modifies this`storage, witnesses
      ensures Sound(db, m) && left <= calls
      ensures CanLookUpAll(db, plans, user, selected, rows, old(|witnesses.values|), calls) ==> r.Ok?
      ensures r.Ok? ==> FirstDecided(db, plans, |plans|, UserScope(user, deployment.value, time.value), selected, rows, r.value)
    {
      left := calls;
      var decisions: Decisions := map[];
      ghost var held := |witnesses.values|;
      for k := 0 to |plans|
        invariant Sound(db, m) && left <= calls && witnesses == old(witnesses)
        invariant FirstDecided(db, plans, k, UserScope(user, deployment.value, time.value), selected, rows, decisions)
        invariant InStep(db, plans, user, selected, rows, held, calls, k, |witnesses.values|, left)
      {
        var next;
        next, left := LookupNext(db, m, protected, user, plans, k, selected, rows, decisions, held, calls, left);
        if next.Err? {
          return Err, left;
        }
        decisions := next.value;
      }
      r := Ok(decisions);
    }

    /** The next plan's lookup. */
    method LookupNext(db: Database, m: Manifest, protected: Resource, user: User, plans: seq<Plan>, k: nat, selected: seq<nat>,
                      rows: seq<Row>, decisions: Decisions, ghost held: nat, ghost allowance: nat, calls: nat)
      returns (r: Result<Decisions>, left: nat)
      requires Sound(db, m) && witnesses != null && deployment.Some?
      requires witnesses.account == user.id && witnesses.tenant == user.tenant
      requires AllAdmitted(m, protected, plans) && k < |plans|
      requires Ascending(selected) && forall j :: 0 <= j < |selected| ==> selected[j] < |rows|
      requires FirstDecided(db, plans, k, UserScope(user, deployment.value, time.value), selected, rows, decisions)
      requires InStep(db, plans, user, selected, rows, held, allowance, k, |witnesses.values|, calls)
      modifies this`storage, witnesses
      ensures Sound(db, m) && left <= calls
      ensures CanLookUpAll(db, plans, user, selected, rows, held, allowance) ==> r.Ok?
      ensures InStep(db, plans, user, selected, rows, held, allowance, k + 1, |witnesses.values|, left) || r.Err?
      ensures r.Ok? ==> FirstDecided(db, plans, k + 1, UserScope(user, deployment.value, time.value), selected, rows, r.value)
    {
      var plan := plans[k];
      PlanNamed(m, protected, plans, k);
      if CanLookUpAll(db, plans, user, selected, rows, held, allowance) {
        NextCanLookUp(db, plans, user, selected, rows, held, allowance, k, |witnesses.values|, calls);
      }
      var looked;
      looked, left := LookupPlan(db, m, user, plan, selected, rows, calls);
      if looked.Err? {
        return Err, left;
      }
      DecidedNext(db, m, protected, plans, k, UserScope(user, deployment.value, time.value), selected, rows, decisions, looked.value);
      r := Ok(decisions[plan.declaration := looked.value]);
    }

    /** Room for the incoming facts, or a new empty set of them. */
    method Prepare(ghost db: Database, ghost m: Manifest, user: User, now: nat, incoming: nat) returns (ok: bool)
      requires Sound(db, m) && time == Some(now) && witnessPrincipal == Some(UserKey(user.id, user.tenant))
      modifies this`witnesses
      ensures Sound(db, m) && (witnesses == old(witnesses) || witnesses == null || fresh(witnesses))
      ensures ok ==> witnesses != null && witnesses.account == user.id && witnesses.tenant == user.tenant
      ensures ok && incoming <= MAX_WITNESSES ==> |witnesses.values| + incoming <= MAX_WITNESSES
      ensures user.tenant != "" && AccountId(user.id) ==> ok
    {
      if witnesses != null && |witnesses.values| + incoming > MAX_WITNESSES {
        witnesses := null;
      }
      if witnesses == null {
        if user.tenant == "" || !AccountId(user.id) {
          return false;
        }
        witnesses := new Witnesses(user, now);
      }
      ok := true;
    }

    /** The membership part of the evaluator: look up what ordinary rules left open. */
    method Decide(db: Database, m: Manifest, protected: Resource, user: User, plans: seq<Plan>, rows: seq<Row>, visible: seq<bool>,
                  ordinary: seq<bool>, calls: nat)
      returns (r: Result<Decisions>, left: nat)
      requires Sound(db, m) && witnessPrincipal == Some(UserKey(user.id, user.tenant))
      requires |visible| == |rows| == |ordinary|
      requires AllAdmitted(m, protected, plans)
      modifies this`storage, this`witnesses, witnesses
      ensures Sound(db, m) && left <= calls
      ensures witnesses == old(witnesses) || witnesses == null || fresh(witnesses)
      ensures r.Ok? ==> time.Some? && deployment.Some?
      ensures CanDecide(db, time, deployment, user, plans, rows, visible, ordinary, calls) ==> r.Ok?
      ensures r.Ok? ==> forall i, p :: 0 <= i < |rows| && visible[i] && !ordinary[i] && p in plans ==>
        && p.declaration in r.value && |r.value[p.declaration]| == |rows| && p.resource.name in db.catalog
        && (r.value[p.declaration][i] <==> DecidedRow(db, p, UserScope(user, deployment.value, time.value), rows[i]))
    {
      left := calls;
      if time.None? || deployment.None? {
        return Err, left;
      }
      var selected := Select(rows, visible, ordinary);
      if selected.Err? {
        return Err, left;
      }
      BatchesMultiply(|plans|, |selected.value|);
      ghost var can := CanDecide(db, time, deployment, user, plans, rows, visible, ordinary, calls);
      if can {
        FewFacts(|selected.value|, |plans|);
        assert Findable(db, plans, selected.value, rows);
      }
      if |selected.value| * |plans| > MAX_WITNESSES {
        return Err, left;
      }
      var ok := Prepare(db, m, user, time.value, |selected.value| * |plans|);
      if !ok {
        return Err, left;
      }
      r, left := LookupAll(db, m, protected, user, plans, selected.value, rows, left);
      if r.Ok? {
        forall i, p | 0 <= i < |rows| && visible[i] && !ordinary[i] && p in plans
          ensures p.declaration in r.value && |r.value[p.declaration]| == |rows| && p.resource.name in db.catalog
          ensures r.value[p.declaration][i] <==> DecidedRow(db, p, UserScope(user, deployment.value, time.value), rows[i])
        {
          var k :| 0 <= k < |plans| && plans[k] == p;
          EachDecided(db, plans, |plans|, UserScope(user, deployment.value, time.value), selected.value, rows, r.value, k);
          var j :| 0 <= j < |selected.value| && selected.value[j] == i;
        }
      }
    }

    /** `evaluate_policy_expiry`. Whenever it returns, each row's decision is the grant. */
    method Evaluate(db: Database, m: Manifest, principal: Principal, op: Operation, rows: seq<Row>, calls: nat)
      returns (r: Result<seq<bool>>, left: nat)
      requires Sound(db, m)
      modifies this, witnesses
      ensures Sound(db, m) && left <= calls
      ensures witnesses == old(witnesses) || witnesses == null || fresh(witnesses)
      ensures Answerable(db, m, principal, op, time, deployment, rows, calls) ==> r.Ok?
      ensures r.Ok? ==> |r.value| == |rows| && ResourceById(m, op.resource).Some?
      ensures r.Ok? ==> forall i :: 0 <= i < |rows| ==> (r.value[i] <==> Granted(db, m, principal, op, time, deployment, rows[i]))
      ensures r.Ok? && !op.create ==> forall i :: 0 <= i < |rows| ==>
        AvailableTo(ResourceById(m, op.resource).value, rows[i].fields, time, op.maintenance, principal).Ok?
      ensures r.Ok? && op.create ==> forall i :: 0 <= i < |rows| ==> WithinHorizon(ResourceById(m, op.resource).value, rows[i].fields, time)
    {
      left := calls;
      if |rows| > MAX_BATCH {
        return Err, left;
      }
      Adopt(db, m, principal);
      var found := ResourceById(m, op.resource);
      if found.None? {
        return Err, left;
      }
      var protected := found.value;
      var seen := VisibleRows(protected, op, principal, time, rows);
      var admitted := Plans(m, protected, op.policy);
      if seen.Err? || admitted.Err? {
        return Err, left;
      }
      var visible, plans := seen.value, admitted.value;
      forall i | 0 <= i < |rows| && op.create ensures WithinHorizon(protected, rows[i].fields, time) {
        CreatesWithinHorizon(protected, rows[i].fields, time);
      }
      var ordinary := OrdinaryRows(op, principal, rows);
      var looked;
      looked, left := DecideOpen(db, m, protected, principal, op, plans, rows, visible, ordinary, left);
      if looked.Err? {
        return Err, left;
      }
      r := Ok(seq(|rows|, i requires 0 <= i < |rows| =>
        visible[i] && AllowedWith(op.policy, principal, rows[i], Decided(looked.value, i))));
      forall i | 0 <= i < |rows| ensures r.value[i] <==> Granted(db, m, principal, op, time, deployment, rows[i]) {
        if visible[i] {
          RowDecided(db, m, protected, principal, op, plans, time, deployment, rows[i], looked.value, i);
        }
      }
    }

    /** Looks up what is left open, if anything is and anything can be. */
    method DecideOpen(db: Database, m: Manifest, protected: Resource, principal: Principal, op: Operation, plans: seq<Plan>,
                      rows: seq<Row>, visible: seq<bool>, ordinary: seq<bool>, calls: nat)
      returns (r: Result<Decisions>, left: nat)
      requires Sound(db, m) && witnessPrincipal == Some(KeyOf(principal))
      requires |visible| == |rows| && ordinary == OrdinaryRows(op, principal, rows) && AllAdmitted(m, protected, plans)
      modifies this`storage, this`witnesses, witnesses
      ensures Sound(db, m) && left <= calls
      ensures witnesses == old(witnesses) || witnesses == null || fresh(witnesses)
      ensures (principal.SignedIn? && principal.user.tenant != "" ==>
                 CanDecide(db, time, deployment, principal.user, plans, rows, visible, ordinary, calls)) ==> r.Ok?
      ensures r.Ok? ==> forall i :: 0 <= i < |rows| && visible[i] ==>
        LookedUp(db, principal, op, plans, time, deployment, rows[i], r.value, i)
    {
      left := calls;
      r := Ok(map[]);
      if plans != [] && (exists i :: 0 <= i < |rows| && visible[i] && !ordinary[i]) && principal.SignedIn? && principal.user.tenant != "" {
        r, left := Decide(db, m, protected, principal.user, plans, rows, visible, ordinary, left);
      }
    }

    /** The operation's plans with their storage. */
    method StoredPlans(db: Database, m: Manifest, plans: seq<Plan>, calls: nat)
      returns (r: Result<map<ExistsRelated, (Plan, int)>>, left: nat)
      requires Sound(db, m)
      modifies this`storage
      ensures Sound(db, m) && left <= calls
      ensures r.Ok? ==> forall d :: d in r.value ==> StoredAt(db, plans, d, r.value[d])
      ensures r.Ok? ==> forall j :: 0 <= j < |plans| ==> plans[j].declaration in r.value
      ensures (forall p :: p in plans ==> Stored(db, p)) && |plans| <= calls ==> r.Ok?
    {
      left := calls;
      var stored: map<ExistsRelated, (Plan, int)> := map[];
      for k := 0 to |plans|
        invariant Sound(db, m) && left <= calls
        invariant forall j :: 0 <= j < k ==> plans[j].declaration in stored
        invariant forall d :: d in stored ==> StoredAt(db, plans, d, stored[d])
        invariant (forall p :: p in plans ==> Stored(db, p)) && |plans| <= calls ==> calls <= left + k
      {
        assert plans[k] in plans;
        var found;
        found, left := Storage(db, m, plans[k], left);
        if found.Err? {
          return Err, left;
        }
        stored := stored[plans[k].declaration := (plans[k], found.value)];
      }
      r := Ok(stored);
    }

    /** `filter`. Whenever it compiles, the clauses select a stored record exactly when the
        operation is granted on it, for every record whose expiry can be judged. */
    method Filter(db: Database, m: Manifest, principal: Principal, op: Operation, params: Parameters, calls: nat)
      returns (r: Result<seq<Expr>>, left: nat)
      requires Sound(db, m) && CastsDecimals(db)
      modifies this`storage, params
      ensures Sound(db, m) && left <= calls && old(params.items) <= params.items
      ensures r.Ok? ==> ResourceById(m, op.resource).Some?
      ensures Compilable(db, m, principal, op, time, deployment, calls) ==> r.Ok?
      ensures r.Ok? && Identified(principal) && !op.create ==>
        forall f: Frame, more {:trigger Selects(db, f, more, Any(r.value))} ::
          params.items <= more
          && AvailableTo(ResourceById(m, op.resource).value, f.row.fields, time, op.maintenance, principal).Ok? ==>
            (Selects(db, f, more, Any(r.value)) <==> Granted(db, m, principal, op, time, deployment, RowOf(f.row)))
    {
      left := calls;
      var found := ResourceById(m, op.resource);
      if found.None? {
        return Err, left;
      }
      var protected := found.value;
      var plans := Plans(m, protected, op.policy);
      if plans.Err? {
        return Err, left;
      }
      var stored;
      stored, left := StoredPlans(db, m, plans.value, left);
      if stored.Err? {
        return Err, left;
      }
      StoredAreAll(db, m, protected, op.policy, plans.value, stored.value);
      var lookup := ByPlans(stored.value, deployment, time);
      LookupCompiles(db, m, protected, principal, op, time, deployment, plans.value, stored.value, calls);
      r := FilterWith(op.policy, principal, lookup, params);
      if r.Err? {
        return;
      }
      forall row {:trigger Granted(db, m, principal, op, time, deployment, row)}
        ensures Granted(db, m, principal, op, time, deployment, row)
                <==> Visible(protected, op, principal, time, row) && AllowedWith(op.policy, principal, row, Relates(db, lookup, principal, row))
      {
        PlansGrant(db, m, protected, principal, op.policy, time, deployment, row);
      }
      if op.maintenance && principal.Worker? {
        if protected.expiry.Some? && time.None? {
          r := Err;
        }
        return;
      }
      ghost var base := params.items;
      ghost var clauses := r.value;
      r := NarrowUnexpired(r.value, protected, time, params);
      if r.Ok? {
        forall f: Frame, more |
          params.items <= more && Available(protected, f.row.fields, time).Ok?
          ensures Selects(db, f, more, Any(r.value))
                  <==> Selects(db, f, more, Any(clauses)) && Available(protected, f.row.fields, time).value
        {
          assert base <= more;
          if protected.expiry.Some? {
            ExpiryAgrees(db, protected, f.row.fields, time.value);
          }
        }
      }
    }
  }

  /** Both paths over the same snapshot, principal and operation: whenever both return, the
      compiled filter selects each stored record exactly when the row evaluator grants it. */
  method BothPaths(db: Database, m: Manifest, principal: Principal, op: Operation, records: seq<Record>, authority: Authority,
                   params: Parameters, calls: nat)
    returns (granted: Result<seq<bool>>, clauses: Result<seq<Expr>>)
    requires authority.Sound(db, m) && CastsDecimals(db)
    modifies authority, authority.witnesses, params
    ensures granted.Ok? && clauses.Ok? && Identified(principal) && !op.create ==>
      forall i, f: Frame, more :: 0 <= i < |records| && f.row == records[i] && params.items <= more ==>
        |granted.value| == |records|
        && (Selects(db, f, more, Any(clauses.value)) <==> granted.value[i])
  {
    var rows := seq(|records|, i requires 0 <= i < |records| => RowOf(records[i]));
    var left;
    granted, left := authority.Evaluate(db, m, principal, op, rows, calls);
    clauses, left := authority.Filter(db, m, principal, op, params, left);
  }

  /** The answers for a looked-up row are its memberships; with no tenant or no membership
      predicate there is nothing to answer. */
  lemma RowAnswered(db: Database, m: Manifest, protected: Resource, policy: Policy, plans: seq<Plan>, deployment: Option<Deployment>,
                    time: Option<nat>, principal: Principal, row: Row, decisions: Decisions, i: nat)
    requires Plans(m, protected, policy) == Ok(plans) && principal.SignedIn?
    requires || ((plans == [] || principal.user.tenant == "") && decisions == map[])
             || (&& principal.user.tenant != "" && deployment.Some? && time.Some?
                 && forall p :: p in plans ==>
                      && p.declaration in decisions && i < |decisions[p.declaration]| && p.resource.name in db.catalog
                      && (decisions[p.declaration][i] <==> DecidedRow(db, p, UserScope(principal.user, deployment.value, time.value), row)))
    ensures Answered(db, PlansFor(db, m, protected, policy), deployment, time, principal, policy, row, decisions, i)
  {
    var all := PlansFor(db, m, protected, policy);
    forall d | Declares(policy, d)
      ensures Decided(decisions, i)(d) == Relates(db, ByPlans(all, deployment, time), principal, row)(d)
    {
      var p := Admit(m, protected, d).value;
      assert p in plans && p.declaration == d;
      if principal.user.tenant != "" {
        assert d in Declarations(policy);
        assert all[d] == (p, db.catalog[p.resource.name]);
      }
    }
  }

  function OrdinaryRows(op: Operation, principal: Principal, rows: seq<Row>): (r: seq<bool>)
    ensures |r| == |rows| && forall i :: 0 <= i < |rows| ==> r[i] == Allowed(op.policy, principal, rows[i])
  {
    seq(|rows|, i requires 0 <= i < |rows| => Allowed(op.policy, principal, rows[i]))
  }

  /** A batch the evaluator answers: within its limits, every row's expiry readable, the operation's
      declarations admitted, and for an account of a tenant all that looking up takes. */
  ghost predicate Answerable(db: Database, m: Manifest, principal: Principal, op: Operation, time: Option<nat>,
                             deployment: Option<Deployment>, rows: seq<Row>, calls: nat)
  {
    var protected := ResourceById(m, op.resource);
    && |rows| <= MAX_BATCH && protected.Some?
    && VisibleRows(protected.value, op, principal, time, rows).Ok?
    && Plans(m, protected.value, op.policy).Ok?
    && (principal.SignedIn? && principal.user.tenant != "" ==>
          CanDecide(db, time, deployment, principal.user, Plans(m, protected.value, op.policy).value, rows,
                    VisibleRows(protected.value, op, principal, time, rows).value, OrdinaryRows(op, principal, rows), calls))
  }

  /** An operation whose filter compiles. */
  ghost predicate Compilable(db: Database, m: Manifest, principal: Principal, op: Operation, time: Option<nat>,
                             deployment: Option<Deployment>, calls: nat)
  {
    var protected := ResourceById(m, op.resource);
    && protected.Some? && Plans(m, protected.value, op.policy).Ok?
    && (forall p :: p in Plans(m, protected.value, op.policy).value ==> Stored(db, p))
    && |Plans(m, protected.value, op.policy).value| <= calls
    && (protected.value.expiry.Some? ==> time.Some?)
    && (principal.SignedIn? && principal.user.tenant != "" ==> time.Some? && deployment.Some? && AccountId(principal.user.id))
  }

  lemma LookupCompiles(db: Database, m: Manifest, protected: Resource, principal: Principal, op: Operation, time: Option<nat>,
                       deployment: Option<Deployment>, plans: seq<Plan>, stored: map<ExistsRelated, (Plan, int)>, calls: nat)
    requires ResourceById(m, op.resource) == Some(protected) && Plans(m, protected, op.policy) == Ok(plans)
    requires forall j :: 0 <= j < |plans| ==> plans[j].declaration in stored
    requires forall d :: d in stored ==> StoredAt(db, plans, d, stored[d])
    ensures Compilable(db, m, principal, op, time, deployment, calls) ==> Compiles(op.policy, principal, ByPlans(stored, deployment, time))
  {
    var lookup := ByPlans(stored, deployment, time);
    if Compilable(db, m, principal, op, time, deployment, calls) {
      forall r, i | 0 <= r < |op.policy| && 0 <= i < |op.policy[r]|
        ensures AtomCompiles(op.policy[r][i], principal, lookup)
      {
        if op.policy[r][i].Related? {
          var p := Admit(m, protected, op.policy[r][i].declaration).value;
          assert Declares(op.policy, op.policy[r][i].declaration) && p in plans;
          var j :| 0 <= j < |plans| && plans[j] == p;
        }
      }
    }
  }

  /** What was looked up for the row, or why nothing was. */
  predicate LookedUp(db: Database, principal: Principal, op: Operation, plans: seq<Plan>, time: Option<nat>, deployment: Option<Deployment>,
                     row: Row, decisions: Decisions, i: nat)
  {
    || Allowed(op.policy, principal, row) || !principal.SignedIn?
    || ((plans == [] || principal.user.tenant == "") && decisions == map[])
    || (&& principal.user.tenant != "" && deployment.Some? && time.Some?
        && forall p :: p in plans ==>
             && p.declaration in decisions && i < |decisions[p.declaration]| && p.resource.name in db.catalog
             && (decisions[p.declaration][i] <==> DecidedRow(db, p, UserScope(principal.user, deployment.value, time.value), row)))
  }

  /** The decision on a visible row is the grant. */
  lemma RowDecided(db: Database, m: Manifest, protected: Resource, principal: Principal, op: Operation, plans: seq<Plan>, time: Option<nat>,
                   deployment: Option<Deployment>, row: Row, decisions: Decisions, i: nat)
    requires ResourceById(m, op.resource) == Some(protected) && Plans(m, protected, op.policy) == Ok(plans)
    requires Visible(protected, op, principal, time, row)
    requires LookedUp(db, principal, op, plans, time, deployment, row, decisions, i)
    ensures AllowedWith(op.policy, principal, row, Decided(decisions, i)) <==> Granted(db, m, principal, op, time, deployment, row)
  {
    if !Allowed(op.policy, principal, row) && principal.SignedIn? {
      RowAnswered(db, m, protected, op.policy, plans, deployment, time, principal, row, decisions, i);
    }
    SkippedLookups(db, PlansFor(db, m, protected, op.policy), deployment, time, principal, op.policy, row, decisions, i);
    PlansGrant(db, m, protected, principal, op.policy, time, deployment, row);
  }

  /** The selected rows have the reference the plan reads, canonically. */
  predicate Keyed(plan: Plan, selected: seq<nat>, rows: seq<Row>)
    requires forall j :: 0 <= j < |selected| ==> selected[j] < |rows|
  {
    forall j :: 0 <= j < |selected| ==> Key(plan, rows[selected[j]]).Ok?
  }

  /** The catalog knows every plan's membership resource, and the rows have the references. */
  predicate Findable(db: Database, plans: seq<Plan>, selected: seq<nat>, rows: seq<Row>)
    requires forall j :: 0 <= j < |selected| ==> selected[j] < |rows|
  {
    forall p :: p in plans ==> Stored(db, p) && Keyed(p, selected, rows)
  }

  predicate AllAdmitted(m: Manifest, protected: Resource, plans: seq<Plan>) {
    forall p :: p in plans ==> Admit(m, protected, p.declaration) == Ok(p)
  }

  lemma PlanNamed(m: Manifest, protected: Resource, plans: seq<Plan>, k: nat)
    requires AllAdmitted(m, protected, plans) && k < |plans|
    ensures ResourceNamed(m, plans[k].declaration.resource) == Some(plans[k].resource)
  {
    assert plans[k] in plans;
  }

  /** The first `k` plans are decided. */
  ghost predicate FirstDecided(db: Database, plans: seq<Plan>, k: nat, scope: Scope, selected: seq<nat>, rows: seq<Row>, decisions: Decisions) {
    k == 0 || (k <= |plans| && FirstDecided(db, plans, k - 1, scope, selected, rows, decisions)
               && DecidedFor(db, plans[k - 1], scope, selected, rows, decisions))
  }

  lemma {:induction false} EachDecided(db: Database, plans: seq<Plan>, k: nat, scope: Scope, selected: seq<nat>, rows: seq<Row>,
                                       decisions: Decisions, j: nat)
    requires FirstDecided(db, plans, k, scope, selected, rows, decisions) && j < k
    ensures j < |plans| && DecidedFor(db, plans[j], scope, selected, rows, decisions)
  {
    if j < k - 1 {
      EachDecided(db, plans, k - 1, scope, selected, rows, decisions, j);
    }
  }

  lemma {:induction false} FirstKept(db: Database, m: Manifest, protected: Resource, plans: seq<Plan>, k: nat, n: nat, scope: Scope,
                                     selected: seq<nat>, rows: seq<Row>, before: Decisions, allowed: seq<bool>)
    requires n <= k < |plans| && FirstDecided(db, plans, n, scope, selected, rows, before) && AllAdmitted(m, protected, plans)
    requires PlanAnswered(db, plans[k], scope, selected, rows, allowed)
    ensures FirstDecided(db, plans, n, scope, selected, rows, before[plans[k].declaration := allowed])
  {
    if n > 0 {
      FirstKept(db, m, protected, plans, k, n - 1, scope, selected, rows, before, allowed);
      assert plans[n - 1] in plans && plans[k] in plans;
      DecidedKept(db, plans[n - 1], plans[k], scope, selected, rows, before, before[plans[k].declaration := allowed], allowed);
    }
  }

  /** The plan's answers on the selected rows. */
  predicate PlanAnswered(db: Database, plan: Plan, scope: Scope, selected: seq<nat>, rows: seq<Row>, allowed: seq<bool>) {
    && |allowed| == |rows| && plan.resource.name in db.catalog
    && (forall j :: 0 <= j < |selected| ==> selected[j] < |rows|)
    && (forall j :: 0 <= j < |selected| ==> (allowed[selected[j]] <==> DecidedRow(db, plan, scope, rows[selected[j]])))
  }

  /** One plan can be looked up with this many facts held and calls left. */
  predicate CanLookUp(db: Database, plan: Plan, user: User, selected: seq<nat>, rows: seq<Row>, held: nat, calls: nat)
    requires forall j :: 0 <= j < |selected| ==> selected[j] < |rows|
  {
    && Stored(db, plan) && Keyed(plan, selected, rows) && calls >= 2 && AccountId(user.id) && user.tenant != ""
    && |selected| <= MAX_BATCH && held + |selected| <= MAX_WITNESSES
  }

  /** All plans can. */
  predicate CanLookUpAll(db: Database, plans: seq<Plan>, user: User, selected: seq<nat>, rows: seq<Row>, held: nat, calls: nat)
    requires forall j :: 0 <= j < |selected| ==> selected[j] < |rows|
  {
    && Room(held, |plans|, |selected|) && 2 * |plans| <= calls && AccountId(user.id) && user.tenant != ""
    && Findable(db, plans, selected, rows)
  }

  /** After `k` plans: the facts held and the calls used so far. */
  predicate InStep(db: Database, plans: seq<Plan>, user: User, selected: seq<nat>, rows: seq<Row>, held: nat, calls: nat, k: nat,
                   now: nat, left: nat)
    requires forall j :: 0 <= j < |selected| ==> selected[j] < |rows|
  {
    now <= held + Batches(k, |selected|) && (CanLookUpAll(db, plans, user, selected, rows, held, calls) ==> calls <= left + 2 * k)
  }

  lemma NextCanLookUp(db: Database, plans: seq<Plan>, user: User, selected: seq<nat>, rows: seq<Row>, held: nat, calls: nat, k: nat,
                      now: nat, left: nat)
    requires forall j :: 0 <= j < |selected| ==> selected[j] < |rows|
    requires CanLookUpAll(db, plans, user, selected, rows, held, calls) && k < |plans|
    requires now <= held + Batches(k, |selected|) && calls <= left + 2 * k
    ensures CanLookUp(db, plans[k], user, selected, rows, now, left)
  {
    BatchesGrow(k, |plans|, |selected|);
    assert plans[k] in plans;
  }

  lemma DecidedNext(db: Database, m: Manifest, protected: Resource, plans: seq<Plan>, k: nat, scope: Scope, selected: seq<nat>,
                    rows: seq<Row>, before: Decisions, allowed: seq<bool>)
    requires k < |plans| && FirstDecided(db, plans, k, scope, selected, rows, before)
    requires AllAdmitted(m, protected, plans)
    requires PlanAnswered(db, plans[k], scope, selected, rows, allowed)
    ensures FirstDecided(db, plans, k + 1, scope, selected, rows, before[plans[k].declaration := allowed])
  {
    FirstKept(db, m, protected, plans, k, k, scope, selected, rows, before, allowed);
  }

  /** Rows no ordinary rule decides, whose membership has to be looked up. */
  predicate Open(visible: seq<bool>, ordinary: seq<bool>, i: nat) {
    i < |visible| && i < |ordinary| && visible[i] && !ordinary[i]
  }

  /** What looking up takes: a time, a deployment, an account of a tenant, identities that fit, the
      plans' resources in the catalog, references on the rows, and two calls for each plan. */
  predicate CanDecide(db: Database, time: Option<nat>, deployment: Option<Deployment>, user: User, plans: seq<Plan>, rows: seq<Row>,
                      visible: seq<bool>, ordinary: seq<bool>, calls: nat)
  {
    && time.Some? && deployment.Some? && user.tenant != "" && AccountId(user.id)
    && |rows| <= MAX_BATCH && |plans| <= MAX_MEMBERSHIP_PREDICATES && 2 * |plans| <= calls
    && (forall i :: 0 <= i < |rows| && Open(visible, ordinary, i) ==> rows[i].id <= I64_MAX)
    && (forall p :: p in plans ==> Stored(db, p) && forall i :: 0 <= i < |rows| && Open(visible, ordinary, i) ==> Key(p, rows[i]).Ok?)
  }

  lemma FewFacts(selected: nat, plans: nat)
    requires selected <= MAX_BATCH && plans <= MAX_MEMBERSHIP_PREDICATES
    ensures selected * plans <= MAX_WITNESSES
  {
  }

  /** Facts in so many batches of one size. */
  function Batches(k: nat, size: nat): nat {
    if k == 0 then 0 else Batches(k - 1, size) + size
  }

  /** So many more facts still fit. */
  predicate Room(held: nat, plans: nat, selected: nat) {
    selected <= MAX_BATCH && held + Batches(plans, selected) <= MAX_WITNESSES
  }

  lemma {:induction false} BatchesMultiply(k: nat, size: nat)
    ensures Batches(k, size) == size * k
  {
    if k > 0 {
      BatchesMultiply(k - 1, size);
      assert size * k == size * (k - 1) + size;
    }
  }

  lemma {:induction false} BatchesGrow(k: nat, plans: nat, size: nat)
    requires k < plans
    ensures Batches(k, size) + size <= Batches(plans, size)
  {
    if k + 1 < plans {
      BatchesGrow(k, plans - 1, size);
    }
  }

  predicate Ascending(s: seq<nat>) {
    forall i, j :: 0 <= i < j < |s| ==> s[i] < s[j]
  }

  /** The decisions for a plan are right on the selected rows. */
  ghost predicate DecidedFor(db: Database, plan: Plan, scope: Scope, selected: seq<nat>, rows: seq<Row>, decisions: Decisions) {
    && plan.declaration in decisions && |decisions[plan.declaration]| == |rows|
    && plan.resource.name in db.catalog
    && forall j :: 0 <= j < |selected| && selected[j] < |rows| ==>
         (decisions[plan.declaration][selected[j]] <==>
          DecidedRow(db, plan, scope, rows[selected[j]]))
  }

  predicate DecidedRow(db: Database, plan: Plan, scope: Scope, row: Row)
    requires plan.resource.name in db.catalog
  {
    row.tenant == scope.tenant && IsMember(db, plan, db.catalog[plan.resource.name], scope, TargetOf(plan, row.id, row.fields))
  }

  lemma DecidedKept(db: Database, p: Plan, q: Plan, scope: Scope, selected: seq<nat>, rows: seq<Row>, before: Decisions,
                    after: Decisions, allowed: seq<bool>)
    requires DecidedFor(db, p, scope, selected, rows, before)
    requires after == before[q.declaration := allowed] && DecidedFor(db, q, scope, selected, rows, after)
    requires p.declaration == q.declaration ==> p == q
    ensures DecidedFor(db, p, scope, selected, rows, after)
  {
  }

  method Spread(n: nat, selected: seq<nat>, looked: seq<bool>) returns (allowed: seq<bool>)
    requires Ascending(selected) && |looked| == |selected| && forall j :: 0 <= j < |selected| ==> selected[j] < n
    ensures |allowed| == n && forall j :: 0 <= j < |selected| ==> allowed[selected[j]] == looked[j]
  {
    allowed := seq(n, _ => false);
    for k := 0 to |selected|
      invariant |allowed| == n && forall j :: 0 <= j < k ==> allowed[selected[j]] == looked[j]
    {
      allowed := allowed[selected[k] := looked[k]];
    }
  }

  /** The visible rows no ordinary rule grants; their identities must fit the database's. */
  method Select(rows: seq<Row>, visible: seq<bool>, ordinary: seq<bool>) returns (r: Result<seq<nat>>)
    requires |visible| == |rows| == |ordinary|
    ensures r.Ok? ==> Ascending(r.value) && (forall j :: 0 <= j < |r.value| ==> r.value[j] < |rows|)
    ensures r.Ok? ==> forall i :: 0 <= i < |rows| && visible[i] && !ordinary[i] ==> i in r.value
    ensures r.Ok? ==> |r.value| <= |rows| && forall j :: 0 <= j < |r.value| ==> visible[r.value[j]] && !ordinary[r.value[j]]
    ensures r.Ok? <==> forall i :: 0 <= i < |rows| && visible[i] && !ordinary[i] ==> rows[i].id <= I64_MAX
  {
    var selected: seq<nat> := [];
    for i := 0 to |rows|
      invariant Ascending(selected) && (forall j :: 0 <= j < |selected| ==> selected[j] < i) && |selected| <= i
      invariant forall j :: 0 <= j < |selected| ==> visible[selected[j]] && !ordinary[selected[j]]
      invariant forall j :: 0 <= j < i && visible[j] && !ordinary[j] ==> rows[j].id <= I64_MAX
      invariant forall j :: 0 <= j < i && visible[j] && !ordinary[j] ==> j in selected
    {
      if visible[i] && !ordinary[i] {
        if rows[i].id > I64_MAX {
          return Err;
        }
        selected := selected + [i];
      }
    }
    r := Ok(selected);
  }
}
