/** Policies and how a principal binds their predicates
    (crates/noxide-admission/src/policy.rs). */
module Policy {
  import opened Prelude

  datatype RelatedTarget = SelfRecord | Reference(field: string)

  datatype MembershipLiteral = BooleanLiteral(flag: bool) | ChoiceLiteral(choice: string)

  datatype ExistsRelated = ExistsRelated(
    resource: string,
    reference: string,
    target: RelatedTarget,
    account: string,
    conditions: seq<(string, MembershipLiteral)>)

  datatype Predicate =
    | Public
    | Capability
    | Owner
    | SameTenant
    | Service(worker: string)
    | PrincipalIs(field: string)
    | Role(name: string, tenantScoped: bool)
    | Related(declaration: ExistsRelated)

  /** Any nonempty rule all of whose predicates hold. */
  type Policy = seq<seq<Predicate>>

  datatype User = User(id: string, tenant: string, roles: seq<(string, string)>)

  datatype Principal =
    | Anonymous
    | SignedIn(user: User)
    | Worker(deployment: string, tenant: string, worker: string)

  datatype Condition =
    | Allow
    | Deny
    | OwnerIs(id: string)
    | TenantIs(tenant: string)
    | AccountIs(field: string, id: string)
    | Member(declaration: ExistsRelated)

  predicate HasRole(user: User, name: string, tenantScoped: bool) {
    exists k :: 0 <= k < |user.roles| && user.roles[k].0 == name &&
      if tenantScoped then user.roles[k].1 != "" && user.roles[k].1 == user.tenant else user.roles[k].1 == ""
  }

  /** What a predicate demands of a row, for one principal. */
  function Bind(p: Predicate, principal: Principal): Condition {
    match principal
    case Worker(_, tenant, worker) =>
      (match p
       case Public => TenantIs(tenant)
       case SameTenant => TenantIs(tenant)
       case Service(w) => if w == worker then TenantIs(tenant) else Deny
       case _ => Deny)
    case Anonymous => if p.Public? then Allow else Deny
    case SignedIn(user) =>
      match p
      case Public => Allow
      case Service(_) => Deny
      case Capability => Deny
      case PrincipalIs(field) => AccountIs(field, user.id)
      case Owner => OwnerIs(user.id)
      case SameTenant => if user.tenant == "" then Deny else TenantIs(user.tenant)
      case Related(d) => Member(d)
      case Role(name, scoped) =>
        if !HasRole(user, name, scoped) then Deny
        else if scoped then TenantIs(user.tenant)
        else Allow
  }

  /** What the row evaluator sees of a record: an absent owner reads as the empty text. */
  datatype Row = Row(id: nat, owner: string, tenant: string, fields: map<string, string>)

  predicate Holds(c: Condition, row: Row, related: ExistsRelated -> bool) {
    match c
    case Allow => true
    case Deny => false
    case OwnerIs(id) => row.owner == id
    case TenantIs(tenant) => row.tenant == tenant
    case AccountIs(field, id) => field in row.fields && row.fields[field] == id
    case Member(d) => related(d)
  }

  predicate RuleHolds(rule: seq<Predicate>, principal: Principal, row: Row, related: ExistsRelated -> bool) {
    rule != [] && (forall i :: 0 <= i < |rule| ==> Holds(Bind(rule[i], principal), row, related))
  }

  /** `allowed_with`. */
  predicate AllowedWith(policy: Policy, principal: Principal, row: Row, related: ExistsRelated -> bool) {
    exists r :: 0 <= r < |policy| && RuleHolds(policy[r], principal, row, related)
  }

  const NoneRelated: ExistsRelated -> bool := d => false

  /** `allowed`: membership counts for nothing. */
  predicate Allowed(policy: Policy, principal: Principal, row: Row) {
    AllowedWith(policy, principal, row, NoneRelated)
  }

  predicate Declares(policy: Policy, d: ExistsRelated) {
    exists r, i :: 0 <= r < |policy| && 0 <= i < |policy[r]| && policy[r][i] == Related(d)
  }

  /** Only the declared memberships matter, and more of them never takes a grant away. */
  lemma AllowedGrows(policy: Policy, principal: Principal, row: Row, less: ExistsRelated -> bool, more: ExistsRelated -> bool)
    requires AllowedWith(policy, principal, row, less)
    requires forall d :: Declares(policy, d) && less(d) ==> more(d)
    ensures AllowedWith(policy, principal, row, more)
  {
    var r :| 0 <= r < |policy| && RuleHolds(policy[r], principal, row, less);
    forall i | 0 <= i < |policy[r]| ensures Holds(Bind(policy[r][i], principal), row, more) {
      assert Holds(Bind(policy[r][i], principal), row, less);
      if policy[r][i].Related? {
        assert Declares(policy, policy[r][i].declaration);
      }
    }
    assert RuleHolds(policy[r], principal, row, more);
  }

  lemma AllowedOnlyByDeclared(policy: Policy, principal: Principal, row: Row, one: ExistsRelated -> bool, two: ExistsRelated -> bool)
    requires forall d :: Declares(policy, d) ==> one(d) == two(d)
    ensures AllowedWith(policy, principal, row, one) == AllowedWith(policy, principal, row, two)
  {
    if AllowedWith(policy, principal, row, one) {
      AllowedGrows(policy, principal, row, one, two);
    }
    if AllowedWith(policy, principal, row, two) {
      AllowedGrows(policy, principal, row, two, one);
    }
  }

  /** Anonymous and worker principals never reach a membership condition. */
  lemma OnlyAccountsAreMembers(policy: Policy, principal: Principal, row: Row, one: ExistsRelated -> bool, two: ExistsRelated -> bool)
    requires !principal.SignedIn?
    ensures AllowedWith(policy, principal, row, one) == AllowedWith(policy, principal, row, two)
  {
    forall r | 0 <= r < |policy|
      ensures RuleHolds(policy[r], principal, row, one) == RuleHolds(policy[r], principal, row, two)
    {
      assert forall i :: 0 <= i < |policy[r]| ==> !Bind(policy[r][i], principal).Member?;
      assert forall i :: 0 <= i < |policy[r]| ==>
        Holds(Bind(policy[r][i], principal), row, one) == Holds(Bind(policy[r][i], principal), row, two);
    }
  }

  // ----- what each kind of principal can be granted -----

  /** Visitors are granted exactly what some rule of nothing but `Public` grants. */
  lemma AnonymousNeedsPublic(policy: Policy, row: Row, related: ExistsRelated -> bool)
    ensures AllowedWith(policy, Anonymous, row, related)
            <==> exists r :: 0 <= r < |policy| && policy[r] != [] && forall i :: 0 <= i < |policy[r]| ==> policy[r][i].Public?
  {
    forall r | 0 <= r < |policy|
      ensures RuleHolds(policy[r], Anonymous, row, related)
              <==> policy[r] != [] && forall i :: 0 <= i < |policy[r]| ==> policy[r][i].Public?
    {
      forall i | 0 <= i < |policy[r]| ensures Holds(Bind(policy[r][i], Anonymous), row, related) <==> policy[r][i].Public? {
      }
    }
  }

  predicate WorkerRule(rule: seq<Predicate>, worker: string) {
    forall i :: 0 <= i < |rule| ==> rule[i].Public? || rule[i].SameTenant? || rule[i] == Service(worker)
  }

  /** A worker is granted exactly the rows of its own tenant, and those by a rule every predicate of
      which is `Public`, the tenant's or its own name. */
  lemma WorkersAreGranted(policy: Policy, principal: Principal, row: Row, related: ExistsRelated -> bool)
    requires principal.Worker?
    ensures AllowedWith(policy, principal, row, related)
            <==> row.tenant == principal.tenant
                 && exists r :: 0 <= r < |policy| && policy[r] != [] && WorkerRule(policy[r], principal.worker)
  {
    forall r | 0 <= r < |policy| && policy[r] != []
      ensures RuleHolds(policy[r], principal, row, related) <==> row.tenant == principal.tenant && WorkerRule(policy[r], principal.worker)
    {
      forall i | 0 <= i < |policy[r]|
        ensures Holds(Bind(policy[r][i], principal), row, related)
                <==> row.tenant == principal.tenant
                     && (policy[r][i].Public? || policy[r][i].SameTenant? || policy[r][i] == Service(principal.worker))
      {
      }
      assert RuleHolds(policy[r], principal, row, related) ==> Holds(Bind(policy[r][0], principal), row, related);
    }
  }

  /** For an account, a rule grants exactly when each of its predicates says so of the row. */
  predicate SaysOf(p: Predicate, user: User, row: Row, related: ExistsRelated -> bool) {
    match p
    case Public => true
    case Capability => false
    case Owner => row.owner == user.id
    case SameTenant => user.tenant != "" && row.tenant == user.tenant
    case Service(_) => false
    case PrincipalIs(field) => field in row.fields && row.fields[field] == user.id
    case Related(d) => related(d)
    case Role(name, scoped) =>
      if scoped then user.tenant != "" && row.tenant == user.tenant && (name, user.tenant) in user.roles
      else (name, "") in user.roles
  }

  lemma AccountsAreGranted(policy: Policy, user: User, row: Row, related: ExistsRelated -> bool)
    ensures AllowedWith(policy, SignedIn(user), row, related)
            <==> exists r :: 0 <= r < |policy| && policy[r] != [] && forall i :: 0 <= i < |policy[r]| ==> SaysOf(policy[r][i], user, row, related)
  {
    forall r | 0 <= r < |policy|
      ensures RuleHolds(policy[r], SignedIn(user), row, related)
              <==> policy[r] != [] && forall i :: 0 <= i < |policy[r]| ==> SaysOf(policy[r][i], user, row, related)
    {
      forall i | 0 <= i < |policy[r]|
        ensures Holds(Bind(policy[r][i], SignedIn(user)), row, related) <==> SaysOf(policy[r][i], user, row, related)
      {
        AtomSays(policy[r][i], user, row, related);
      }
    }
  }

  lemma AtomSays(p: Predicate, user: User, row: Row, related: ExistsRelated -> bool)
    ensures Holds(Bind(p, SignedIn(user)), row, related) <==> SaysOf(p, user, row, related)
  {
    if p.Role? {
      var wanted := (p.name, if p.tenantScoped then user.tenant else "");
      if wanted in user.roles {
        var k :| 0 <= k < |user.roles| && user.roles[k] == wanted;
      }
      if HasRole(user, p.name, p.tenantScoped) {
        var k :| 0 <= k < |user.roles| && user.roles[k].0 == p.name &&
          if p.tenantScoped then user.roles[k].1 != "" && user.roles[k].1 == user.tenant else user.roles[k].1 == "";
        assert user.roles[k] == wanted;
      }
    }
  }
}
