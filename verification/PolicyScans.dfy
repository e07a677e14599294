/** Scan strategies: one relaxed or exact scan per rule, merged and rechecked
    (crates/noxide-admission/src/policy.rs, `list_strategy`, `residual_strategy`, `scan_policy`). */
module PolicyScans {
  import opened Prelude
  import opened Policy

  datatype ScanRule = ScanRule(rule: nat, exact: bool)

  datatype ListStrategy = Single | Merge(scans: seq<ScanRule>)

  predicate Has(rule: seq<Predicate>, kind: Predicate -> bool) {
    exists i :: 0 <= i < |rule| && kind(rule[i])
  }

  function Only(rule: seq<Predicate>, kind: Predicate -> bool): (r: seq<Predicate>)
    ensures forall p :: p in r <==> p in rule && kind(p)
  {
    if rule == [] then [] else (if kind(rule[0]) then [rule[0]] else []) + Only(rule[1..], kind)
  }

  const IsRelated: Predicate -> bool := (p: Predicate) => p.Related?
  const IsService: Predicate -> bool := (p: Predicate) => p.Service?
  const NamesIdentity: Predicate -> bool := (p: Predicate) => p.Owner? || p.PrincipalIs?
  const InServiceScan: Predicate -> bool := (p: Predicate) => p.Service? || p.SameTenant?
  const NeedsMerge: Predicate -> bool := (p: Predicate) => p.PrincipalIs? || p.Related?

  function ResidualStrategy(policy: Policy): ListStrategy {
    Merge(seq(|policy|, r requires 0 <= r => ScanRule(r, false)))
  }

  function ListStrategyOf(policy: Policy, scoped: bool): ListStrategy {
    if forall r :: 0 <= r < |policy| ==> !Has(policy[r], NeedsMerge) then Single
    else
      Merge(seq(|policy|, r requires 0 <= r < |policy| =>
        ScanRule(r, !scoped && !Has(policy[r], IsRelated) && |Only(policy[r], NamesIdentity)| <= 1)))
  }

  /** The atoms a scan of the rule keeps. */
  function ScanAtoms(rule: seq<Predicate>, exact: bool): seq<Predicate> {
    if exact then rule
    else if Has(rule, IsService) then Only(rule, InServiceScan)
    else
      var named := Only(rule, NamesIdentity);
      if named == [] then [] else [named[0]]
  }

  function ScanPolicy(policy: Policy, scan: ScanRule): Policy
    requires scan.rule < |policy|
  {
    var atoms := ScanAtoms(policy[scan.rule], scan.exact);
    [if atoms == [] then [Public] else atoms]
  }

  /** `Public` holds of every row a principal can be shown anything about by this rule. */
  predicate PublicAdmits(principal: Principal, row: Row) {
    Allowed([[Public]], principal, row)
  }

  lemma AllowedByOne(rule: seq<Predicate>, principal: Principal, row: Row)
    ensures Allowed([rule], principal, row) <==> RuleHolds(rule, principal, row, NoneRelated)
  {
    if RuleHolds(rule, principal, row, NoneRelated) {
      assert RuleHolds([rule][0], principal, row, NoneRelated);
    }
  }

  /** Whatever a nonempty rule demands, a worker's rows are in its tenant, so `Public` holds. */
  lemma RuleImpliesPublic(rule: seq<Predicate>, principal: Principal, row: Row, related: ExistsRelated -> bool)
    requires RuleHolds(rule, principal, row, related) && (principal.Anonymous? ==> Public in rule)
    ensures PublicAdmits(principal, row)
  {
    AllowedByOne([Public], principal, row);
    assert Holds(Bind(rule[0], principal), row, related);
    if principal.Anonymous? {
      var i :| 0 <= i < |rule| && rule[i] == Public;
      assert Holds(Bind(rule[i], principal), row, related);
    }
  }

  lemma PublicForAnyRule(rule: seq<Predicate>, principal: Principal, row: Row, related: ExistsRelated -> bool)
    requires RuleHolds(rule, principal, row, related)
    ensures PublicAdmits(principal, row)
  {
    assert Holds(Bind(rule[0], principal), row, related);
    if principal.Anonymous? {
      assert rule[0].Public?;
      assert rule[0] in rule;
    }
    RuleImpliesPublic(rule, principal, row, related);
  }

  /** A relaxed scan keeps some of the rule's own atoms, none of them about membership. */
  lemma RelaxedAtoms(rule: seq<Predicate>)
    ensures forall p :: p in ScanAtoms(rule, false) ==> p in rule && !p.Related?
  {
    var named := Only(rule, NamesIdentity);
    if named != [] {
      assert named[0] in named;
    }
  }

  /** Every row a rule admits, under any membership, its scan admits without looking at
      membership. */
  lemma ScanCovers(policy: Policy, scan: ScanRule, principal: Principal, row: Row, related: ExistsRelated -> bool)
    requires scan.rule < |policy| && RuleHolds(policy[scan.rule], principal, row, related)
    requires scan.exact ==> !Has(policy[scan.rule], IsRelated)
    ensures Allowed(ScanPolicy(policy, scan), principal, row)
  {
    var rule := policy[scan.rule];
    var atoms := ScanAtoms(rule, scan.exact);
    RelaxedAtoms(rule);
    if atoms == [] {
      PublicForAnyRule(rule, principal, row, related);
    } else {
      forall i | 0 <= i < |atoms| ensures Holds(Bind(atoms[i], principal), row, NoneRelated) {
        assert atoms[i] in rule;
        var j :| 0 <= j < |rule| && rule[j] == atoms[i];
        assert Holds(Bind(rule[j], principal), row, related);
        assert !IsRelated(rule[j]);
      }
      AllowedByOne(atoms, principal, row);
    }
  }

  /** An exact scan admits exactly the rule's rows, or, when the rule is empty, what `Public`
      admits. */
  lemma ExactScan(policy: Policy, scan: ScanRule, principal: Principal, row: Row, related: ExistsRelated -> bool)
    requires scan.rule < |policy| && scan.exact && !Has(policy[scan.rule], IsRelated)
    ensures Allowed(ScanPolicy(policy, scan), principal, row)
            <==> RuleHolds(policy[scan.rule], principal, row, related) || (policy[scan.rule] == [] && PublicAdmits(principal, row))
  {
    var rule := policy[scan.rule];
    if rule != [] {
      AllowedByOne(rule, principal, row);
      assert forall i :: 0 <= i < |rule| ==> !IsRelated(rule[i]);
      assert forall i :: 0 <= i < |rule| ==>
        Holds(Bind(rule[i], principal), row, NoneRelated) == Holds(Bind(rule[i], principal), row, related);
    }
  }

  /** The exact scan of a rule agrees with the rule on every row if and only if the rule is not
      empty; manifest admission rejects empty rules. */
  lemma ExactScanIsExact(policy: Policy, scan: ScanRule, principal: Principal, related: ExistsRelated -> bool)
    requires scan.rule < |policy| && scan.exact && !Has(policy[scan.rule], IsRelated)
    ensures (forall row :: Allowed(ScanPolicy(policy, scan), principal, row) <==> RuleHolds(policy[scan.rule], principal, row, related))
            <==> policy[scan.rule] != []
  {
    forall row
      ensures Allowed(ScanPolicy(policy, scan), principal, row)
              <==> RuleHolds(policy[scan.rule], principal, row, related) || (policy[scan.rule] == [] && PublicAdmits(principal, row))
    {
      ExactScan(policy, scan, principal, row, related);
    }
    if policy[scan.rule] == [] {
      var row := Row(1, "", if principal.Worker? then principal.tenant else "", map[]);
      AllowedByOne([Public], principal, row);
      assert PublicAdmits(principal, row);
      assert !RuleHolds(policy[scan.rule], principal, row, related);
    }
  }

  /** What a merge returns: rows of any scan, rechecked by the row evaluator unless exact. */
  predicate Merged(policy: Policy, scans: seq<ScanRule>, principal: Principal, row: Row, related: ExistsRelated -> bool) {
    exists k :: 0 <= k < |scans| && scans[k].rule < |policy|
      && Allowed(ScanPolicy(policy, scans[k]), principal, row)
      && (scans[k].exact || AllowedWith(policy, principal, row, related))
  }

  predicate EmptyExact(policy: Policy, scans: seq<ScanRule>) {
    exists k :: 0 <= k < |scans| && scans[k].rule < |policy| && scans[k].exact && policy[scans[k].rule] == []
  }

  /** One scan per rule, exact only where no membership predicate occurs. */
  predicate Faithful(policy: Policy, scans: seq<ScanRule>) {
    && |scans| == |policy|
    && (forall k :: 0 <= k < |scans| ==> scans[k].rule == k && (scans[k].exact ==> !Has(policy[k], IsRelated)))
  }

  lemma StrategiesAreFaithful(policy: Policy, scoped: bool)
    ensures Faithful(policy, ResidualStrategy(policy).scans)
    ensures ListStrategyOf(policy, scoped).Merge? ==> Faithful(policy, ListStrategyOf(policy, scoped).scans)
    ensures scoped && ListStrategyOf(policy, scoped).Merge? ==> !EmptyExact(policy, ListStrategyOf(policy, scoped).scans)
  {
  }

  /** The merge returns exactly the allowed rows, plus what `Public` admits when an exact scan
      stands for an empty rule; without such a rule it is exact for every principal and row. */
  lemma MergeIsAllowed(policy: Policy, scans: seq<ScanRule>, principal: Principal, row: Row, related: ExistsRelated -> bool)
    requires Faithful(policy, scans)
    ensures Merged(policy, scans, principal, row, related)
            <==> AllowedWith(policy, principal, row, related) || (EmptyExact(policy, scans) && PublicAdmits(principal, row))
  {
    if AllowedWith(policy, principal, row, related) {
      var r :| 0 <= r < |policy| && RuleHolds(policy[r], principal, row, related);
      ScanCovers(policy, scans[r], principal, row, related);
      assert Merged(policy, scans, principal, row, related);
    }
    if EmptyExact(policy, scans) && PublicAdmits(principal, row) {
      var k :| 0 <= k < |scans| && scans[k].rule < |policy| && scans[k].exact && policy[scans[k].rule] == [];
      ExactScan(policy, scans[k], principal, row, related);
      assert Merged(policy, scans, principal, row, related);
    }
    if Merged(policy, scans, principal, row, related) && !AllowedWith(policy, principal, row, related) {
      var k :| 0 <= k < |scans| && scans[k].rule < |policy| && Allowed(ScanPolicy(policy, scans[k]), principal, row) && scans[k].exact;
      ExactScan(policy, scans[k], principal, row, related);
    }
  }

  /** A single scan is only chosen when membership cannot matter. */
  lemma SingleIsAllowed(policy: Policy, scoped: bool, principal: Principal, row: Row, related: ExistsRelated -> bool)
    requires ListStrategyOf(policy, scoped).Single?
    ensures Allowed(policy, principal, row) == AllowedWith(policy, principal, row, related)
  {
    assert forall r, i :: 0 <= r < |policy| && 0 <= i < |policy[r]| ==> !NeedsMerge(policy[r][i]);
    AllowedOnlyByDeclared(policy, principal, row, NoneRelated, related);
  }

  // ----- how narrow scans are -----

  /** What a relaxed scan is narrowed by: the service and tenant predicates of a service rule, or else
      the first predicate that names who may see the row. */
  predicate Narrows(rule: seq<Predicate>, p: Predicate) {
    if exists i :: 0 <= i < |rule| && rule[i].Service? then p in rule && (p.Service? || p.SameTenant?)
    else FirstNamed(rule, p)
  }

  lemma {:induction false} FirstOnly(rule: seq<Predicate>)
    ensures var named := Only(rule, NamesIdentity);
            && (named == [] <==> forall i :: 0 <= i < |rule| ==> !NamesIdentity(rule[i]))
            && (named != [] ==> exists i :: 0 <= i < |rule| && rule[i] == named[0] && forall j :: 0 <= j < i ==> !NamesIdentity(rule[j]))
  {
    if rule != [] {
      FirstOnly(rule[1..]);
      var named := Only(rule, NamesIdentity);
      if NamesIdentity(rule[0]) {
        assert rule[0] == named[0];
      } else if named != [] {
        var i :| 0 <= i < |rule[1..]| && rule[1..][i] == named[0] && forall j :: 0 <= j < i ==> !NamesIdentity(rule[1..][j]);
        assert rule[i + 1] == named[0];
        assert forall j :: 0 <= j < i + 1 ==> !NamesIdentity(rule[j]);
      } else {
        assert forall i :: 0 < i < |rule| ==> rule[i] == rule[1..][i - 1];
      }
    }
  }

  predicate FirstNamed(rule: seq<Predicate>, p: Predicate) {
    exists i :: 0 <= i < |rule| && p == rule[i] && (p.Owner? || p.PrincipalIs?)
                && forall j :: 0 <= j < i ==> !rule[j].Owner? && !rule[j].PrincipalIs?
  }

  lemma FirstNamedIs(rule: seq<Predicate>, p: Predicate)
    ensures var named := Only(rule, NamesIdentity); FirstNamed(rule, p) <==> named != [] && p == named[0]
  {
    FirstOnly(rule);
    var named := Only(rule, NamesIdentity);
    if named != [] {
      assert named[0] in named;
      var k :| 0 <= k < |rule| && rule[k] == named[0] && forall j :: 0 <= j < k ==> !NamesIdentity(rule[j]);
      if FirstNamed(rule, p) {
        var i :| 0 <= i < |rule| && p == rule[i] && (p.Owner? || p.PrincipalIs?)
                 && forall j :: 0 <= j < i ==> !rule[j].Owner? && !rule[j].PrincipalIs?;
        assert i == k;
      }
    }
  }

  lemma RelaxedAtomsAre(rule: seq<Predicate>, p: Predicate)
    ensures p in ScanAtoms(rule, false) <==> Narrows(rule, p)
  {
    FirstNamedIs(rule, p);
  }

  /** A relaxed scan admits a row exactly when the predicates it is narrowed by do, or `Public` when
      there are none. */
  lemma RelaxedScanIsNarrow(policy: Policy, scan: ScanRule, principal: Principal, row: Row)
    requires scan.rule < |policy| && !scan.exact
    ensures Allowed(ScanPolicy(policy, scan), principal, row) <==>
              && (forall p :: Narrows(policy[scan.rule], p) ==> Holds(Bind(p, principal), row, NoneRelated))
              && ((exists p :: Narrows(policy[scan.rule], p)) || PublicAdmits(principal, row))
  {
    var rule := policy[scan.rule];
    var atoms := ScanAtoms(rule, false);
    forall p ensures p in atoms <==> Narrows(rule, p) {
      RelaxedAtomsAre(rule, p);
    }
    if atoms != [] {
      AllowedByOne(atoms, principal, row);
      assert Narrows(rule, atoms[0]);
      assert (forall i :: 0 <= i < |atoms| ==> Holds(Bind(atoms[i], principal), row, NoneRelated))
        <==> (forall p :: p in atoms ==> Holds(Bind(p, principal), row, NoneRelated));
    }
  }

  /** Lists are scanned once exactly when no rule looks at the row's reference to the principal or at
      memberships; otherwise a rule is scanned exactly when only the principal's identity, and that
      in one way, narrows it and no resource scope intervenes. */
  lemma StrategyIs(policy: Policy, scoped: bool)
    ensures ListStrategyOf(policy, scoped) == Single
            <==> forall r, i :: 0 <= r < |policy| && 0 <= i < |policy[r]| ==> !policy[r][i].PrincipalIs? && !policy[r][i].Related?
    ensures ListStrategyOf(policy, scoped).Merge? ==>
      var scans := ListStrategyOf(policy, scoped).scans;
      && |scans| == |policy|
      && forall r :: 0 <= r < |policy| ==>
           && scans[r].rule == r
           && (scans[r].exact <==>
                 && !scoped
                 && (forall i :: 0 <= i < |policy[r]| ==> !policy[r][i].Related?)
                 && (forall i, j :: 0 <= i < j < |policy[r]| ==> !(NamesIdentity(policy[r][i]) && NamesIdentity(policy[r][j]))))
  {
    forall r | 0 <= r < |policy|
      ensures |Only(policy[r], NamesIdentity)| <= 1
              <==> forall i, j :: 0 <= i < j < |policy[r]| ==> !(NamesIdentity(policy[r][i]) && NamesIdentity(policy[r][j]))
    {
      AtMostOne(policy[r]);
    }
  }

  lemma {:induction false} AtMostOne(rule: seq<Predicate>)
    ensures |Only(rule, NamesIdentity)| <= 1
            <==> forall i, j :: 0 <= i < j < |rule| ==> !(NamesIdentity(rule[i]) && NamesIdentity(rule[j]))
  {
    if rule != [] {
      AtMostOne(rule[1..]);
      FirstOnly(rule[1..]);
      assert forall i :: 0 < i < |rule| ==> rule[i] == rule[1..][i - 1];
      assert forall i :: 0 <= i < |rule[1..]| ==> rule[1..][i] == rule[i + 1];
    }
  }
}
