/** The part of SQL that compiled policies use: expressions over one record row, one joined
    membership row and numbered parameters, with three-valued logic. */
module PolicySql {
  import opened Prelude
  import Decimal

  datatype Value = Null | Text(text: string) | Number(number: int)

  /** A row of `nx_records`. Unowned records store a NULL owner. */
  datatype Record = Record(id: nat, resource: int, owner: Option<string>, tenant: string, fields: map<string, string>)

  datatype Account = Account(id: string, tenant: string, active: bool)

  datatype Deployment = Deployment(contract: string, incarnation: string, generation: string)

  /** One transaction's snapshot. `cast` is the provider's `CAST(… AS BIGINT)` on text. */
  datatype Database = Database(
    records: seq<Record>,
    accounts: seq<Account>,
    deployment: Option<Deployment>,
    catalog: map<string, int>,
    cast: string -> Value)

  /** The provider reads canonical decimal text as the number it spells. */
  ghost predicate CastsDecimals(db: Database) {
    forall n: nat :: n <= I64_MAX ==> db.cast(Decimal.Print(n)) == Number(n)
  }

  datatype Term =
    | RowOwner
    | RowTenant
    | RowIdText
    | RowField(name: string)
    | MemberResource
    | MemberTenant
    | MemberField(name: string)
    | Requested
    | Parameter(n: nat)
    | Literal(number: int)
    | AsNumber(text: Term)

  datatype Expr =
    | Always
    | Never
    | Equal(left: Term, right: Term)
    | Greater(left: Term, right: Term)
    | All(parts: seq<Expr>)
    | Any(parts: seq<Expr>)
    | ExistsMember(where: Expr)
    | ExistsActiveAccount(id: Term, tenant: Term)
    | ExistsDeployment(contract: Term, incarnation: Term, generation: Term)

  datatype Truth = Yes | No | Unknown

  /** The rows an expression is about: the scanned record, the joined membership record and
      the requested reference of a witness query. */
  datatype Frame = Frame(row: Record, member: Option<Record>, requested: Value)

  function FieldOf(fields: map<string, string>, name: string): Value {
    if name in fields then Text(fields[name]) else Null
  }

  function Read(db: Database, f: Frame, params: seq<Value>, t: Term): Value {
    match t
    case RowOwner => if f.row.owner.Some? then Text(f.row.owner.value) else Null
    case RowTenant => Text(f.row.tenant)
    case RowIdText => Text(Decimal.Print(f.row.id))
    case RowField(name) => FieldOf(f.row.fields, name)
    case MemberResource => if f.member.Some? then Number(f.member.value.resource) else Null
    case MemberTenant => if f.member.Some? then Text(f.member.value.tenant) else Null
    case MemberField(name) => if f.member.Some? then FieldOf(f.member.value.fields, name) else Null
    case Requested => f.requested
    case Parameter(n) => if 1 <= n <= |params| then params[n - 1] else Null
    case Literal(k) => Number(k)
    case AsNumber(inner) =>
      var v := Read(db, f, params, inner);
      if v.Text? then db.cast(v.text) else v
  }

  function Known(b: bool): Truth {
    if b then Yes else No
  }

  function SameValue(a: Value, b: Value): Truth {
    if a.Null? || b.Null? then Unknown else Known(a == b)
  }

  function Above(a: Value, b: Value): Truth {
    if a.Number? && b.Number? then Known(a.number > b.number) else Unknown
  }

  predicate ActiveAccount(db: Database, id: Value, tenant: Value) {
    exists k :: 0 <= k < |db.accounts|
      && db.accounts[k].active && Text(db.accounts[k].id) == id && Text(db.accounts[k].tenant) == tenant
  }

  predicate Deployed(db: Database, contract: Value, incarnation: Value, generation: Value) {
    && db.deployment.Some?
    && Text(db.deployment.value.contract) == contract
    && Text(db.deployment.value.incarnation) == incarnation
    && Text(db.deployment.value.generation) == generation
  }

  function Eval(db: Database, f: Frame, params: seq<Value>, e: Expr): Truth
    decreases e
  {
    match e
    case Always => Yes
    case Never => No
    case Equal(a, b) => SameValue(Read(db, f, params, a), Read(db, f, params, b))
    case Greater(a, b) => Above(Read(db, f, params, a), Read(db, f, params, b))
    case All(parts) =>
      if exists i :: 0 <= i < |parts| && Eval(db, f, params, parts[i]) == No then No
      else if forall i :: 0 <= i < |parts| ==> Eval(db, f, params, parts[i]) == Yes then Yes
      else Unknown
    case Any(parts) =>
      if exists i :: 0 <= i < |parts| && Eval(db, f, params, parts[i]) == Yes then Yes
      else if forall i :: 0 <= i < |parts| ==> Eval(db, f, params, parts[i]) == No then No
      else Unknown
    case ExistsMember(where) =>
      Known(exists k :: 0 <= k < |db.records| && Eval(db, f.(member := Some(db.records[k])), params, where) == Yes)
    case ExistsActiveAccount(id, tenant) =>
      Known(ActiveAccount(db, Read(db, f, params, id), Read(db, f, params, tenant)))
    case ExistsDeployment(c, i, g) =>
      Known(Deployed(db, Read(db, f, params, c), Read(db, f, params, i), Read(db, f, params, g)))
  }

  /** A WHERE clause keeps a row only when it is true; unknown drops it. */
  predicate Selects(db: Database, f: Frame, params: seq<Value>, e: Expr) {
    Eval(db, f, params, e) == Yes
  }

  lemma AllOf(db: Database, f: Frame, params: seq<Value>, parts: seq<Expr>)
    ensures Selects(db, f, params, All(parts)) <==> forall i :: 0 <= i < |parts| ==> Selects(db, f, params, parts[i])
  {
    if forall i :: 0 <= i < |parts| ==> Selects(db, f, params, parts[i]) {
      assert forall i :: 0 <= i < |parts| ==> Eval(db, f, params, parts[i]) == Yes;
    }
  }

  lemma AnyOf(db: Database, f: Frame, params: seq<Value>, parts: seq<Expr>)
    ensures Selects(db, f, params, Any(parts)) <==> exists i :: 0 <= i < |parts| && Selects(db, f, params, parts[i])
  {
    if i :| 0 <= i < |parts| && Selects(db, f, params, parts[i]) {
      assert Eval(db, f, params, parts[i]) == Yes;
    }
  }

  lemma AllJoined(db: Database, f: Frame, params: seq<Value>, a: seq<Expr>, b: seq<Expr>)
    ensures Selects(db, f, params, All(a + b)) <==> Selects(db, f, params, All(a)) && Selects(db, f, params, All(b))
  {
    AllOf(db, f, params, a);
    AllOf(db, f, params, b);
    AllOf(db, f, params, a + b);
    assert forall i :: 0 <= i < |a| ==> (a + b)[i] == a[i];
    assert forall i :: 0 <= i < |b| ==> (a + b)[|a| + i] == b[i];
    assert forall i :: |a| <= i < |a + b| ==> (a + b)[i] == b[i - |a|];
  }

  lemma AllTwo(db: Database, f: Frame, params: seq<Value>, a: Expr, b: Expr)
    ensures Selects(db, f, params, All([a, b])) <==> Selects(db, f, params, a) && Selects(db, f, params, b)
  {
    AllOf(db, f, params, [a, b]);
    assert [a, b][0] == a && [a, b][1] == b;
  }

  /** The growing parameter vector; `$n` counts from one. */
  class Parameters {
    var items: seq<Value>

    constructor ()
      ensures items == []
    {
      items := [];
    }

    method Push(v: Value) returns (t: Term)
      modifies this
      ensures items == old(items) + [v] && t == Parameter(|items|)
      ensures forall db, f, more {:trigger Read(db, f, more, t)} :: items <= more ==> Read(db, f, more, t) == v
    {
      items := items + [v];
      t := Parameter(|items|);
    }
  }
}
