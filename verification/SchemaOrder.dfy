/** The verdict on a migration ignores declaration order, identifiers and presentation. */
module SchemaOrder {
  import opened Prelude
  import opened Sorting
  import opened Schema
  import opened SchemaLaws

  function KeysOf(variants: seq<Variant>): (r: seq<string>)
    ensures |r| == |variants| && forall i :: 0 <= i < |r| ==> r[i] == variants[i].key
  {
    seq(|variants|, i requires 0 <= i < |variants| => variants[i].key)
  }

  predicate RearrangedKind(a: Kind, b: Kind) {
    a == b || (a.ChoiceKind? && b.ChoiceKind? && multiset(KeysOf(a.variants)) == multiset(KeysOf(b.variants)))
  }

  /** The same field, but for captions, initial values and the order of its choices. */
  predicate RearrangedField(f: Field, g: Field) {
    && f.name == g.name && f.optional == g.optional && f.immutable == g.immutable && f.maxBytes == g.maxBytes
    && RearrangedKind(f.kind, g.kind)
  }

  /** The same resource, but for its identifier and the order of its fields and unique tuples. */
  predicate RearrangedResource(r: Resource, s: Resource) {
    && r.name == s.name && r.search == s.search && r.expiry == s.expiry && r.gate == s.gate
    && multiset(r.unique) == multiset(s.unique)
    && DistinctFields(r.fields) && |r.fields| == |s.fields|
    && (forall i :: 0 <= i < |r.fields| ==> exists j :: 0 <= j < |s.fields| && RearrangedField(r.fields[i], s.fields[j]))
  }

  predicate HasCounterpart(r: Resource, s: Schema) {
    exists j :: 0 <= j < |s| && RearrangedResource(r, s[j])
  }

  predicate Rearranged(a: Schema, b: Schema) {
    && DistinctResources(a) && |a| == |b|
    && (forall i :: 0 <= i < |a| ==> HasCounterpart(a[i], b))
  }

  lemma HeadCount<T>(s: seq<T>, x: T)
    requires s != []
    ensures multiset(s)[x] == (if s[0] == x then 1 else 0) + multiset(s[1..])[x]
  {
    assert s == [s[0]] + s[1..];
  }

  lemma {:induction false} PlainCount(variants: seq<Variant>, x: Variant)
    ensures multiset(Plain(variants))[x] == if x.key == x.caption then multiset(KeysOf(variants))[x.key] else 0
    decreases |variants|
  {
    var p, k := Plain(variants), KeysOf(variants);
    if variants != [] {
      var rest := variants[1..];
      PlainCount(rest, x);
      assert p[1..] == Plain(rest) && k[1..] == KeysOf(rest);
      HeadCount(p, x);
      HeadCount(k, x.key);
    }
  }

  lemma VariantsAgree(a: seq<Variant>, b: seq<Variant>)
    requires multiset(KeysOf(a)) == multiset(KeysOf(b))
    ensures Sort(VariantKey(), Plain(a)) == Sort(VariantKey(), Plain(b))
  {
    forall x ensures multiset(Plain(a))[x] == multiset(Plain(b))[x] {
      PlainCount(a, x);
      PlainCount(b, x);
    }
    assert multiset(Plain(a)) == multiset(Plain(b));
    var key := VariantKey();
    forall x, y | x in Plain(a) && y in Plain(a) && key(x) == key(y) ensures x == y {
      assert key(x)[0] == x.key && key(y)[0] == y.key;
    }
    SortForgetsOrder(key, Plain(a), Plain(b));
  }

  lemma FieldsAgree(f: Field, g: Field)
    requires RearrangedField(f, g)
    ensures NormalField(f) == NormalField(g)
  {
    if f.kind != g.kind {
      VariantsAgree(f.kind.variants, g.kind.variants);
    }
  }

  lemma UniqueAgree(a: seq<Unique>, b: seq<Unique>)
    requires multiset(a) == multiset(b)
    ensures Sort(UniqueKey(), a) == Sort(UniqueKey(), b)
  {
    var key := UniqueKey();
    forall x, y | x in a && y in a && key(x) == key(y) ensures x == y {
      assert key(x)[0] == x.reference && key(x)[1] == x.account && key(y)[0] == y.reference && key(y)[1] == y.account;
    }
    SortForgetsOrder(key, a, b);
  }

  lemma NamesTell(fields: seq<Field>)
    requires DistinctFields(fields)
    ensures Tells(FieldKey(), fields)
  {
    var key := FieldKey();
    forall x, y | x in fields && y in fields && key(x) == key(y) ensures x == y {
      assert key(x)[0] == x.name && key(y)[0] == y.name;
      var i :| 0 <= i < |fields| && fields[i] == x;
      var j :| 0 <= j < |fields| && fields[j] == y;
      assert i == j;
    }
  }

  lemma ResourcesAgree(r: Resource, s: Resource)
    requires RearrangedResource(r, s)
    ensures NormalResource(r) == NormalResource(s)
  {
    var a, b := NormalFields(r.fields), NormalFields(s.fields);
    forall x | x in a ensures x in b {
      var i :| 0 <= i < |a| && a[i] == x;
      var j :| 0 <= j < |s.fields| && RearrangedField(r.fields[i], s.fields[j]);
      FieldsAgree(r.fields[i], s.fields[j]);
      assert b[j] == x;
    }
    assert forall i :: 0 <= i < |a| ==> a[i].name == r.fields[i].name;
    assert DistinctFields(a);
    SameElements(a, b);
    NamesTell(a);
    SortForgetsOrder(FieldKey(), a, b);
    UniqueAgree(r.unique, s.unique);
  }

  lemma ResourceNamesTell(s: Schema)
    requires DistinctResources(s)
    ensures Tells(ResourceKey(), s)
  {
    var key := ResourceKey();
    forall x, y | x in s && y in s && key(x) == key(y) ensures x == y {
      assert key(x)[0] == x.name && key(y)[0] == y.name;
      var i :| 0 <= i < |s| && s[i] == x;
      var j :| 0 <= j < |s| && s[j] == y;
      assert i == j;
    }
  }

  lemma NormalForgetsOrder(a: Schema, b: Schema)
    requires Rearranged(a, b)
    ensures Normalized(a) == Normalized(b)
  {
    var x, y := NormalResources(a), NormalResources(b);
    forall r | r in x ensures r in y {
      var i :| 0 <= i < |x| && x[i] == r;
      assert HasCounterpart(a[i], b);
      var j :| 0 <= j < |b| && RearrangedResource(a[i], b[j]);
      ResourcesAgree(a[i], b[j]);
      assert y[j] == r;
    }
    assert forall i :: 0 <= i < |x| ==> x[i].name == a[i].name;
    assert DistinctResources(x);
    SameElements(x, y);
    ResourceNamesTell(x);
    SortForgetsOrder(ResourceKey(), x, y);
  }

  /** Declaring the same schemas in another order, with other identifiers and other captions, gets
      the same verdict. */
  lemma OrderIsIgnored(source: Schema, source': Schema, target: Schema, target': Schema, ops: seq<Op>, canonical: Canonical)
    requires Rearranged(source, source') && Rearranged(target, target')
    ensures Accepts(source, target, ops, canonical) <==> Accepts(source', target', ops, canonical)
  {
    NormalForgetsOrder(source, source');
    NormalForgetsOrder(target, target');
  }
}
