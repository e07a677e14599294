/** Asset packs read back what was written, and a successful load satisfies its declarations. */
module AssetLaws {
  import opened Prelude
  import opened Sorting
  import opened AssetFrames
  import opened AssetPacks

  // ----- compiled packs -----

  /** An asset as admission makes them: declared, not empty, dimensions exactly on images. */
  predicate Admitted(declarations: seq<Declaration>, text: Bytes -> bool, a: Asset) {
    && Encodable(a) && 1 <= |a.bytes| <= MAX_ASSET_TOTAL_BYTES && text(a.declaration.name)
    && Declared(declarations, a.declaration.name) == Some(a.declaration)
    && (a.dimensions.Some? <==> a.declaration.image)
  }

  function Size(a: Asset): nat {
    14 + |a.declaration.name| + |a.bytes|
  }

  function SizeOf(assets: seq<Asset>): nat {
    if assets == [] then 0 else SizeOf(assets[..|assets| - 1]) + Size(assets[|assets| - 1])
  }

  function Dimensions(a: Asset): (nat, nat) {
    if a.dimensions.Some? then a.dimensions.value else (0, 0)
  }

  /** The asset's fields stand at this offset. */
  predicate EntryAt(data: Bytes, offset: nat, a: Asset) {
    var n := |a.declaration.name|;
    && Number(data, offset, 2) == Some(n) && Take(data, offset + 2, n) == Some(a.declaration.name)
    && Number(data, offset + 2 + n, 4) == Some(Dimensions(a).0) && Number(data, offset + 2 + n + 4, 4) == Some(Dimensions(a).1)
    && Number(data, offset + 2 + n + 8, 4) == Some(|a.bytes|) && Take(data, offset + 2 + n + 12, |a.bytes|) == Some(a.bytes)
  }

  predicate EntriesAt(data: Bytes, offset: nat, assets: seq<Asset>) {
    assets == [] ||
    var before := assets[..|assets| - 1];
    EntriesAt(data, offset, before) && EntryAt(data, offset + SizeOf(before), assets[|assets| - 1])
  }

  function Body(a: Asset): Bytes
    requires Encodable(a)
  {
    Le(Dimensions(a).0, 4) + (Le(Dimensions(a).1, 4) + (Le(|a.bytes|, 4) + a.bytes))
  }

  lemma Regroup(a: Bytes, b: Bytes, c: Bytes, d: Bytes, e: Bytes, f: Bytes)
    ensures a + b + c + d + e + f == a + (b + (c + (d + (e + f))))
  {
  }

  lemma EntryShape(a: Asset)
    requires Encodable(a)
    ensures CompiledEntry(a) == Le(|a.declaration.name|, 2) + (a.declaration.name + Body(a)) && |CompiledEntry(a)| == Size(a)
  {
    var (width, height) := Dimensions(a);
    Regroup(Le(|a.declaration.name|, 2), a.declaration.name, Le(width, 4), Le(height, 4), Le(|a.bytes|, 4), a.bytes);
  }

  lemma BodyPlaced(data: Bytes, at: nat, a: Asset)
    requires Encodable(a) && Holds(data, at, Body(a))
    ensures Number(data, at, 4) == Some(Dimensions(a).0) && Number(data, at + 4, 4) == Some(Dimensions(a).1)
    ensures Number(data, at + 8, 4) == Some(|a.bytes|) && Take(data, at + 12, |a.bytes|) == Some(a.bytes)
  {
    var (width, height) := Dimensions(a);
    HoldsParts(data, at, Le(width, 4), Le(height, 4) + (Le(|a.bytes|, 4) + a.bytes));
    HoldsParts(data, at + 4, Le(height, 4), Le(|a.bytes|, 4) + a.bytes);
    HoldsParts(data, at + 8, Le(|a.bytes|, 4), a.bytes);
    NumberReads(data, at, width, 4);
    NumberReads(data, at + 4, height, 4);
    NumberReads(data, at + 8, |a.bytes|, 4);
  }

  lemma EntryPlaced(data: Bytes, offset: nat, a: Asset)
    requires Encodable(a) && Holds(data, offset, CompiledEntry(a))
    ensures EntryAt(data, offset, a)
  {
    var name := a.declaration.name;
    EntryShape(a);
    HoldsParts(data, offset, Le(|name|, 2), name + Body(a));
    HoldsParts(data, offset + 2, name, Body(a));
    NumberReads(data, offset, |name|, 2);
    BodyPlaced(data, offset + 2 + |name|, a);
  }

  lemma EntriesSplit(data: Bytes, offset: nat, assets: seq<Asset>)
    requires assets != [] && (forall i :: 0 <= i < |assets| ==> Encodable(assets[i])) && Holds(data, offset, CompiledEntries(assets))
    ensures var before, last := assets[..|assets| - 1], assets[|assets| - 1];
            && Holds(data, offset, CompiledEntries(before))
            && EntryAt(data, offset + |CompiledEntries(before)|, last)
            && |CompiledEntries(assets)| == |CompiledEntries(before)| + Size(last)
  {
    var before, last := assets[..|assets| - 1], assets[|assets| - 1];
    HoldsParts(data, offset, CompiledEntries(before), CompiledEntry(last));
    EntryShape(last);
    EntryPlaced(data, offset + |CompiledEntries(before)|, last);
  }

  lemma {:induction false} EntriesPlaced(data: Bytes, offset: nat, assets: seq<Asset>)
    requires (forall i :: 0 <= i < |assets| ==> Encodable(assets[i])) && Holds(data, offset, CompiledEntries(assets))
    ensures EntriesAt(data, offset, assets) && |CompiledEntries(assets)| == SizeOf(assets)
    decreases |assets|
  {
    if assets != [] {
      EntriesSplit(data, offset, assets);
      EntriesPlaced(data, offset, assets[..|assets| - 1]);
    }
  }

  lemma EntryReads(declarations: seq<Declaration>, text: Bytes -> bool, a: Asset, data: Bytes, offset: nat)
    requires Admitted(declarations, text, a) && EntryAt(data, offset, a)
    ensures ReadEntry(declarations, text, data, offset) == Ok(Step(a, offset + Size(a)))
  {
  }

  predicate AllAdmitted(declarations: seq<Declaration>, text: Bytes -> bool, assets: seq<Asset>) {
    assets == [] ||
    (Admitted(declarations, text, assets[|assets| - 1]) && AllAdmitted(declarations, text, assets[..|assets| - 1]))
  }

  lemma {:induction false} EachAdmitted(declarations: seq<Declaration>, text: Bytes -> bool, assets: seq<Asset>)
    requires forall i :: 0 <= i < |assets| ==> Admitted(declarations, text, assets[i])
    ensures AllAdmitted(declarations, text, assets)
  {
    if assets != [] {
      EachAdmitted(declarations, text, assets[..|assets| - 1]);
    }
  }

  /** Reading from the offset gives these assets and ends right behind them. */
  predicate ReadsAll(read: Reader, assets: seq<Asset>, offset: nat) {
    ReadEntries(read, offset, |assets|) == Ok(Entries(assets, offset + SizeOf(assets)))
  }

  lemma ReadsOneMore(read: Reader, assets: seq<Asset>, offset: nat)
    requires assets != [] && ReadsAll(read, assets[..|assets| - 1], offset)
    requires var before, last := assets[..|assets| - 1], assets[|assets| - 1];
             read(offset + SizeOf(before)) == Ok(Step(last, offset + SizeOf(before) + Size(last)))
    ensures ReadsAll(read, assets, offset)
  {
    assert assets[..|assets| - 1] + [assets[|assets| - 1]] == assets;
  }

  lemma {:induction false} EntriesRead(read: Reader, declarations: seq<Declaration>, text: Bytes -> bool, assets: seq<Asset>, data: Bytes,
                                       offset: nat)
    requires ReadsWith(read, declarations, text, data)
    requires AllAdmitted(declarations, text, assets) && EntriesAt(data, offset, assets)
    ensures ReadsAll(read, assets, offset)
    decreases |assets|
  {
    if assets != [] {
      EntriesRead(read, declarations, text, assets[..|assets| - 1], data, offset);
      OneMoreReads(read, declarations, text, assets, data, offset);
    }
  }

  lemma OneMoreReads(read: Reader, declarations: seq<Declaration>, text: Bytes -> bool, assets: seq<Asset>, data: Bytes, offset: nat)
    requires ReadsWith(read, declarations, text, data) && assets != []
    requires var before, last := assets[..|assets| - 1], assets[|assets| - 1];
             && ReadsAll(read, before, offset) && Admitted(declarations, text, last)
             && EntryAt(data, offset + SizeOf(before), last)
    ensures ReadsAll(read, assets, offset)
  {
    var before, last := assets[..|assets| - 1], assets[|assets| - 1];
    EntryReads(declarations, text, last, data, offset + SizeOf(before));
    ReadsOneMore(read, assets, offset);
  }

  /** A bundle's assets in name order, all admitted against these declarations. */
  predicate Loadable(h: Host, declarations: seq<Declaration>, names: seq<Asset>) {
    && ValidDeclarations(h.validName, h.validDigest, declarations)
    && |names| == |declarations| && Bundles(names)
    && (forall i :: 0 <= i < |names| ==> Encodable(names[i]) && Admitted(declarations, h.text, names[i]))
  }

  /** Loading what a bundle was written as gives exactly its assets. */
  lemma CompiledReadsBack(h: Host, declarations: seq<Declaration>, names: seq<Asset>)
    requires Loadable(h, declarations, names)
    ensures |names| < Power(2) && Loaded(h, declarations, Compiled(names)) == Ok(names)
  {
    Widths();
    var data := Compiled(names);
    HoldsSelf(data);
    HoldsParts(data, 0, COMPILED_MAGIC + Le(|names|, 2), CompiledEntries(names));
    HoldsParts(data, 0, COMPILED_MAGIC, Le(|names|, 2));
    MagicLength();
    NumberReads(data, 8, |names|, 2);
    EachAdmitted(declarations, h.text, names);
    EntriesPlaced(data, 10, names);
    EntriesRead(ReaderOf(declarations, h.text, data), declarations, h.text, names, data, 10);
  }

  lemma MagicLength()
    ensures |COMPILED_MAGIC| == 8 && |PACK_MAGIC| == 8
  {
  }

  // ----- what a load guarantees -----

  /** `verify_declarations`: every declaration has its asset, and there are no others. */
  predicate Verified(names: seq<Asset>, declarations: seq<Declaration>) {
    && |declarations| == |names|
    && (forall i :: 0 <= i < |declarations| ==>
          exists k :: 0 <= k < |names| && names[k].declaration == declarations[i])
  }

  lemma {:induction false} EntriesDeclared(read: Reader, declarations: seq<Declaration>, offset: nat, count: nat)
    requires (forall o :: read(o).Ok? ==> read(o).value.asset.declaration in declarations) && ReadEntries(read, offset, count).Ok?
    ensures var assets := ReadEntries(read, offset, count).value.assets;
            forall i :: 0 <= i < |assets| ==> assets[i].declaration in declarations
  {
    if count > 0 {
      EntriesDeclared(read, declarations, offset, count - 1);
    }
  }

  function DeclarationsOf(assets: seq<Asset>): (r: seq<Declaration>)
    ensures |r| == |assets| && forall i :: 0 <= i < |r| ==> r[i] == assets[i].declaration
  {
    seq(|assets|, i requires 0 <= i < |assets| => assets[i].declaration)
  }

  /** As many assets as declarations, with distinct names and all declared: none is missing. */
  lemma LoadsSatisfyDeclarations(h: Host, declarations: seq<Declaration>, data: Bytes)
    requires Loaded(h, declarations, data).Ok?
    ensures Verified(BundleOf(h.path, Loaded(h, declarations, data).value).names, declarations)
  {
    var assets := Loaded(h, declarations, data).value;
    EntriesDeclared(ReaderOf(declarations, h.text, data), declarations, 10, |declarations|);
    var held := DeclarationsOf(assets);
    assert forall i, j :: 0 <= i < j < |held| ==> held[i] != held[j];
    SameElements(held, declarations);
    var names := Sort(NameKey(), assets);
    SortedNames(assets);
    forall i | 0 <= i < |declarations| ensures exists k :: 0 <= k < |names| && names[k].declaration == declarations[i] {
      assert declarations[i] in multiset(held);
      var j :| 0 <= j < |held| && held[j] == declarations[i];
      assert assets[j] in names;
    }
  }

  // ----- shared addresses -----

  ghost predicate Injective(path: Addressing) {
    forall a, b :: path(a) == path(b) ==> a == b
  }

  /** The asset that holds the URL of its bytes: no later one has the same. */
  predicate LastWith(assets: seq<Asset>, i: nat)
    requires i < |assets|
  {
    forall j :: i < j < |assets| ==> assets[j].bytes != assets[i].bytes
  }

  lemma {:induction false} PathsHold(path: Addressing, assets: seq<Asset>, i: nat)
    requires Injective(path) && i < |assets| && LastWith(assets, i)
    ensures path(assets[i].bytes) in PathsOf(path, assets)
    ensures PathsOf(path, assets)[path(assets[i].bytes)] == assets[i].declaration.name
    decreases |assets|
  {
    var n := |assets| - 1;
    if i < n {
      assert assets[n].bytes != assets[i].bytes;
      PathsHold(path, assets[..n], i);
    }
  }

  lemma {:induction false} PathsOnly(path: Addressing, assets: seq<Asset>, p: string) returns (i: nat)
    requires p in PathsOf(path, assets)
    ensures i < |assets| && LastWith(assets, i) && path(assets[i].bytes) == p
    decreases |assets|
  {
    var n := |assets| - 1;
    if path(assets[n].bytes) == p {
      i := n;
    } else {
      i := PathsOnly(path, assets[..n], p);
      LastStays(assets, i);
    }
  }

  lemma LastStays(assets: seq<Asset>, i: nat)
    requires i < |assets| - 1 && LastWith(assets[..|assets| - 1], i) && assets[|assets| - 1].bytes != assets[i].bytes
    ensures LastWith(assets, i)
  {
    forall j | i < j < |assets| ensures assets[j].bytes != assets[i].bytes {
      if j < |assets| - 1 {
        assert assets[..|assets| - 1][j].bytes != assets[..|assets| - 1][i].bytes;
      }
    }
  }

  predicate NameLe(a: Asset, b: Asset) {
    KeyLe([a.declaration.name], [b.declaration.name])
  }

  /** Of the assets sharing one URL, the last one given has the greatest name. */
  predicate GreatestLast(assets: seq<Asset>) {
    forall i, j :: 0 <= i < |assets| && 0 <= j < |assets| && LastWith(assets, i) && assets[j].bytes == assets[i].bytes ==>
      NameLe(assets[j], assets[i])
  }

  lemma SortedGreatestLast(assets: seq<Asset>)
    requires Sorted(NameKey(), assets)
    ensures GreatestLast(assets)
  {
    var key := NameKey();
    forall i, j | 0 <= i < |assets| && 0 <= j < |assets| && LastWith(assets, i) && assets[j].bytes == assets[i].bytes
      ensures NameLe(assets[j], assets[i])
    {
      if j == i {
        KeyLeRefl([assets[i].declaration.name]);
      } else {
        assert j < i;
        assert KeyLe(key(assets[j]), key(assets[i]));
      }
    }
  }

  /** The last asset with the same bytes. */
  lemma {:induction false} LastOne(assets: seq<Asset>, j: nat) returns (i: nat)
    requires j < |assets|
    ensures i < |assets| && LastWith(assets, i) && assets[i].bytes == assets[j].bytes
    decreases |assets| - j
  {
    if LastWith(assets, j) {
      i := j;
    } else {
      var k :| j < k < |assets| && assets[k].bytes == assets[j].bytes;
      i := LastOne(assets, k);
    }
  }

  /** The same assets in another order map each URL to the same name if both orders keep the
      greatest name last. */
  lemma SamePath(path: Addressing, a: seq<Asset>, b: seq<Asset>, p: string)
    requires Injective(path) && GreatestLast(a) && GreatestLast(b) && (forall x :: x in a <==> x in b)
    requires p in PathsOf(path, a)
    ensures p in PathsOf(path, b) && PathsOf(path, b)[p] == PathsOf(path, a)[p]
  {
    var i := PathsOnly(path, a, p);
    PathsHold(path, a, i);
    assert a[i] in b;
    var j :| 0 <= j < |b| && b[j] == a[i];
    var k := LastOne(b, j);
    PathsHold(path, b, k);
    assert b[k] in a;
    var l :| 0 <= l < |a| && a[l] == b[k];
    assert NameLe(a[l], a[i]) && NameLe(b[j], b[k]);
    KeyLeAntisym([a[i].declaration.name], [b[k].declaration.name]);
    assert [a[i].declaration.name][0] == [b[k].declaration.name][0];
  }

  /** The URLs survive reordering exactly when the greatest name was last already. */
  lemma PathsSurviveSorting(path: Addressing, assets: seq<Asset>)
    requires Injective(path)
    ensures PathsOf(path, Sort(NameKey(), assets)) == PathsOf(path, assets) <==> GreatestLast(assets)
  {
    var sorted := Sort(NameKey(), assets);
    SortedNames(assets);
    SortSorted(NameKey(), assets);
    SortedGreatestLast(sorted);
    if GreatestLast(assets) {
      forall p | p in PathsOf(path, assets) ensures p in PathsOf(path, sorted) && PathsOf(path, sorted)[p] == PathsOf(path, assets)[p] {
        SamePath(path, assets, sorted, p);
      }
      forall p | p in PathsOf(path, sorted) ensures p in PathsOf(path, assets) {
        SamePath(path, sorted, assets, p);
      }
    }
    if PathsOf(path, sorted) == PathsOf(path, assets) {
      forall i, j | 0 <= i < |assets| && 0 <= j < |assets| && LastWith(assets, i) && assets[j].bytes == assets[i].bytes
        ensures NameLe(assets[j], assets[i])
      {
        PathsHold(path, assets, i);
        assert assets[j] in sorted;
        var m :| 0 <= m < |sorted| && sorted[m] == assets[j];
        var k := LastOne(sorted, m);
        PathsHold(path, sorted, k);
        assert NameLe(sorted[m], sorted[k]);
      }
    }
  }

  /** Writing a bundle and loading it again always gives its assets back; its URLs too exactly
      when, among assets with identical bytes, the last one it was built from has the greatest
      name, as in any list given in name order. */
  lemma BundleReloads(h: Host, declarations: seq<Declaration>, assets: seq<Asset>)
    requires Injective(h.path) && Loadable(h, declarations, Sort(NameKey(), assets)) && DistinctNames(assets)
    ensures var bundle := BundleOf(h.path, assets);
            && |bundle.names| < Power(2)
            && Loaded(h, declarations, Compiled(bundle.names)) == Ok(bundle.names)
            && BundleOf(h.path, bundle.names).names == bundle.names
            && (BundleOf(h.path, bundle.names) == bundle <==> GreatestLast(assets))
  {
    var names := Sort(NameKey(), assets);
    CompiledReadsBack(h, declarations, names);
    NamesTell(assets);
    SortForgetsOrder(NameKey(), assets, names);
    PathsSurviveSorting(h.path, assets);
  }

  /** Two declarations with the same bytes, given in reverse name order: the URL moves from the
      first name to the second. */
  lemma TwinsSwap(a: Declaration, b: Declaration, bytes: Bytes)
    requires a.name != b.name && TextLe(a.name, b.name)
    ensures !GreatestLast([Asset(b, bytes, None), Asset(a, bytes, None)])
  {
    var assets := [Asset(b, bytes, None), Asset(a, bytes, None)];
    assert LastWith(assets, 1) && assets[0].bytes == assets[1].bytes;
    if NameLe(assets[0], assets[1]) {
      TextLeAntisym(a.name, b.name);
    }
  }
}
