/** Asset packs: the compiled form the server loads and the executor's transport form
    (crates/noxide-assets/src/lib.rs, tools/build_assets.py, crates/noxide-asset-admission/src/lib.rs). */
module AssetPacks {
  import opened Prelude
  import opened Sorting
  import opened AssetFrames

  const MAX_ASSETS: nat := 128
  const MAX_ASSET_NAME_BYTES: nat := 96
  const MAX_ASSET_BYTES: nat := 4 * 1024 * 1024
  const MAX_ASSET_TOTAL_BYTES: nat := 16 * 1024 * 1024
  const MAX_ASSET_PACK_BYTES: nat := MAX_ASSET_TOTAL_BYTES + MAX_ASSETS * (6 + MAX_ASSET_NAME_BYTES) + 10
  const COMPILED_MAGIC: Bytes := "NXCP\U{01}\0\0\0"
  const PACK_MAGIC: Bytes := "NXAS\U{01}\0\0\0"

  datatype Declaration = Declaration(name: string, digest: string, image: bool)

  datatype Asset = Asset(declaration: Declaration, bytes: Bytes, dimensions: Option<(nat, nat)>)

  /** `names` is the ordered map of assets by name; `paths` names the asset served at a URL. */
  datatype Bundle = Bundle(names: seq<Asset>, paths: map<string, string>)

  function NameKey(): Asset -> Key {
    (a: Asset) => [a.declaration.name]
  }

  // ----- building a bundle -----

  predicate DistinctNames(assets: seq<Asset>) {
    forall i, j :: 0 <= i < j < |assets| ==> assets[i].declaration.name != assets[j].declaration.name
  }

  function TotalBytes(assets: seq<Asset>): nat {
    if assets == [] then 0 else TotalBytes(assets[..|assets| - 1]) + |assets[|assets| - 1].bytes|
  }

  /** The URL of some bytes: their digest, which differs for different bytes. */
  type Addressing = Bytes -> string

  /** A later asset with the same bytes takes over the URL. */
  function PathsOf(path: Addressing, assets: seq<Asset>): map<string, string> {
    if assets == [] then map[]
    else
      var last := assets[|assets| - 1];
      PathsOf(path, assets[..|assets| - 1])[path(last.bytes) := last.declaration.name]
  }

  predicate Bundles(assets: seq<Asset>) {
    |assets| <= MAX_ASSETS && TotalBytes(assets) <= MAX_ASSET_TOTAL_BYTES && DistinctNames(assets)
  }

  function BundleOf(path: Addressing, assets: seq<Asset>): Bundle {
    Bundle(Sort(NameKey(), assets), PathsOf(path, assets))
  }

  function Named(assets: seq<Asset>, name: string): (r: Option<nat>)
    ensures r.Some? ==> r.value < |assets| && assets[r.value].declaration.name == name
    ensures r.None? ==> forall i :: 0 <= i < |assets| ==> assets[i].declaration.name != name
  {
    if assets == [] then None
    else if assets[0].declaration.name == name then Some(0)
    else
      var rest := Named(assets[1..], name);
      if rest.None? then None else Some(rest.value + 1)
  }

  /** `from_assets`. */
  method FromAssets(path: Addressing, assets: seq<Asset>) returns (r: Result<Bundle>)
    ensures r == if Bundles(assets) then Ok(BundleOf(path, assets)) else Err
  {
    if |assets| > MAX_ASSETS {
      return Err;
    }
    var names: seq<Asset> := [];
    var paths: map<string, string> := map[];
    var total: nat := 0;
    assert assets[..0] == [];
    for i := 0 to |assets|
      invariant Built(path, assets[..i], names, paths, total) && total <= MAX_ASSET_TOTAL_BYTES
    {
      var asset := assets[i];
      NextAsset(path, assets, i);
      total := total + |asset.bytes|;
      if total > MAX_ASSET_TOTAL_BYTES {
        return Err;
      }
      ghost var before, seen := total - |asset.bytes|, paths;
      paths := paths[path(asset.bytes) := asset.declaration.name];
      var at := Named(names, asset.declaration.name);
      if at.Some? {
        Repeated(assets, i, at.value);
        return Err;
      }
      BuiltNext(path, assets, i, names, seen, before);
      names := Insert(NameKey(), asset, names);
    }
    assert assets[..|assets|] == assets;
    r := Ok(Bundle(names, paths));
  }

  /** The bundle of the assets seen so far. */
  ghost predicate Built(path: Addressing, seen: seq<Asset>, names: seq<Asset>, paths: map<string, string>, total: nat) {
    total == TotalBytes(seen) && paths == PathsOf(path, seen) && DistinctNames(seen) && names == Sort(NameKey(), seen)
  }

  lemma BuiltNext(path: Addressing, assets: seq<Asset>, i: nat, names: seq<Asset>, paths: map<string, string>, total: nat)
    requires i < |assets| && Built(path, assets[..i], names, paths, total)
    requires Named(names, assets[i].declaration.name).None?
    ensures var a := assets[i];
            Built(path, assets[..i + 1], Insert(NameKey(), a, names), paths[path(a.bytes) := a.declaration.name], total + |a.bytes|)
  {
    NextAsset(path, assets, i);
    assert assets[..i + 1] == assets[..i] + [assets[i]];
    Unrepeated(assets[..i], assets[i], assets[..i + 1]);
  }

  lemma NextAsset(path: Addressing, assets: seq<Asset>, i: nat)
    requires i < |assets|
    ensures TotalBytes(assets[..i + 1]) == TotalBytes(assets[..i]) + |assets[i].bytes| <= TotalBytes(assets)
    ensures PathsOf(path, assets[..i + 1]) == PathsOf(path, assets[..i])[path(assets[i].bytes) := assets[i].declaration.name]
  {
    assert assets[..i + 1][..i] == assets[..i];
    TotalGrows(assets, i + 1);
  }

  lemma Repeated(assets: seq<Asset>, i: nat, k: nat)
    requires i < |assets| && k < |Sort(NameKey(), assets[..i])|
    requires Sort(NameKey(), assets[..i])[k].declaration.name == assets[i].declaration.name
    ensures !DistinctNames(assets)
  {
    SortedNames(assets[..i]);
    var same := Sort(NameKey(), assets[..i])[k];
    assert same in assets[..i];
    var j :| 0 <= j < i && assets[..i][j] == same;
    assert assets[j].declaration.name == assets[i].declaration.name;
  }

  lemma Unrepeated(seen: seq<Asset>, asset: Asset, all: seq<Asset>)
    requires DistinctNames(seen) && all == seen + [asset]
    requires Named(Sort(NameKey(), seen), asset.declaration.name).None?
    ensures DistinctNames(all) && Insert(NameKey(), asset, Sort(NameKey(), seen)) == Sort(NameKey(), all)
  {
    SortedNames(seen);
    var sorted := Sort(NameKey(), seen);
    forall a | a in seen ensures a.declaration.name != asset.declaration.name {
      assert a in sorted;
    }
    SortInserts(seen, asset);
  }

  lemma {:induction false} TotalGrows(assets: seq<Asset>, i: nat)
    requires i <= |assets|
    ensures TotalBytes(assets[..i]) <= TotalBytes(assets)
    decreases |assets|
  {
    if i < |assets| {
      var shorter := assets[..|assets| - 1];
      assert shorter[..i] == assets[..i];
      TotalGrows(shorter, i);
    } else {
      assert assets[..i] == assets;
    }
  }

  /** Sorting keeps exactly the assets. */
  lemma SortedNames(assets: seq<Asset>)
    ensures forall a :: a in Sort(NameKey(), assets) <==> a in assets
  {
    var s := Sort(NameKey(), assets);
    assert forall a :: a in s <==> a in multiset(s);
    assert forall a :: a in assets <==> a in multiset(assets);
  }

  lemma NamesTell(assets: seq<Asset>)
    requires DistinctNames(assets)
    ensures Tells(NameKey(), assets)
  {
    var key := NameKey();
    forall x, y | x in assets && y in assets && key(x) == key(y) ensures x == y {
      assert key(x)[0] == x.declaration.name && key(y)[0] == y.declaration.name;
      var i :| 0 <= i < |assets| && assets[i] == x;
      var j :| 0 <= j < |assets| && assets[j] == y;
      assert i == j;
    }
  }

  /** Inserting one more into the sorted list is sorting the longer one. */
  lemma SortInserts(seen: seq<Asset>, asset: Asset)
    requires DistinctNames(seen) && forall a :: a in seen ==> a.declaration.name != asset.declaration.name
    ensures DistinctNames(seen + [asset])
    ensures Insert(NameKey(), asset, Sort(NameKey(), seen)) == Sort(NameKey(), seen + [asset])
  {
    var all := seen + [asset];
    assert DistinctNames(all) by {
      forall i | 0 <= i < |seen| ensures seen[i].declaration.name != asset.declaration.name {
        assert seen[i] in seen;
      }
    }
    var key := NameKey();
    var inserted := Insert(key, asset, Sort(key, seen));
    SortSorted(key, seen);
    InsertSorted(key, asset, Sort(key, seen));
    SortSorted(key, all);
    assert multiset(all) == multiset(seen) + multiset{asset};
    NamesTell(all);
    forall x | x in inserted ensures x in all {
      assert x in multiset(inserted);
    }
    SortedUnique(key, inserted, Sort(key, all));
  }

  // ----- the compiled form -----

  function CompiledEntry(a: Asset): Bytes
    requires Encodable(a)
  {
    var (width, height) := if a.dimensions.Some? then a.dimensions.value else (0, 0);
    Le(|a.declaration.name|, 2) + a.declaration.name + Le(width, 4) + Le(height, 4) + Le(|a.bytes|, 4) + a.bytes
  }

  /** Lengths and dimensions fit their fields. */
  predicate Encodable(a: Asset) {
    && |a.declaration.name| < Power(2) && |a.bytes| < Power(4)
    && (a.dimensions.Some? ==> a.dimensions.value.0 < Power(4) && a.dimensions.value.1 < Power(4))
  }

  function CompiledEntries(assets: seq<Asset>): Bytes
    requires forall i :: 0 <= i < |assets| ==> Encodable(assets[i])
  {
    if assets == [] then "" else CompiledEntries(assets[..|assets| - 1]) + CompiledEntry(assets[|assets| - 1])
  }

  function Compiled(assets: seq<Asset>): Bytes
    requires |assets| < Power(2) && forall i :: 0 <= i < |assets| ==> Encodable(assets[i])
  {
    COMPILED_MAGIC + Le(|assets|, 2) + CompiledEntries(assets)
  }

  lemma Appended(s: Bytes, a: Bytes, b: Bytes, c: Bytes, d: Bytes, e: Bytes, f: Bytes)
    ensures s + a + b + c + d + e + f == s + (a + b + c + d + e + f)
  {
  }

  /** `to_compiled`; dimensions are 32-bit. */
  method ToCompiled(bundle: Bundle) returns (r: Result<Bytes>)
    requires forall i :: 0 <= i < |bundle.names| && bundle.names[i].dimensions.Some? ==>
      bundle.names[i].dimensions.value.0 < Power(4) && bundle.names[i].dimensions.value.1 < Power(4)
    ensures r.Ok? <==> |bundle.names| < Power(2) && forall i :: 0 <= i < |bundle.names| ==> Encodable(bundle.names[i])
    ensures r.Ok? ==> r.value == Compiled(bundle.names)
  {
    var names := bundle.names;
    if |names| >= Power(2) {
      return Err;
    }
    var out := COMPILED_MAGIC + Le(|names|, 2);
    ghost var head := out;
    for i := 0 to |names|
      invariant forall j :: 0 <= j < i ==> Encodable(names[j])
      invariant out == head + CompiledEntries(names[..i])
    {
      var a := names[i];
      if |a.declaration.name| >= Power(2) || |a.bytes| >= Power(4) {
        return Err;
      }
      NextEntry(head, names, i);
      out := WriteEntry(out, a);
    }
    assert names[..|names|] == names;
    r := Ok(out);
  }

  lemma NextEntry(head: Bytes, names: seq<Asset>, i: nat)
    requires i < |names| && forall j :: 0 <= j <= i ==> Encodable(names[j])
    ensures head + CompiledEntries(names[..i + 1]) == (head + CompiledEntries(names[..i])) + CompiledEntry(names[i])
  {
    assert names[..i + 1][..i] == names[..i];
  }

  /** The body of the loop: one field after another. */
  method WriteEntry(before: Bytes, a: Asset) returns (out: Bytes)
    requires Encodable(a)
    ensures out == before + CompiledEntry(a)
  {
    var (width, height) := if a.dimensions.Some? then a.dimensions.value else (0, 0);
    out := before + Le(|a.declaration.name|, 2);
    out := out + a.declaration.name;
    out := out + Le(width, 4);
    out := out + Le(height, 4);
    out := out + Le(|a.bytes|, 4);
    out := out + a.bytes;
    Appended(before, Le(|a.declaration.name|, 2), a.declaration.name, Le(width, 4), Le(height, 4), Le(|a.bytes|, 4), a.bytes);
  }

  // ----- loading -----

  function Declared(declarations: seq<Declaration>, name: string): (r: Option<Declaration>)
    ensures r.Some? ==> r.value in declarations && r.value.name == name
    ensures r.None? ==> forall i :: 0 <= i < |declarations| ==> declarations[i].name != name
  {
    if declarations == [] then None
    else if declarations[0].name == name then Some(declarations[0])
    else Declared(declarations[1..], name)
  }

  datatype Step = Step(asset: Asset, next: nat)

  /** Dimensions, size and bytes of an entry. */
  function ReadBody(d: Declaration, data: Bytes, at: nat): Result<Step> {
    var width, height, size := Number(data, at, 4), Number(data, at + 4, 4), Number(data, at + 8, 4);
    if width.None? || height.None? || size.None? || !(1 <= size.value <= MAX_ASSET_TOTAL_BYTES) then Err
    else
      var bytes := Take(data, at + 12, size.value);
      if bytes.None? then Err
      else Ok(Step(Asset(d, bytes.value, if d.image then Some((width.value, height.value)) else None), at + 12 + size.value))
  }

  /** One entry of a compiled pack. `text` is the UTF-8 check on names. */
  function ReadEntry(declarations: seq<Declaration>, text: Bytes -> bool, data: Bytes, offset: nat): Result<Step> {
    var length := Number(data, offset, 2);
    if length.None? then Err
    else
      var name := Take(data, offset + 2, length.value);
      if name.None? || !text(name.value) then Err
      else
        var d := Declared(declarations, name.value);
        if d.None? then Err else ReadBody(d.value, data, offset + 2 + length.value)
  }

  datatype Entries = Entries(assets: seq<Asset>, next: nat)

  /** Reads the entry at an offset. */
  type Reader = nat -> Result<Step>

  function ReadEntries(read: Reader, offset: nat, count: nat): (r: Result<Entries>)
    ensures r.Ok? ==> |r.value.assets| == count
  {
    if count == 0 then Ok(Entries([], offset))
    else
      var before :- ReadEntries(read, offset, count - 1);
      var step :- read(before.next);
      Ok(Entries(before.assets + [step.asset], step.next))
  }

  function ReaderOf(declarations: seq<Declaration>, text: Bytes -> bool, data: Bytes): Reader {
    (offset: nat) => ReadEntry(declarations, text, data, offset)
  }

  ghost predicate ReadsWith(read: Reader, declarations: seq<Declaration>, text: Bytes -> bool, data: Bytes) {
    forall offset {:trigger ReadEntry(declarations, text, data, offset)} :: read(offset) == ReadEntry(declarations, text, data, offset)
  }

  predicate ValidDeclarations(validName: string -> bool, validDigest: string -> bool, declarations: seq<Declaration>) {
    && |declarations| <= MAX_ASSETS
    && (forall i :: 0 <= i < |declarations| ==> validName(declarations[i].name) && validDigest(declarations[i].digest))
    && (forall i, j :: 0 <= i < j < |declarations| ==>
          declarations[i].name != declarations[j].name && declarations[i].digest != declarations[j].digest)
  }

  /** What the host fixes: the grammars of names, digests and text, and the URL of some bytes. */
  datatype Host = Host(validName: string -> bool, validDigest: string -> bool, text: Bytes -> bool, path: Addressing)

  /** The pack a load accepts, and the assets in it. */
  function Loaded(h: Host, declarations: seq<Declaration>, data: Bytes): Result<seq<Asset>> {
    if !ValidDeclarations(h.validName, h.validDigest, declarations) then Err
    else if !Holds(data, 0, COMPILED_MAGIC) || Number(data, 8, 2) != Some(|declarations|) then Err
    else
      var r :- ReadEntries(ReaderOf(declarations, h.text, data), 10, |declarations|);
      if r.next != |data| || !Bundles(r.assets) then Err else Ok(r.assets)
  }

  /** `from_compiled`, once the digest is approved. */
  method FromCompiled(h: Host, declarations: seq<Declaration>, data: Bytes) returns (r: Result<Bundle>)
    ensures r == match Loaded(h, declarations, data)
                 case Err => Err
                 case Ok(assets) => Ok(BundleOf(h.path, assets))
  {
    if !ValidDeclarations(h.validName, h.validDigest, declarations) || Take(data, 0, |COMPILED_MAGIC|) != Some(COMPILED_MAGIC) {
      return Err;
    }
    var count := Number(data, |COMPILED_MAGIC|, 2);
    if count != Some(|declarations|) {
      return Err;
    }
    var found := ReadAll(ReaderOf(declarations, h.text, data), declarations, h.text, data);
    if found.Err? || found.value.next != |data| {
      return Err;
    }
    r := FromAssets(h.path, found.value.assets);
  }

  /** The loop of `from_compiled`. */
  method ReadAll(ghost read: Reader, declarations: seq<Declaration>, text: Bytes -> bool, data: Bytes) returns (r: Result<Entries>)
    requires ReadsWith(read, declarations, text, data)
    ensures r == ReadEntries(read, 10, |declarations|)
  {
    var assets: seq<Asset> := [];
    var offset: nat := 10;
    for i := 0 to |declarations|
      invariant ReadEntries(read, 10, i) == Ok(Entries(assets, offset))
    {
      var step := ReadEntry(declarations, text, data, offset);
      if step.Err? {
        EntriesFail(read, 10, i + 1, |declarations|);
        return Err;
      }
      assets := assets + [step.value.asset];
      offset := step.value.next;
    }
    r := Ok(Entries(assets, offset));
  }

  lemma {:induction false} EntriesFail(read: Reader, offset: nat, i: nat, n: nat)
    requires i <= n && ReadEntries(read, offset, i).Err?
    ensures ReadEntries(read, offset, n).Err?
  {
    if i < n {
      EntriesFail(read, offset, i, n - 1);
    }
  }
}
