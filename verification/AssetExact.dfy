/** Exactly which bytes are packs: the readers accept the written forms and nothing else. */
module AssetExact {
  import opened Prelude
  import opened Sorting
  import opened AssetFrames
  import opened AssetPacks
  import AssetLaws
  import AssetTransport

  // ----- bytes -----

  /** A character that stands for a byte. */
  predicate AreBytes(s: Bytes) {
    forall i :: 0 <= i < |s| ==> s[i] as int < 256
  }

  lemma {:induction false} LeOfUnle(s: Bytes)
    requires AreBytes(s)
    ensures Unle(s) < Power(|s|) && Le(Unle(s), |s|) == s
  {
    if s != "" {
      LeOfUnle(s[1..]);
      assert Unle(s) % 256 == s[0] as int && Unle(s) / 256 == Unle(s[1..]);
      assert s == [s[0]] + s[1..];
    }
  }

  /** A number read is a number written. */
  lemma NumberHolds(data: Bytes, offset: nat, k: nat)
    requires AreBytes(data) && Number(data, offset, k).Some?
    ensures var n := Number(data, offset, k).value; n < Power(k) && Holds(data, offset, Le(n, k))
  {
    LeOfUnle(data[offset..offset + k]);
  }

  lemma HoldsAll(data: Bytes, whole: Bytes)
    requires Holds(data, 0, whole) && |whole| == |data|
    ensures data == whole
  {
    assert data[0..|data|] == data;
  }

  // ----- declarations -----

  function NamesOf(declarations: seq<Declaration>): set<string> {
    set d | d in declarations :: d.name
  }

  function DigestsOf(declarations: seq<Declaration>): set<string> {
    set d | d in declarations :: d.digest
  }

  /** At most 128 declarations, none sharing a name or a digest with another, all of them valid. */
  predicate SoundDeclarations(h: Host, declarations: seq<Declaration>) {
    && |declarations| <= 128
    && (forall d :: d in declarations ==> h.validName(d.name) && h.validDigest(d.digest))
    && |NamesOf(declarations)| == |declarations| && |DigestsOf(declarations)| == |declarations|
  }

  lemma {:induction false} DistinctCount(s: seq<string>)
    ensures |set x | x in s| <= |s|
    ensures |set x | x in s| == |s| <==> forall i, j :: 0 <= i < j < |s| ==> s[i] != s[j]
  {
    if s != [] {
      var n := |s| - 1;
      var before, all := set x | x in s[..n], set x | x in s;
      DistinctCount(s[..n]);
      assert all == before + {s[n]};
      if s[n] in before {
        assert all == before;
        var i :| 0 <= i < n && s[i] == s[n];
      } else {
        assert forall i :: 0 <= i < n ==> s[i] == s[..n][i] && s[i] in before;
      }
    }
  }

  function NameList(declarations: seq<Declaration>): (r: seq<string>)
    ensures |r| == |declarations| && forall i :: 0 <= i < |r| ==> r[i] == declarations[i].name
  {
    seq(|declarations|, i requires 0 <= i < |declarations| => declarations[i].name)
  }

  function DigestList(declarations: seq<Declaration>): (r: seq<string>)
    ensures |r| == |declarations| && forall i :: 0 <= i < |r| ==> r[i] == declarations[i].digest
  {
    seq(|declarations|, i requires 0 <= i < |declarations| => declarations[i].digest)
  }

  lemma ListsAreSets(declarations: seq<Declaration>)
    ensures NamesOf(declarations) == set x | x in NameList(declarations)
    ensures DigestsOf(declarations) == set x | x in DigestList(declarations)
  {
    forall i | 0 <= i < |declarations|
      ensures declarations[i].name in NameList(declarations) && declarations[i].digest in DigestList(declarations)
    {
      assert NameList(declarations)[i] == declarations[i].name && DigestList(declarations)[i] == declarations[i].digest;
    }
    assert forall d :: d in declarations ==> d.name in NameList(declarations) && d.digest in DigestList(declarations);
  }

  lemma DeclarationsAreSound(h: Host, declarations: seq<Declaration>)
    ensures ValidDeclarations(h.validName, h.validDigest, declarations) <==> SoundDeclarations(h, declarations)
  {
    var names, digests := NameList(declarations), DigestList(declarations);
    ListsAreSets(declarations);
    DistinctCount(names);
    DistinctCount(digests);
    assert (forall i, j :: 0 <= i < j < |names| ==> names[i] != names[j] && digests[i] != digests[j])
      <==> (forall i, j :: 0 <= i < j < |declarations| ==>
              declarations[i].name != declarations[j].name && declarations[i].digest != declarations[j].digest);
    assert (forall d :: d in declarations ==> h.validName(d.name) && h.validDigest(d.digest))
      <==> (forall i :: 0 <= i < |declarations| ==> h.validName(declarations[i].name) && h.validDigest(declarations[i].digest));
  }

  // ----- transport packs -----

  lemma InputExact(h: Host, declarations: seq<Declaration>, data: Bytes, offset: nat, previous: Option<string>)
    requires AreBytes(data) && AssetTransport.ReadInput(h, declarations, data, offset, previous).Ok?
    ensures var step := AssetTransport.ReadInput(h, declarations, data, offset, previous).value;
            && AssetTransport.Sent(h, declarations, step.input) && AssetTransport.Before(previous, step.input.name)
            && AssetTransport.Fits(step.input) && Holds(data, offset, AssetTransport.PackEntry(step.input))
            && step.next == offset + |AssetTransport.PackEntry(step.input)|
  {
    var i := AssetTransport.ReadInput(h, declarations, data, offset, previous).value.input;
    NumberHolds(data, offset, 2);
    NumberHolds(data, offset + 2, 4);
    var a, b := Le(|i.name|, 2), Le(|i.data|, 4);
    HoldsParts(data, offset + 6, i.name, i.data);
    HoldsParts(data, offset + 2, b, i.name + i.data);
    HoldsParts(data, offset, a, b + (i.name + i.data));
    assert AssetTransport.PackEntry(i) == a + (b + (i.name + i.data));
  }

  predicate AllFit(inputs: seq<AssetTransport.Input>) {
    forall k :: 0 <= k < |inputs| ==> AssetTransport.Fits(inputs[k])
  }

  predicate InputsHeld(data: Bytes, offset: nat, inputs: seq<AssetTransport.Input>, next: nat) {
    AllFit(inputs) && Holds(data, offset, AssetTransport.PackEntries(inputs)) && next == offset + |AssetTransport.PackEntries(inputs)|
  }

  lemma OneMoreHeld(data: Bytes, offset: nat, before: seq<AssetTransport.Input>, at: nat, last: AssetTransport.Input)
    requires InputsHeld(data, offset, before, at) && AssetTransport.Fits(last) && Holds(data, at, AssetTransport.PackEntry(last))
    ensures InputsHeld(data, offset, before + [last], at + |AssetTransport.PackEntry(last)|)
  {
    var all := before + [last];
    assert all[..|all| - 1] == before;
    HoldsParts(data, offset, AssetTransport.PackEntries(before), AssetTransport.PackEntry(last));
  }

  lemma {:induction false} InputsExact(read: AssetTransport.Reader, h: Host, declarations: seq<Declaration>, data: Bytes, count: nat)
    requires AreBytes(data) && AssetTransport.ReadsWith(read, h, declarations, data) && |data| >= 10
    requires AssetTransport.ReadInputs(read, 10, count).Ok?
    ensures var r := AssetTransport.ReadInputs(read, 10, count).value;
            AssetTransport.InOrder(h, declarations, r.inputs) && InputsHeld(data, 10, r.inputs, r.next)
  {
    if count > 0 {
      InputsExact(read, h, declarations, data, count - 1);
      var before := AssetTransport.ReadInputs(read, 10, count - 1).value;
      var previous := AssetTransport.LastName(before.inputs);
      InputExact(h, declarations, data, before.next, previous);
      var step := AssetTransport.ReadInput(h, declarations, data, before.next, previous).value;
      OneMoreHeld(data, 10, before.inputs, before.next, step.input);
      var all := before.inputs + [step.input];
      assert all[..|all| - 1] == before.inputs;
    }
  }

  /** Names strictly ascending, each entry within the limits and declared. */
  predicate Shippable(h: Host, declarations: seq<Declaration>, inputs: seq<AssetTransport.Input>) {
    && (forall k :: 0 <= k < |inputs| ==>
          && 1 <= |inputs[k].name| <= 96 && 1 <= |inputs[k].data| <= 4 * 1024 * 1024
          && h.text(inputs[k].name) && h.validName(inputs[k].name)
          && exists d :: d in declarations && d.name == inputs[k].name)
    && (forall j, k :: 0 <= j < k < |inputs| ==> TextLe(inputs[j].name, inputs[k].name) && inputs[j].name != inputs[k].name)
  }

  lemma SentMeans(h: Host, declarations: seq<Declaration>, i: AssetTransport.Input)
    ensures AssetTransport.Sent(h, declarations, i) <==>
              && 1 <= |i.name| <= 96 && 1 <= |i.data| <= 4 * 1024 * 1024 && h.text(i.name) && h.validName(i.name)
              && exists d :: d in declarations && d.name == i.name
  {
    if d :| d in declarations && d.name == i.name {
      var k :| 0 <= k < |declarations| && declarations[k] == d;
    }
  }

  predicate Follows(inputs: seq<AssetTransport.Input>, last: string) {
    forall j :: 0 <= j < |inputs| ==> TextLe(inputs[j].name, last) && inputs[j].name != last
  }

  /** Coming after the last of an ascending list is coming after all of it. */
  lemma AfterAll(inputs: seq<AssetTransport.Input>, last: string)
    requires forall j, k :: 0 <= j < k < |inputs| ==> TextLe(inputs[j].name, inputs[k].name) && inputs[j].name != inputs[k].name
    ensures AssetTransport.Before(AssetTransport.LastName(inputs), last) <==> Follows(inputs, last)
  {
    if inputs != [] && AssetTransport.Before(AssetTransport.LastName(inputs), last) {
      var n := |inputs| - 1;
      forall j | 0 <= j < n ensures TextLe(inputs[j].name, last) && inputs[j].name != last {
        TextLeTrans(inputs[j].name, inputs[n].name, last);
        if inputs[j].name == last {
          TextLeAntisym(inputs[j].name, inputs[n].name);
        }
      }
    }
  }

  lemma ShippableSplits(h: Host, declarations: seq<Declaration>, inputs: seq<AssetTransport.Input>)
    requires inputs != []
    ensures var before, last := inputs[..|inputs| - 1], inputs[|inputs| - 1];
            Shippable(h, declarations, inputs)
            <==> Shippable(h, declarations, before) && AssetTransport.Sent(h, declarations, last) && Follows(before, last.name)
  {
    SentMeans(h, declarations, inputs[|inputs| - 1]);
  }

  lemma {:induction false} InOrderMeans(h: Host, declarations: seq<Declaration>, inputs: seq<AssetTransport.Input>)
    ensures AssetTransport.InOrder(h, declarations, inputs) <==> Shippable(h, declarations, inputs)
  {
    if inputs != [] {
      var before, last := inputs[..|inputs| - 1], inputs[|inputs| - 1];
      InOrderMeans(h, declarations, before);
      ShippableSplits(h, declarations, inputs);
      if Shippable(h, declarations, before) {
        AfterAll(before, last.name);
      }
    }
  }

  /** The bytes of a transport pack: magic, count, and each entry's lengths, name and data. */
  predicate IsPack(pack: Bytes, inputs: seq<AssetTransport.Input>) {
    && |inputs| < Power(2) && AllFit(inputs)
    && pack == "NXAS\U{01}\0\0\0" + Le(|inputs|, 2) + AssetTransport.PackEntries(inputs)
  }

  /** The host frames exactly the packs that hold, for sound declarations, one shippable entry for
      each, and then frames those. */
  lemma FramesExactly(h: Host, declarations: seq<Declaration>, pack: Bytes, inputs: seq<AssetTransport.Input>)
    requires AreBytes(pack)
    ensures AssetTransport.Framed(h, declarations, pack) == Ok(inputs) <==>
              && SoundDeclarations(h, declarations) && |inputs| == |declarations| && |pack| <= MAX_ASSET_PACK_BYTES
              && Shippable(h, declarations, inputs) && IsPack(pack, inputs)
  {
    DeclarationsAreSound(h, declarations);
    InOrderMeans(h, declarations, inputs);
    Widths();
    if AssetTransport.Framed(h, declarations, pack) == Ok(inputs) {
      FramedIsPack(h, declarations, pack, inputs);
    } else if SoundDeclarations(h, declarations) && |inputs| == |declarations| && |pack| <= MAX_ASSET_PACK_BYTES
              && Shippable(h, declarations, inputs) && IsPack(pack, inputs) {
      AssetTransport.FramesReadBack(h, declarations, inputs);
    }
  }

  lemma FramedIsPack(h: Host, declarations: seq<Declaration>, pack: Bytes, inputs: seq<AssetTransport.Input>)
    requires AreBytes(pack) && AssetTransport.Framed(h, declarations, pack) == Ok(inputs)
    ensures |inputs| == |declarations| && AssetTransport.InOrder(h, declarations, inputs) && IsPack(pack, inputs)
  {
    var n := |declarations|;
    assert |PACK_MAGIC| == 8;
    NumberHolds(pack, 8, 2);
    InputsExact(AssetTransport.ReaderOf(h, declarations, pack), h, declarations, pack, n);
    var entries := AssetTransport.PackEntries(inputs);
    HoldsParts(pack, 0, PACK_MAGIC, Le(n, 2));
    HoldsParts(pack, 0, PACK_MAGIC + Le(n, 2), entries);
    HoldsAll(pack, PACK_MAGIC + Le(n, 2) + entries);
  }

  // ----- compiled packs -----

  predicate SmallDimensions(d: (nat, nat)) {
    d.0 < Power(4) && d.1 < Power(4)
  }

  function BodyWith(d: (nat, nat), bytes: Bytes): Bytes
    requires |bytes| < Power(4) && SmallDimensions(d)
  {
    Le(d.0, 4) + (Le(d.1, 4) + (Le(|bytes|, 4) + bytes))
  }

  /** An entry of a compiled pack; on what is not an image the dimensions are ignored. */
  function EntryWith(a: Asset, d: (nat, nat)): Bytes
    requires |a.declaration.name| < Power(2) && |a.bytes| < Power(4) && SmallDimensions(d)
  {
    Le(|a.declaration.name|, 2) + (a.declaration.name + BodyWith(d, a.bytes))
  }

  predicate Writable(a: Asset, d: (nat, nat)) {
    && |a.declaration.name| < Power(2) && |a.bytes| < Power(4) && SmallDimensions(d)
    && a.dimensions == if a.declaration.image then Some(d) else None
  }

  /** An asset a compiled pack may carry. */
  predicate Carried(h: Host, declarations: seq<Declaration>, a: Asset) {
    && 1 <= |a.bytes| <= 16 * 1024 * 1024 && h.text(a.declaration.name) && a.declaration in declarations
  }

  lemma DeclaredOnce(h: Host, declarations: seq<Declaration>, d: Declaration)
    requires SoundDeclarations(h, declarations)
    ensures Declared(declarations, d.name) == Some(d) <==> d in declarations
  {
    DeclarationsAreSound(h, declarations);
    if d in declarations {
      var i :| 0 <= i < |declarations| && declarations[i] == d;
      var found := Declared(declarations, d.name);
      assert found.Some?;
      var j :| 0 <= j < |declarations| && declarations[j] == found.value;
    }
  }

  lemma BodyExact(declaration: Declaration, data: Bytes, at: nat) returns (d: (nat, nat))
    requires AreBytes(data) && ReadBody(declaration, data, at).Ok?
    ensures var step := ReadBody(declaration, data, at).value;
            && step.asset.declaration == declaration && 1 <= |step.asset.bytes| <= MAX_ASSET_TOTAL_BYTES
            && |step.asset.bytes| < Power(4) && SmallDimensions(d)
            && step.asset.dimensions == (if declaration.image then Some(d) else None)
            && Holds(data, at, BodyWith(d, step.asset.bytes)) && step.next == at + |BodyWith(d, step.asset.bytes)|
  {
    var bytes := ReadBody(declaration, data, at).value.asset.bytes;
    d := (Number(data, at, 4).value, Number(data, at + 4, 4).value);
    NumberHolds(data, at, 4);
    NumberHolds(data, at + 4, 4);
    NumberHolds(data, at + 8, 4);
    HoldsParts(data, at + 8, Le(|bytes|, 4), bytes);
    HoldsParts(data, at + 4, Le(d.1, 4), Le(|bytes|, 4) + bytes);
    HoldsParts(data, at, Le(d.0, 4), Le(d.1, 4) + (Le(|bytes|, 4) + bytes));
  }

  lemma EntryExact(h: Host, declarations: seq<Declaration>, data: Bytes, offset: nat) returns (d: (nat, nat))
    requires AreBytes(data) && ReadEntry(declarations, h.text, data, offset).Ok?
    ensures var step := ReadEntry(declarations, h.text, data, offset).value;
            && Carried(h, declarations, step.asset) && Writable(step.asset, d)
            && Holds(data, offset, EntryWith(step.asset, d)) && step.next == offset + |EntryWith(step.asset, d)|
  {
    var name := Take(data, offset + 2, Number(data, offset, 2).value).value;
    var declaration := Declared(declarations, name).value;
    d := BodyExact(declaration, data, offset + 2 + |name|);
    NumberHolds(data, offset, 2);
    var body := BodyWith(d, ReadBody(declaration, data, offset + 2 + |name|).value.asset.bytes);
    HoldsParts(data, offset + 2, name, body);
    HoldsParts(data, offset, Le(|name|, 2), name + body);
  }

  lemma BodyReads(a: Asset, d: (nat, nat), data: Bytes, at: nat)
    requires 1 <= |a.bytes| <= MAX_ASSET_TOTAL_BYTES && Writable(a, d) && Holds(data, at, BodyWith(d, a.bytes))
    ensures ReadBody(a.declaration, data, at) == Ok(Step(a, at + |BodyWith(d, a.bytes)|))
  {
    HoldsParts(data, at, Le(d.0, 4), Le(d.1, 4) + (Le(|a.bytes|, 4) + a.bytes));
    HoldsParts(data, at + 4, Le(d.1, 4), Le(|a.bytes|, 4) + a.bytes);
    HoldsParts(data, at + 8, Le(|a.bytes|, 4), a.bytes);
    NumberReads(data, at, d.0, 4);
    NumberReads(data, at + 4, d.1, 4);
    NumberReads(data, at + 8, |a.bytes|, 4);
  }

  lemma EntryReads(h: Host, declarations: seq<Declaration>, a: Asset, d: (nat, nat), data: Bytes, offset: nat)
    requires SoundDeclarations(h, declarations) && Carried(h, declarations, a) && Writable(a, d)
    requires Holds(data, offset, EntryWith(a, d))
    ensures ReadEntry(declarations, h.text, data, offset) == Ok(Step(a, offset + |EntryWith(a, d)|))
  {
    var name, body := a.declaration.name, BodyWith(d, a.bytes);
    DeclaredOnce(h, declarations, a.declaration);
    HoldsParts(data, offset, Le(|name|, 2), name + body);
    HoldsParts(data, offset + 2, name, body);
    NumberReads(data, offset, |name|, 2);
    BodyReads(a, d, data, offset + 2 + |name|);
  }

  predicate AllWritable(assets: seq<Asset>, dimensions: seq<(nat, nat)>) {
    |assets| == |dimensions| && forall i :: 0 <= i < |assets| ==> Writable(assets[i], dimensions[i])
  }

  function EntriesWith(assets: seq<Asset>, dimensions: seq<(nat, nat)>): Bytes
    requires AllWritable(assets, dimensions)
  {
    if assets == [] then ""
    else
      var n := |assets| - 1;
      EntriesWith(assets[..n], dimensions[..n]) + EntryWith(assets[n], dimensions[n])
  }

  predicate AllCarried(h: Host, declarations: seq<Declaration>, assets: seq<Asset>) {
    forall i :: 0 <= i < |assets| ==> Carried(h, declarations, assets[i])
  }

  predicate EntriesHeld(h: Host, declarations: seq<Declaration>, data: Bytes, assets: seq<Asset>, dimensions: seq<(nat, nat)>, next: nat) {
    && AllCarried(h, declarations, assets) && AllWritable(assets, dimensions)
    && Holds(data, 10, EntriesWith(assets, dimensions)) && next == 10 + |EntriesWith(assets, dimensions)|
  }

  lemma OneMoreEntry(h: Host, declarations: seq<Declaration>, data: Bytes, assets: seq<Asset>, dimensions: seq<(nat, nat)>, at: nat,
                     a: Asset, d: (nat, nat))
    requires EntriesHeld(h, declarations, data, assets, dimensions, at) && Carried(h, declarations, a) && Writable(a, d)
    requires Holds(data, at, EntryWith(a, d))
    ensures EntriesHeld(h, declarations, data, assets + [a], dimensions + [d], at + |EntryWith(a, d)|)
  {
    var all, both := assets + [a], dimensions + [d];
    assert all[..|all| - 1] == assets && both[..|all| - 1] == dimensions;
    HoldsParts(data, 10, EntriesWith(assets, dimensions), EntryWith(a, d));
  }

  lemma {:induction false} EntriesExact(read: Reader, h: Host, declarations: seq<Declaration>, data: Bytes, count: nat)
    returns (dimensions: seq<(nat, nat)>)
    requires AreBytes(data) && ReadsWith(read, declarations, h.text, data) && |data| >= 10
    requires ReadEntries(read, 10, count).Ok?
    ensures var r := ReadEntries(read, 10, count).value; EntriesHeld(h, declarations, data, r.assets, dimensions, r.next)
  {
    if count == 0 {
      dimensions := [];
    } else {
      var before := ReadEntries(read, 10, count - 1).value;
      var earlier := EntriesExact(read, h, declarations, data, count - 1);
      var step := ReadEntry(declarations, h.text, data, before.next).value;
      var d := EntryExact(h, declarations, data, before.next);
      OneMoreEntry(h, declarations, data, before.assets, earlier, before.next, step.asset, d);
      dimensions := earlier + [d];
    }
  }

  predicate Reads(read: Reader, assets: seq<Asset>, next: nat) {
    ReadEntries(read, 10, |assets|) == Ok(Entries(assets, next))
  }

  lemma ReadsNext(read: Reader, assets: seq<Asset>, at: nat, next: nat)
    requires assets != [] && Reads(read, assets[..|assets| - 1], at) && read(at) == Ok(Step(assets[|assets| - 1], next))
    ensures Reads(read, assets, next)
  {
    assert assets[..|assets| - 1] + [assets[|assets| - 1]] == assets;
  }

  lemma {:induction false} EntriesRead(read: Reader, h: Host, declarations: seq<Declaration>, assets: seq<Asset>,
                                       dimensions: seq<(nat, nat)>, data: Bytes)
    requires ReadsWith(read, declarations, h.text, data) && SoundDeclarations(h, declarations)
    requires AllCarried(h, declarations, assets) && AllWritable(assets, dimensions)
    requires Holds(data, 10, EntriesWith(assets, dimensions))
    ensures Reads(read, assets, 10 + |EntriesWith(assets, dimensions)|)
    decreases |assets|
  {
    if assets != [] {
      var n := |assets| - 1;
      var at, next := LastEntry(assets, dimensions, data);
      EntriesRead(read, h, declarations, assets[..n], dimensions[..n], data);
      OneMoreReads(read, h, declarations, assets, dimensions[n], data, at, next);
    }
  }

  lemma OneMoreReads(read: Reader, h: Host, declarations: seq<Declaration>, assets: seq<Asset>, d: (nat, nat), data: Bytes, at: nat,
                     next: nat)
    requires ReadsWith(read, declarations, h.text, data) && SoundDeclarations(h, declarations)
    requires assets != [] && Reads(read, assets[..|assets| - 1], at)
    requires Carried(h, declarations, assets[|assets| - 1]) && Writable(assets[|assets| - 1], d)
    requires Holds(data, at, EntryWith(assets[|assets| - 1], d)) && next == at + |EntryWith(assets[|assets| - 1], d)|
    ensures Reads(read, assets, next)
  {
    EntryReads(h, declarations, assets[|assets| - 1], d, data, at);
    ReadsNext(read, assets, at, next);
  }

  lemma LastEntry(assets: seq<Asset>, dimensions: seq<(nat, nat)>, data: Bytes) returns (at: nat, next: nat)
    requires assets != [] && AllWritable(assets, dimensions) && Holds(data, 10, EntriesWith(assets, dimensions))
    ensures var n := |assets| - 1;
            && Holds(data, 10, EntriesWith(assets[..n], dimensions[..n])) && at == 10 + |EntriesWith(assets[..n], dimensions[..n])|
            && Holds(data, at, EntryWith(assets[n], dimensions[n])) && next == at + |EntryWith(assets[n], dimensions[n])|
    ensures next == 10 + |EntriesWith(assets, dimensions)|
  {
    var n := |assets| - 1;
    var before, last := EntriesWith(assets[..n], dimensions[..n]), EntryWith(assets[n], dimensions[n]);
    HoldsParts(data, 10, before, last);
    at := 10 + |before|;
    next := at + |last|;
  }

  /** The bytes of a compiled pack with these dimension fields. */
  predicate IsCompiled(data: Bytes, assets: seq<Asset>, dimensions: seq<(nat, nat)>) {
    && |assets| < Power(2) && AllWritable(assets, dimensions)
    && data == "NXCP\U{01}\0\0\0" + Le(|assets|, 2) + EntriesWith(assets, dimensions)
  }

  lemma LoadedIsCompiled(h: Host, declarations: seq<Declaration>, data: Bytes, assets: seq<Asset>) returns (dimensions: seq<(nat, nat)>)
    requires AreBytes(data) && Loaded(h, declarations, data) == Ok(assets)
    ensures |assets| == |declarations| && AllCarried(h, declarations, assets) && IsCompiled(data, assets, dimensions)
  {
    var n := |declarations|;
    AssetLaws.MagicLength();
    NumberHolds(data, 8, 2);
    dimensions := EntriesExact(ReaderOf(declarations, h.text, data), h, declarations, data, n);
    var entries := EntriesWith(assets, dimensions);
    HoldsParts(data, 0, COMPILED_MAGIC, Le(n, 2));
    HoldsParts(data, 0, COMPILED_MAGIC + Le(n, 2), entries);
    HoldsAll(data, COMPILED_MAGIC + Le(n, 2) + entries);
  }

  lemma CompiledLoads(h: Host, declarations: seq<Declaration>, data: Bytes, assets: seq<Asset>, dimensions: seq<(nat, nat)>)
    requires SoundDeclarations(h, declarations) && |assets| == |declarations| && Bundles(assets)
    requires AllCarried(h, declarations, assets) && IsCompiled(data, assets, dimensions)
    ensures Loaded(h, declarations, data) == Ok(assets)
  {
    DeclarationsAreSound(h, declarations);
    AssetLaws.MagicLength();
    var n, entries := |assets|, EntriesWith(assets, dimensions);
    HoldsSelf(data);
    HoldsParts(data, 0, COMPILED_MAGIC + Le(n, 2), entries);
    HoldsParts(data, 0, COMPILED_MAGIC, Le(n, 2));
    NumberReads(data, 8, n, 2);
    EntriesRead(ReaderOf(declarations, h.text, data), h, declarations, assets, dimensions, data);
  }

  /** The server loads exactly the compiled packs that carry, for sound declarations, one asset for
      each within the bundle's limits, whatever dimensions stand on what is not an image. */
  lemma LoadsExactly(h: Host, declarations: seq<Declaration>, data: Bytes, assets: seq<Asset>)
    requires AreBytes(data)
    ensures Loaded(h, declarations, data) == Ok(assets) <==>
              && SoundDeclarations(h, declarations) && |assets| == |declarations| && Bundles(assets)
              && AllCarried(h, declarations, assets)
              && exists dimensions :: IsCompiled(data, assets, dimensions)
  {
    DeclarationsAreSound(h, declarations);
    if Loaded(h, declarations, data) == Ok(assets) {
      var dimensions := LoadedIsCompiled(h, declarations, data, assets);
    } else if SoundDeclarations(h, declarations) && |assets| == |declarations| && Bundles(assets) && AllCarried(h, declarations, assets)
              && exists dimensions :: IsCompiled(data, assets, dimensions) {
      var dimensions :| IsCompiled(data, assets, dimensions);
      CompiledLoads(h, declarations, data, assets, dimensions);
    }
  }
}
