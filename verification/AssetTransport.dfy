/** The executor's transport pack: the Python writer (tools/build_assets.py, `from_tar`) and the
    framing the host reads (crates/noxide-asset-admission/src/lib.rs, `from_pack`). */
module AssetTransport {
  import opened Prelude
  import opened Sorting
  import opened AssetFrames
  import opened AssetPacks

  datatype Input = Input(name: string, data: Bytes)

  function InputKey(): Input -> Key {
    (i: Input) => [i.name]
  }

  // ----- writing -----

  predicate Fits(i: Input) {
    |i.name| < Power(2) && |i.data| < Power(4)
  }

  function PackEntry(i: Input): Bytes
    requires Fits(i)
  {
    Le(|i.name|, 2) + Le(|i.data|, 4) + i.name + i.data
  }

  function PackEntries(inputs: seq<Input>): Bytes
    requires forall k :: 0 <= k < |inputs| ==> Fits(inputs[k])
  {
    if inputs == [] then "" else PackEntries(inputs[..|inputs| - 1]) + PackEntry(inputs[|inputs| - 1])
  }

  function Packed(inputs: seq<Input>): Bytes
    requires |inputs| < Power(2) && forall k :: 0 <= k < |inputs| ==> Fits(inputs[k])
  {
    PACK_MAGIC + Le(|inputs|, 2) + PackEntries(inputs)
  }

  lemma NextInput(head: Bytes, inputs: seq<Input>, k: nat)
    requires k < |inputs| && forall j :: 0 <= j < |inputs| ==> Fits(inputs[j])
    ensures head + PackEntries(inputs[..k + 1]) == (head + PackEntries(inputs[..k])) + PackEntry(inputs[k])
  {
    assert inputs[..k + 1][..k] == inputs[..k];
  }

  /** The pack writer: archive entries that passed the limits, in name order. */
  method WritePack(inputs: seq<Input>) returns (r: Result<Bytes>)
    requires |inputs| < Power(2) && forall k :: 0 <= k < |inputs| ==> Fits(inputs[k])
    ensures forall k :: 0 <= k < |inputs| ==> Fits(Sort(InputKey(), inputs)[k])
    ensures var pack := Packed(Sort(InputKey(), inputs)); r == if |pack| > MAX_ASSET_PACK_BYTES then Err else Ok(pack)
  {
    var sorted := Sort(InputKey(), inputs);
    SortedInputs(inputs);
    var pack := PACK_MAGIC + Le(|inputs|, 2);
    ghost var head := pack;
    for k := 0 to |sorted|
      invariant pack == head + PackEntries(sorted[..k])
    {
      var name, data := sorted[k].name, sorted[k].data;
      NextInput(head, sorted, k);
      ghost var before := pack;
      pack := pack + (Le(|name|, 2) + Le(|data|, 4));
      pack := pack + name;
      pack := pack + data;
      assert pack == before + PackEntry(sorted[k]);
    }
    assert sorted[..|sorted|] == sorted;
    r := if |pack| > MAX_ASSET_PACK_BYTES then Err else Ok(pack);
  }

  lemma SortedInputs(inputs: seq<Input>)
    ensures forall x :: x in Sort(InputKey(), inputs) <==> x in inputs
    ensures (forall k :: 0 <= k < |inputs| ==> Fits(inputs[k])) ==> forall k :: 0 <= k < |inputs| ==> Fits(Sort(InputKey(), inputs)[k])
  {
    var s := Sort(InputKey(), inputs);
    assert forall x :: x in s <==> x in multiset(s);
    assert forall x :: x in inputs <==> x in multiset(inputs);
    if forall k :: 0 <= k < |inputs| ==> Fits(inputs[k]) {
      forall k | 0 <= k < |s| ensures Fits(s[k]) {
        assert s[k] in s;
        var j :| 0 <= j < |inputs| && inputs[j] == s[k];
      }
    }
  }

  // ----- reading -----

  datatype InputStep = InputStep(input: Input, next: nat)

  predicate Before(previous: Option<string>, name: string) {
    previous.None? || (TextLe(previous.value, name) && previous.value != name)
  }

  /** One entry, after the name read before it. */
  function ReadInput(h: Host, declarations: seq<Declaration>, data: Bytes, offset: nat, previous: Option<string>): Result<InputStep> {
    var length, size := Number(data, offset, 2), Number(data, offset + 2, 4);
    if length.None? || size.None? then Err
    else if !(1 <= length.value <= MAX_ASSET_NAME_BYTES) || !(1 <= size.value <= MAX_ASSET_BYTES) then Err
    else
      var name := Take(data, offset + 6, length.value);
      if name.None? || !h.text(name.value) || !h.validName(name.value) || !Before(previous, name.value) then Err
      else
        var bytes := Take(data, offset + 6 + length.value, size.value);
        if Declared(declarations, name.value).None? || bytes.None? then Err
        else Ok(InputStep(Input(name.value, bytes.value), offset + 6 + length.value + size.value))
  }

  datatype Inputs = Inputs(inputs: seq<Input>, next: nat)

  function LastName(inputs: seq<Input>): Option<string> {
    if inputs == [] then None else Some(inputs[|inputs| - 1].name)
  }

  /** Reads the entry at an offset, after a name. */
  type Reader = (nat, Option<string>) -> Result<InputStep>

  function ReadInputs(read: Reader, offset: nat, count: nat): (r: Result<Inputs>)
    ensures r.Ok? ==> |r.value.inputs| == count
  {
    if count == 0 then Ok(Inputs([], offset))
    else
      var before :- ReadInputs(read, offset, count - 1);
      var step :- read(before.next, LastName(before.inputs));
      Ok(Inputs(before.inputs + [step.input], step.next))
  }

  function ReaderOf(h: Host, declarations: seq<Declaration>, data: Bytes): Reader {
    (offset: nat, previous: Option<string>) => ReadInput(h, declarations, data, offset, previous)
  }

  ghost predicate ReadsWith(read: Reader, h: Host, declarations: seq<Declaration>, data: Bytes) {
    forall offset, previous {:trigger ReadInput(h, declarations, data, offset, previous)} ::
      read(offset, previous) == ReadInput(h, declarations, data, offset, previous)
  }

  /** The entries a transport pack holds. */
  function Framed(h: Host, declarations: seq<Declaration>, pack: Bytes): Result<seq<Input>> {
    if !ValidDeclarations(h.validName, h.validDigest, declarations) || |pack| > MAX_ASSET_PACK_BYTES then Err
    else if !Holds(pack, 0, PACK_MAGIC) || Number(pack, 8, 2) != Some(|declarations|) then Err
    else
      var r :- ReadInputs(ReaderOf(h, declarations, pack), 10, |declarations|);
      if r.next != |pack| then Err else Ok(r.inputs)
  }

  /** The framing part of `from_pack`. */
  method FromPack(h: Host, declarations: seq<Declaration>, pack: Bytes) returns (r: Result<seq<Input>>)
    ensures r == Framed(h, declarations, pack)
  {
    if !ValidDeclarations(h.validName, h.validDigest, declarations) || |pack| > MAX_ASSET_PACK_BYTES {
      return Err;
    }
    if Take(pack, 0, |PACK_MAGIC|) != Some(PACK_MAGIC) || Number(pack, 8, 2) != Some(|declarations|) {
      return Err;
    }
    var found := ReadAll(ReaderOf(h, declarations, pack), h, declarations, pack);
    r := if found.Err? || found.value.next != |pack| then Err else Ok(found.value.inputs);
  }

  /** The loop of `from_pack`. */
  method ReadAll(ghost read: Reader, h: Host, declarations: seq<Declaration>, pack: Bytes) returns (r: Result<Inputs>)
    requires ReadsWith(read, h, declarations, pack)
    ensures r == ReadInputs(read, 10, |declarations|)
  {
    var offset: nat := 10;
    var inputs: seq<Input> := [];
    var previous := None;
    for i := 0 to |declarations|
      invariant previous == LastName(inputs)
      invariant ReadInputs(read, 10, i) == Ok(Inputs(inputs, offset))
    {
      var step := ReadInput(h, declarations, pack, offset, previous);
      if step.Err? {
        InputsFail(read, 10, i + 1, |declarations|);
        return Err;
      }
      previous := Some(step.value.input.name);
      inputs := inputs + [step.value.input];
      offset := step.value.next;
    }
    r := Ok(Inputs(inputs, offset));
  }

  lemma {:induction false} InputsFail(read: Reader, offset: nat, i: nat, n: nat)
    requires i <= n && ReadInputs(read, offset, i).Err?
    ensures ReadInputs(read, offset, n).Err?
  {
    if i < n {
      InputsFail(read, offset, i, n - 1);
    }
  }

  // ----- what is written is read -----

  function Size(i: Input): nat {
    6 + |i.name| + |i.data|
  }

  function SizeOf(inputs: seq<Input>): nat {
    if inputs == [] then 0 else SizeOf(inputs[..|inputs| - 1]) + Size(inputs[|inputs| - 1])
  }

  predicate InputAt(data: Bytes, offset: nat, i: Input) {
    && Number(data, offset, 2) == Some(|i.name|) && Number(data, offset + 2, 4) == Some(|i.data|)
    && Take(data, offset + 6, |i.name|) == Some(i.name) && Take(data, offset + 6 + |i.name|, |i.data|) == Some(i.data)
  }

  predicate InputsAt(data: Bytes, offset: nat, inputs: seq<Input>) {
    inputs == [] ||
    var before := inputs[..|inputs| - 1];
    InputsAt(data, offset, before) && InputAt(data, offset + SizeOf(before), inputs[|inputs| - 1])
  }

  lemma InputPlaced(data: Bytes, offset: nat, i: Input)
    requires Fits(i) && Holds(data, offset, PackEntry(i))
    ensures InputAt(data, offset, i)
  {
    var a, b := Le(|i.name|, 2), Le(|i.data|, 4);
    assert PackEntry(i) == a + (b + (i.name + i.data));
    HoldsParts(data, offset, a, b + (i.name + i.data));
    HoldsParts(data, offset + 2, b, i.name + i.data);
    HoldsParts(data, offset + 6, i.name, i.data);
    NumberReads(data, offset, |i.name|, 2);
    NumberReads(data, offset + 2, |i.data|, 4);
  }

  lemma {:induction false} InputsPlaced(data: Bytes, offset: nat, inputs: seq<Input>)
    requires (forall k :: 0 <= k < |inputs| ==> Fits(inputs[k])) && Holds(data, offset, PackEntries(inputs))
    ensures InputsAt(data, offset, inputs) && |PackEntries(inputs)| == SizeOf(inputs)
    decreases |inputs|
  {
    if inputs != [] {
      var before, last := inputs[..|inputs| - 1], inputs[|inputs| - 1];
      HoldsParts(data, offset, PackEntries(before), PackEntry(last));
      InputsPlaced(data, offset, before);
      InputPlaced(data, offset + |PackEntries(before)|, last);
    }
  }

  /** An archive entry the writer lets through, declared under its name. */
  predicate Sent(h: Host, declarations: seq<Declaration>, i: Input) {
    && 1 <= |i.name| <= MAX_ASSET_NAME_BYTES && 1 <= |i.data| <= MAX_ASSET_BYTES
    && h.text(i.name) && h.validName(i.name) && Declared(declarations, i.name).Some?
  }

  /** Each is sent and comes after the one before it. */
  predicate InOrder(h: Host, declarations: seq<Declaration>, inputs: seq<Input>) {
    inputs == [] ||
    var before, last := inputs[..|inputs| - 1], inputs[|inputs| - 1];
    InOrder(h, declarations, before) && Sent(h, declarations, last) && Before(LastName(before), last.name)
  }

  predicate ReadsAll(read: Reader, inputs: seq<Input>, offset: nat) {
    ReadInputs(read, offset, |inputs|) == Ok(Inputs(inputs, offset + SizeOf(inputs)))
  }

  lemma ReadsOneMore(read: Reader, inputs: seq<Input>, offset: nat)
    requires inputs != [] && ReadsAll(read, inputs[..|inputs| - 1], offset)
    requires var before, last := inputs[..|inputs| - 1], inputs[|inputs| - 1];
             read(offset + SizeOf(before), LastName(before)) == Ok(InputStep(last, offset + SizeOf(before) + Size(last)))
    ensures ReadsAll(read, inputs, offset)
  {
    assert inputs[..|inputs| - 1] + [inputs[|inputs| - 1]] == inputs;
  }

  lemma InputReads(h: Host, declarations: seq<Declaration>, i: Input, data: Bytes, offset: nat, previous: Option<string>)
    requires Sent(h, declarations, i) && Before(previous, i.name) && InputAt(data, offset, i)
    ensures ReadInput(h, declarations, data, offset, previous) == Ok(InputStep(i, offset + Size(i)))
  {
  }

  lemma {:induction false} InputsRead(read: Reader, h: Host, declarations: seq<Declaration>, inputs: seq<Input>, data: Bytes, offset: nat)
    requires ReadsWith(read, h, declarations, data) && InOrder(h, declarations, inputs) && InputsAt(data, offset, inputs)
    ensures ReadsAll(read, inputs, offset)
    decreases |inputs|
  {
    if inputs != [] {
      var before := inputs[..|inputs| - 1];
      InputsRead(read, h, declarations, before, data, offset);
      InputReads(h, declarations, inputs[|inputs| - 1], data, offset + SizeOf(before), LastName(before));
      ReadsOneMore(read, inputs, offset);
    }
  }

  predicate DistinctInputs(inputs: seq<Input>) {
    forall i, j :: 0 <= i < j < |inputs| ==> inputs[i].name != inputs[j].name
  }

  lemma {:induction false} SortedInOrder(h: Host, declarations: seq<Declaration>, inputs: seq<Input>)
    requires Sorted(InputKey(), inputs) && DistinctInputs(inputs)
    requires forall k :: 0 <= k < |inputs| ==> Sent(h, declarations, inputs[k])
    ensures InOrder(h, declarations, inputs)
  {
    if inputs != [] {
      var n := |inputs| - 1;
      SortedInOrder(h, declarations, inputs[..n]);
      if n > 0 {
        var key := InputKey();
        assert KeyLe(key(inputs[n - 1]), key(inputs[n]));
        assert key(inputs[n - 1])[0] == inputs[n - 1].name && key(inputs[n])[0] == inputs[n].name;
      }
    }
  }

  /** The writer's output is framed back into the same names and bytes, in name order. */
  lemma PackReadsBack(h: Host, declarations: seq<Declaration>, inputs: seq<Input>)
    requires ValidDeclarations(h.validName, h.validDigest, declarations) && |inputs| == |declarations| && DistinctInputs(inputs)
    requires forall k :: 0 <= k < |inputs| ==> Fits(inputs[k]) && Sent(h, declarations, inputs[k])
    requires |inputs| < Power(2) && (forall k :: 0 <= k < |inputs| ==> Fits(Sort(InputKey(), inputs)[k]))
    requires |Packed(Sort(InputKey(), inputs))| <= MAX_ASSET_PACK_BYTES
    ensures Framed(h, declarations, Packed(Sort(InputKey(), inputs))) == Ok(Sort(InputKey(), inputs))
  {
    OrderedInputs(h, declarations, inputs);
    FramesReadBack(h, declarations, Sort(InputKey(), inputs));
  }

  lemma FramesReadBack(h: Host, declarations: seq<Declaration>, sorted: seq<Input>)
    requires ValidDeclarations(h.validName, h.validDigest, declarations) && |sorted| == |declarations|
    requires |sorted| < Power(2) && (forall k :: 0 <= k < |sorted| ==> Fits(sorted[k])) && InOrder(h, declarations, sorted)
    requires |Packed(sorted)| <= MAX_ASSET_PACK_BYTES
    ensures Framed(h, declarations, Packed(sorted)) == Ok(sorted)
  {
    var data := Packed(sorted);
    HoldsSelf(data);
    HoldsParts(data, 0, PACK_MAGIC + Le(|sorted|, 2), PackEntries(sorted));
    HoldsParts(data, 0, PACK_MAGIC, Le(|sorted|, 2));
    assert |PACK_MAGIC| == 8;
    NumberReads(data, 8, |sorted|, 2);
    InputsPlaced(data, 10, sorted);
    InputsRead(ReaderOf(h, declarations, data), h, declarations, sorted, data, 10);
  }

  lemma OrderedInputs(h: Host, declarations: seq<Declaration>, inputs: seq<Input>)
    requires DistinctInputs(inputs) && forall k :: 0 <= k < |inputs| ==> Sent(h, declarations, inputs[k])
    ensures InOrder(h, declarations, Sort(InputKey(), inputs))
  {
    var sorted := Sort(InputKey(), inputs);
    SortSorted(InputKey(), inputs);
    SortedInputs(inputs);
    forall k | 0 <= k < |sorted| ensures Sent(h, declarations, sorted[k]) {
      assert sorted[k] in inputs;
    }
    DistinctSorted(inputs);
    SortedInOrder(h, declarations, sorted);
  }

  lemma DistinctSorted(inputs: seq<Input>)
    requires DistinctInputs(inputs)
    ensures DistinctInputs(Sort(InputKey(), inputs))
  {
    var key := InputKey();
    forall i, j | 0 <= i < j < |inputs| ensures key(inputs[i]) != key(inputs[j]) {
      assert key(inputs[i])[0] == inputs[i].name && key(inputs[j])[0] == inputs[j].name;
    }
    var sorted := Sort(key, inputs);
    PermutedKeys(key, inputs, sorted);
    forall i, j | 0 <= i < j < |sorted| ensures sorted[i].name != sorted[j].name {
      assert key(sorted[i]) != key(sorted[j]);
    }
  }
}
