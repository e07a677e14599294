/** The decoder of everything before the first file byte
    (crates/noxide-blobs/src/multipart.rs, `PrefixSpec`, `PrefixDecoder`). */
module MultipartPrefix {
  import opened Prelude
  import opened MultipartDelimiter
  import opened MultipartHeaders
  import opened MultipartFile

  const PREFIX_BYTES: nat := 65_536
  const HEADER_BYTES: nat := 1_024
  const FIELD_BYTES: nat := 32_768
  const MAX_FIELDS: nat := 39
  const MAX_UPLOAD_BYTES: nat := 10 * 1024 * 1024
  const BLANK: Bytes := "\r\n\r\n"

  /** The three delimiters of one boundary: before the first part, between parts, after the file. */
  datatype Delimiters = Delimiters(first: Bytes, next: Bytes, close: Bytes)

  type Boundary = d: Delimiters | d.first != [] && d.next != [] && d.close != [] witness Delimiters("--x\r\n", "\r\n--x\r\n", "\r\n--x")

  /** The delimiters of a boundary token. */
  function Delimit(token: Bytes): Boundary {
    Delimiters("--" + token + "\r\n", "\r\n--" + token + "\r\n", "\r\n--" + token)
  }

  function InitialDelimiter(boundary: Boundary): Bytes {
    boundary.first
  }

  function NextDelimiter(boundary: Boundary): (d: Bytes)
    ensures d != []
  {
    boundary.next
  }

  function FileEnd(boundary: Boundary): (d: Bytes)
    ensures d != []
  {
    boundary.close
  }

  // ----- the schema -----

  datatype ScalarPart = ScalarPart(name: Bytes, maxBytes: nat, required: bool)

  /** The schema, and the two grammars the decoder reads with: header blocks and text values. */
  datatype Spec = Spec(
    fields: seq<ScalarPart>, file: Bytes, optional: bool, limit: nat, parse: Bytes -> Result<Headers>, text: Bytes -> bool)

  /** A schema `PrefixSpec::new` admits, reading headers with `parse_headers` and values as UTF-8. */
  ghost predicate ValidSpec(spec: Spec) {
    && AdmittedSpec(spec)
    && (forall s :: spec.parse(s) == ParseHeaders(s))
    && (forall s :: spec.text(s) == Utf8(s))
  }

  predicate AdmittedSpec(spec: Spec) {
    && 3 <= |spec.fields| <= MAX_FIELDS
    && 1 <= spec.limit <= MAX_UPLOAD_BYTES
    && (forall i :: 0 <= i < |spec.fields| ==> PartName(spec.fields[i].name) && 1 <= spec.fields[i].maxBytes <= FIELD_BYTES)
    && (forall i, j :: 0 <= i < j < |spec.fields| ==> spec.fields[i].name != spec.fields[j].name)
    && (forall i :: 0 <= i < 3 ==> spec.fields[i].required)
    && spec.fields[2].name == "_upload"
    && PartName(spec.file)
    && (forall i :: 0 <= i < |spec.fields| ==> spec.fields[i].name != spec.file)
  }

  predicate Optional(spec: Spec, from: nat, to: nat)
    requires to <= |spec.fields|
  {
    forall i :: from <= i < to ==> !spec.fields[i].required
  }

  /** The next field with this name, as `position` looks for it. */
  function FieldFrom(spec: Spec, from: nat, name: Bytes): (r: Option<nat>)
    requires from <= |spec.fields|
    ensures r.Some? ==> from <= r.value < |spec.fields| && spec.fields[r.value].name == name
    ensures r.Some? ==> forall i :: from <= i < r.value ==> spec.fields[i].name != name
    ensures r.None? ==> forall i :: from <= i < |spec.fields| ==> spec.fields[i].name != name
    decreases |spec.fields| - from
  {
    if from == |spec.fields| then None
    else if spec.fields[from].name == name then Some(from)
    else FieldFrom(spec, from + 1, name)
  }

  // ----- one byte -----

  datatype Phase =
    | Initial(cursor: nat)
    | InHeaders
    | InScalar(index: nat, raw: Bytes)
    | IsReady
    | IsPoisoned

  /** `raw` is every byte since the part's headers; the value read so far is what of it can no
      longer belong to the delimiter. */
  datatype State = State(phase: Phase, headers: Bytes, values: map<Bytes, Bytes>, field: nat, total: nat)

  const START := State(Initial(0), [], map[], 0, 0)

  datatype Ready = Ready(values: map<Bytes, Bytes>, filename: Option<Bytes>, limit: nat)

  /** The end of a header block. */
  function HeadersDone(spec: Spec, st: State, text: Bytes): Result<(State, Option<Ready>)>
    requires st.field <= |spec.fields|
  {
    var h :- spec.parse(text);
    var clear := st.(headers := []);
    if h.name == spec.file then
      if !Optional(spec, st.field, |spec.fields|) || h.filename.None? then Err
      else if h.filename.value == [] && !spec.optional then Err
      else
        var filename := if h.filename.value == [] then None else Some(h.filename.value);
        Ok((clear.(phase := IsReady, values := map[]),
            Some(Ready(st.values, filename, if filename.Some? then spec.limit else 0))))
    else if h.filename.Some? || h.contentType then Err
    else
      var next := FieldFrom(spec, st.field, h.name);
      if next.None? || !Optional(spec, st.field, next.value) then Err
      else Ok((clear.(phase := InScalar(next.value, []), field := next.value + 1), None))
  }

  function HeaderStep(spec: Spec, st: State, b: char): Result<(State, Option<Ready>)>
    requires st.field <= |spec.fields|
  {
    if |st.headers| >= HEADER_BYTES then Err
    else
      var text := st.headers + [b];
      if EndsWith(text, BLANK) then HeadersDone(spec, st, text[..|text| - 4])
      else Ok((st.(headers := text), None))
  }

  function ScalarByte(boundary: Boundary, spec: Spec, st: State, b: char): Result<(State, Option<Ready>)>
    requires st.phase.InScalar? && st.phase.index < |spec.fields|
  {
    var d := NextDelimiter(boundary);
    var raw := st.phase.raw + [b];
    if EndsWith(raw, d) then
      var value := raw[..|raw| - |d|];
      if spec.text(value) then Ok((st.(phase := InHeaders, values := st.values[spec.fields[st.phase.index].name := value]), None))
      else Err
    else if |raw| - Longest(d, raw) <= spec.fields[st.phase.index].maxBytes
    then Ok((st.(phase := InScalar(st.phase.index, raw)), None))
    else Err
  }

  predicate Fits(spec: Spec, st: State) {
    st.field <= |spec.fields| && (st.phase.InScalar? ==> st.phase.index < |spec.fields|)
  }

  function StepByte(boundary: Boundary, spec: Spec, before: State, b: char): (r: Result<(State, Option<Ready>)>)
    requires Fits(spec, before)
    ensures r.Ok? ==> Fits(spec, r.value.0)
    ensures r.Ok? ==> r.value.0.phase != IsPoisoned && (r.value.1.Some? <==> r.value.0.phase == IsReady)
  {
    var st := before.(total := before.total + 1);
    if st.total > PREFIX_BYTES then Err
    else
      match st.phase
      case Initial(cursor) =>
        var d := InitialDelimiter(boundary);
        if cursor >= |d| || d[cursor] != b then Err
        else Ok((st.(phase := if cursor + 1 == |d| then InHeaders else Initial(cursor + 1)), None))
      case InHeaders => HeaderStep(spec, st, b)
      case InScalar(_, _) => ScalarByte(boundary, spec, st, b)
      case _ => Err
  }

  // ----- a run of bytes -----

  datatype Fed = Rejected | More(state: State) | Complete(consumed: nat, ready: Ready)

  function Shift(f: Fed, n: nat): Fed {
    if f.Complete? then f.(consumed := f.consumed + n) else f
  }

  /** One step of a decoder. */
  type Machine = (State, char) -> Result<(State, Option<Ready>)>

  /** Bytes one after another until the prefix is complete or something is wrong. */
  function Run(m: Machine, st: State, input: Bytes): (f: Fed)
    ensures f.Complete? ==> 0 < f.consumed <= |input|
    decreases |input|
  {
    if input == [] then More(st)
    else
      match m(st, input[0])
      case Err => Rejected
      case Ok(next) =>
        if next.1.Some? then Complete(1, next.1.value)
        else Shift(Run(m, next.0, input[1..]), 1)
  }

  /** The rest of an input begins with its next byte. */
  lemma RunFrom(m: Machine, st: State, input: Bytes, i: nat)
    requires i < |input|
    ensures Run(m, st, input[i..]) ==
              match m(st, input[i])
              case Err => Rejected
              case Ok(next) => if next.1.Some? then Complete(1, next.1.value) else Shift(Run(m, next.0, input[i + 1..]), 1)
  {
    assert input[i..][1..] == input[i + 1..];
  }

  /** Feeding in two pieces is feeding the whole: chunk borders do not matter. */
  lemma {:induction false} RunSplits(m: Machine, st: State, a: Bytes, b: Bytes)
    ensures var first := Run(m, st, a);
            Run(m, st, a + b) == if first.More? then Shift(Run(m, first.state, b), |a|) else first
    decreases |a|
  {
    if a == [] {
      assert a + b == b;
    } else {
      assert (a + b)[1..] == a[1..] + b;
      var next := m(st, a[0]);
      if next.Ok? && next.value.1.None? {
        RunSplits(m, next.value.0, a[1..], b);
      }
    }
  }

  /** The machine of a boundary and a schema. */
  function MachineOf(boundary: Boundary, spec: Spec): Machine {
    (st: State, b: char) => if Fits(spec, st) then StepByte(boundary, spec, st, b) else Err
  }

  /** The machine takes the decoder's steps. */
  ghost predicate Drives(m: Machine, boundary: Boundary, spec: Spec) {
    forall st, b {:trigger StepByte(boundary, spec, st, b)} :: Fits(spec, st) ==> m(st, b) == StepByte(boundary, spec, st, b)
  }

  lemma MachineDrives(boundary: Boundary, spec: Spec)
    ensures Drives(MachineOf(boundary, spec), boundary, spec)
  {
  }

  // ----- the decoder object -----

  class PrefixDecoder {
    const boundary: Boundary
    const spec: Spec
    /** The steps this decoder takes. */
    ghost const m: Machine
    /** Phase, header buffer, values, field index and byte count; the raw bytes of a scalar are ghost. */
    var initial: nat
    var kind: Kind
    var index: nat
    var value: Bytes
    var matcher: Matcher
    var headers: Bytes
    var values: map<Bytes, Bytes>
    var field: nat
    var total: nat

    /** The decoder's state as the pure step function sees it. */
    ghost function View(): State
      reads this, matcher
    {
      State(match kind
            case AtInitial => Initial(initial)
            case AtHeaders => InHeaders
            case AtScalar => InScalar(index, matcher.stream)
            case AtReady => IsReady
            case AtPoisoned => IsPoisoned,
            headers, values, field, total)
    }

    ghost predicate Valid()
      reads this, matcher
    {
      && matcher.Valid() && matcher.delimiter == NextDelimiter(boundary)
      && Drives(m, boundary, spec) && Fits(spec, View())
      && (kind == AtScalar ==> value == Delivered(NextDelimiter(boundary), matcher.stream) && |value| <= spec.fields[index].maxBytes)
    }

    constructor (boundary: Boundary, spec: Spec)
      ensures Valid() && fresh(matcher) && this.boundary == boundary && this.spec == spec && View() == START
      ensures m == MachineOf(boundary, spec)
    {
      this.boundary := boundary;
      this.spec := spec;
      m := MachineOf(boundary, spec);
      MachineDrives(boundary, spec);
      initial, kind, index, value := 0, AtInitial, 0, [];
      matcher := new Matcher(NextDelimiter(boundary));
      headers, values, field, total := [], map[], 0, 0;
    }

    /** `push`. The outcome is the one the byte-by-byte meaning gives for this chunk. */
    method Push(input: Bytes) returns (ok: bool, consumed: nat, ready: Option<Ready>)
      requires Valid()
      modifies this, matcher
      ensures Valid() && (matcher == old(matcher) || fresh(matcher))
      ensures !ok ==> View().phase == IsPoisoned
      ensures ok && ready.None? ==> View().phase !in {IsReady, IsPoisoned}
      ensures var admitted := |input| <= TRANSFER_BUFFER_BYTES && old(View()).phase !in {IsReady, IsPoisoned};
              ok <==> admitted && !Run(m, old(View()), input).Rejected?
      ensures ok ==>
        match Run(m, old(View()), input)
        case Rejected => false
        case More(st) => ready.None? && consumed == |input| && View() == st
        case Complete(n, r) => ready == Some(r) && consumed == n && View().phase == IsReady
    {
      ok, consumed, ready := false, 0, None;
      if |input| <= TRANSFER_BUFFER_BYTES && kind != AtReady && kind != AtPoisoned {
        ok, consumed, ready := PushBytes(input);
      }
      if !ok {
        kind := AtPoisoned;
      }
    }

    method PushBytes(input: Bytes) returns (ok: bool, consumed: nat, ready: Option<Ready>)
      requires Valid() && kind != AtReady && kind != AtPoisoned
      modifies this, matcher
      ensures Valid() && (matcher == old(matcher) || fresh(matcher))
      ensures ok <==> !Run(m, old(View()), input).Rejected?
      ensures ok && ready.None? ==> View().phase !in {IsReady, IsPoisoned}
      ensures ok ==>
        match Run(m, old(View()), input)
        case Rejected => false
        case More(st) => ready.None? && consumed == |input| && View() == st
        case Complete(n, r) => ready == Some(r) && consumed == n && View().phase == IsReady
    {
      ghost var start := View();
      ok, ready := true, None;
      for i := 0 to |input|
        invariant ok && ready.None? && Valid() && kind != AtReady && kind != AtPoisoned
        invariant matcher == old(matcher) || fresh(matcher)
        invariant Run(m, start, input) == Shift(Run(m, View(), input[i..]), i)
      {
        ghost var here := View();
        RunFrom(m, here, input, i);
        ok, ready := OneByte(input[i]);
        if !ok {
          consumed := 0;
          return;
        }
        if ready.Some? {
          consumed := i + 1;
          return;
        }
      }
      assert input[|input|..] == [];
      consumed := |input|;
    }

    /** The body of the byte loop. */
    method OneByte(b: char) returns (ok: bool, ready: Option<Ready>)
      requires Valid() && kind != AtReady && kind != AtPoisoned
      modifies this, matcher
      ensures Valid() && (matcher == old(matcher) || fresh(matcher))
      ensures ok <==> StepByte(boundary, spec, old(View()), b).Ok?
      ensures ok ==> StepByte(boundary, spec, old(View()), b) == Ok((View(), ready))
    {
      ok, ready := false, None;
      if total + 1 > PREFIX_BYTES {
        return;
      }
      total := total + 1;
      match kind
      case AtInitial => ok := InitialByte(b);
      case AtHeaders => ok, ready := HeaderByte(b);
      case AtScalar => ok := ScalarData(b);
    }

    /** One byte of the first delimiter. */
    method InitialByte(b: char) returns (ok: bool)
      requires Valid() && kind == AtInitial
      modifies this`initial, this`kind
      ensures Valid()
      ensures var d := InitialDelimiter(boundary);
              && ok == (old(initial) < |d| && d[old(initial)] == b)
              && (ok ==> View() == old(View()).(phase := if old(initial) + 1 == |d| then InHeaders else Initial(old(initial) + 1)))
    {
      var d := InitialDelimiter(boundary);
      ok := initial < |d| && d[initial] == b;
      if ok {
        initial := initial + 1;
        if initial == |d| {
          kind := AtHeaders;
        }
      }
    }

    /** One byte of a header block. */
    method HeaderByte(b: char) returns (ok: bool, ready: Option<Ready>)
      requires Valid() && kind == AtHeaders
      modifies this
      ensures Valid() && (matcher == old(matcher) || fresh(matcher))
      ensures var r := HeaderStep(spec, old(View()), b); ok == r.Ok? && (ok ==> r == Ok((View(), ready)))
    {
      ok, ready := |headers| < HEADER_BYTES, None;
      if ok {
        headers := headers + [b];
        if EndsWith(headers, BLANK) {
          ok, ready := EndHeaders();
        }
      }
    }

    /** A complete header block: start the named scalar, or hand over to the file. */
    method EndHeaders() returns (ok: bool, ready: Option<Ready>)
      requires Valid() && kind == AtHeaders && EndsWith(headers, BLANK)
      modifies this
      ensures Valid() && total == old(total) && (matcher == old(matcher) || fresh(matcher))
      ensures var r := HeadersDone(spec, old(View()), old(headers)[..|old(headers)| - 4]);
              ok == r.Ok? && (ok ==> r == Ok((View(), ready)))
    {
      var parsed := spec.parse(headers[..|headers| - 4]);
      ok, ready := false, None;
      if parsed.Err? {
        return;
      }
      var h := parsed.value;
      if h.name == spec.file {
        if Optional(spec, field, |spec.fields|) && h.filename.Some? && (h.filename.value != [] || spec.optional) {
          var filename := if h.filename.value == [] then None else Some(h.filename.value);
          ok, ready := true, Some(Ready(values, filename, if filename.Some? then spec.limit else 0));
          headers, values, kind := [], map[], AtReady;
        }
      } else if h.filename.None? && !h.contentType {
        var next := FieldFrom(spec, field, h.name);
        if next.Some? && Optional(spec, field, next.value) {
          ok := true;
          OpenScalar(next.value);
        }
      }
    }

    /** Start reading the value of a field. */
    method OpenScalar(next: nat)
      requires Valid() && kind == AtHeaders && next < |spec.fields|
      modifies this
      ensures Valid() && fresh(matcher)
      ensures View() == old(View()).(phase := InScalar(next, []), headers := [], field := next + 1)
    {
      headers, field, index, value, kind := [], next + 1, next, [], AtScalar;
      matcher := new Matcher(NextDelimiter(boundary));
      EmptyStream(NextDelimiter(boundary));
      AbsentMeansNone(NextDelimiter(boundary), []);
    }

    /** One byte of a scalar value. */
    method ScalarData(b: char) returns (ok: bool)
      requires Valid() && kind == AtScalar
      modifies this`value, this`values, this`kind, matcher
      ensures Valid()
      ensures var r := ScalarByte(boundary, spec, old(View()), b);
              ok == r.Ok? && (ok ==> r == Ok((View(), None)))
    {
      ghost var st := View();
      AbsentMeansNone(NextDelimiter(boundary), matcher.stream);
      var out, ended := matcher.Byte(b);
      ScalarByteIs(boundary, spec, st, b, out, ended, value);
      ok := TakeValue(st, b, out, ended);
    }

    /** What the matcher released goes to the value; at the delimiter the value is complete. */
    method TakeValue(ghost st: State, ghost b: char, out: Bytes, ended: bool) returns (ok: bool)
      requires matcher.Valid() && matcher.delimiter == NextDelimiter(boundary) && kind == AtScalar && Drives(m, boundary, spec)
      requires st.phase.InScalar? && Fits(spec, st) && st == State(InScalar(index, st.phase.raw), headers, values, field, total)
      requires matcher.stream == if ended then [] else st.phase.raw + [b]
      requires Delivered(NextDelimiter(boundary), st.phase.raw + [b]) == value + out
      requires |value| <= spec.fields[index].maxBytes && (ended ==> value + out == value)
      requires ScalarByte(boundary, spec, st, b) == ScalarResult(spec, st, b, out, ended, value)
      modifies this`value, this`values, this`kind
      ensures Valid()
      ensures var r := ScalarByte(boundary, spec, st, b);
              ok == r.Ok? && (ok ==> r == Ok((View(), None)))
    {
      ok := |value| + |out| <= spec.fields[index].maxBytes && (ended ==> spec.text(value + out));
      if !ok {
        kind := AtPoisoned;
        return;
      }
      value := value + out;
      if ended {
        values := values[spec.fields[index].name := value];
        kind := AtHeaders;
      }
    }
  }

  /** The step of a scalar byte in terms of the value read so far. */
  function ScalarResult(spec: Spec, st: State, b: char, out: Bytes, ended: bool, value: Bytes): Result<(State, Option<Ready>)>
    requires st.phase.InScalar? && st.phase.index < |spec.fields|
  {
    if ended then
      if spec.text(value) then Ok((st.(phase := InHeaders, values := st.values[spec.fields[st.phase.index].name := value]), None))
      else Err
    else if |value| + |out| <= spec.fields[st.phase.index].maxBytes then
      Ok((st.(phase := InScalar(st.phase.index, st.phase.raw + [b])), None))
    else Err
  }

  /** The value so far, before and after one byte. */
  lemma ScalarStep(d: Bytes, raw: Bytes, b: char, out: Bytes, ended: bool)
    requires d != [] && EndOf(d, raw).None?
    requires ended <==> EndsWith(raw + [b], d)
    requires !ended ==> Absent(d, raw + [b])
    requires ended ==> FirstEnd(d, raw + [b], |raw| + 1)
    requires d[..Longest(d, raw)] + [b] == out + d[..if ended then |d| else Longest(d, raw + [b])]
    ensures Delivered(d, raw + [b]) == Delivered(d, raw) + out
    ensures ended ==> out == [] && Delivered(d, raw) == (raw + [b])[..|raw| + 1 - |d|]
    ensures !ended ==> |Delivered(d, raw) + out| == |raw| + 1 - Longest(d, raw + [b])
  {
    DeliveredStep(d, raw, b, out, ended);
    assert |d[..Longest(d, raw)] + [b]| == |out| + (if ended then |d| else Longest(d, raw + [b]));
  }

  /** One scalar byte in terms of the value read so far. */
  lemma ScalarByteIs(boundary: Boundary, spec: Spec, st: State, b: char, out: Bytes, ended: bool, value: Bytes)
    requires st.phase.InScalar? && st.phase.index < |spec.fields|
    requires var d, raw := NextDelimiter(boundary), st.phase.raw;
             && EndOf(d, raw).None? && value == Delivered(d, raw) && |value| <= spec.fields[st.phase.index].maxBytes
             && (ended <==> EndsWith(raw + [b], d))
             && (!ended ==> Absent(d, raw + [b])) && (ended ==> FirstEnd(d, raw + [b], |raw| + 1))
             && d[..Longest(d, raw)] + [b] == out + d[..if ended then |d| else Longest(d, raw + [b])]
    ensures Delivered(NextDelimiter(boundary), st.phase.raw + [b]) == value + out
    ensures ended ==> value + out == value
    ensures ScalarByte(boundary, spec, st, b) == ScalarResult(spec, st, b, out, ended, value)
  {
    ScalarStep(NextDelimiter(boundary), st.phase.raw, b, out, ended);
    if ended {
      ScalarEnds(boundary, spec, st, b, value);
    } else {
      ScalarGoesOn(boundary, spec, st, b, |value + out|);
    }
  }

  lemma ScalarEnds(boundary: Boundary, spec: Spec, st: State, b: char, value: Bytes)
    requires st.phase.InScalar? && st.phase.index < |spec.fields|
    requires EndsWith(st.phase.raw + [b], NextDelimiter(boundary))
    requires value == (st.phase.raw + [b])[..|st.phase.raw| + 1 - |NextDelimiter(boundary)|]
    ensures ScalarByte(boundary, spec, st, b) ==
              if spec.text(value) then Ok((st.(phase := InHeaders, values := st.values[spec.fields[st.phase.index].name := value]), None))
              else Err
  {
  }

  lemma ScalarGoesOn(boundary: Boundary, spec: Spec, st: State, b: char, n: nat)
    requires st.phase.InScalar? && st.phase.index < |spec.fields|
    requires !EndsWith(st.phase.raw + [b], NextDelimiter(boundary))
    requires n == |st.phase.raw| + 1 - Longest(NextDelimiter(boundary), st.phase.raw + [b])
    ensures ScalarByte(boundary, spec, st, b) ==
              if n <= spec.fields[st.phase.index].maxBytes
              then Ok((st.(phase := InScalar(st.phase.index, st.phase.raw + [b])), None)) else Err
  {
  }

  datatype Kind = AtInitial | AtHeaders | AtScalar | AtReady | AtPoisoned
}
