/** What every prefix run that becomes ready has read. */
module MultipartReadiness {
  import opened Prelude
  import opened MultipartDelimiter
  import opened MultipartHeaders
  import opened MultipartPrefix
  import opened MultipartForms

  /** The fields whose parts a run opens, in the order they arrive. */
  function Opened(m: Machine, st: State, input: Bytes): seq<nat>
    decreases |input|
  {
    if input == [] then []
    else
      match m(st, input[0])
      case Err => []
      case Ok(next) =>
        Now(st, next.0) + (if next.1.Some? then [] else Opened(m, next.0, input[1..]))
  }

  predicate Increasing(s: seq<nat>) {
    forall i, j :: 0 <= i < j < |s| ==> s[i] < s[j]
  }

  predicate Names(spec: Spec, done: seq<nat>, names: set<Bytes>) {
    && (forall k :: 0 <= k < |done| ==> done[k] < |spec.fields| && spec.fields[done[k]].name in names)
    && (forall name :: name in names ==> exists k :: 0 <= k < |done| && done[k] < |spec.fields| && spec.fields[done[k]].name == name)
  }

  predicate WithinLimits(spec: Spec, values: map<Bytes, Bytes>) {
    forall i :: 0 <= i < |spec.fields| && spec.fields[i].name in values ==>
      |values[spec.fields[i].name]| <= spec.fields[i].maxBytes && spec.text(values[spec.fields[i].name])
  }

  /** Parts in schema order, none twice, none required missing, and their values. */
  predicate InOrder(spec: Spec, done: seq<nat>, values: map<Bytes, Bytes>) {
    && Increasing(done)
    && (forall i :: 0 <= i < |spec.fields| && spec.fields[i].required ==> i in done)
    && Names(spec, done, values.Keys)
    && WithinLimits(spec, values)
  }

  /** The parts opened so far are in order, and no required field was passed over. */
  predicate Passed(spec: Spec, field: nat, done: seq<nat>)
    requires field <= |spec.fields|
  {
    && Increasing(done)
    && (forall k :: 0 <= k < |done| ==> done[k] < field)
    && (forall i :: 0 <= i < field && spec.fields[i].required ==> i in done)
  }

  function NamesRead(spec: Spec, st: State): set<Bytes>
    requires Fits(spec, st)
  {
    if st.phase.InScalar? then st.values.Keys + {spec.fields[st.phase.index].name} else st.values.Keys
  }

  predicate HeldWithin(boundary: Boundary, spec: Spec, st: State)
    requires Fits(spec, st)
  {
    st.phase.InScalar? ==> |st.phase.raw| - Longest(NextDelimiter(boundary), st.phase.raw) <= spec.fields[st.phase.index].maxBytes
  }

  predicate Progress(boundary: Boundary, spec: Spec, st: State, done: seq<nat>) {
    && Fits(spec, st)
    && Passed(spec, st.field, done)
    && Names(spec, done, NamesRead(spec, st))
    && WithinLimits(spec, st.values)
    && HeldWithin(boundary, spec, st)
  }

  lemma HeadersOpen(spec: Spec, st: State, text: Bytes)
    requires Fits(spec, st) && st.phase == InHeaders
    ensures var r := HeadersDone(spec, st, text);
            && (r.Ok? && r.value.1.None? ==>
                  var next := r.value.0;
                  && next.phase.InScalar? && next.phase.raw == []
                  && st.field <= next.phase.index < |spec.fields| && Optional(spec, st.field, next.phase.index)
                  && next.field == next.phase.index + 1 && next.values == st.values)
            && (r.Ok? && r.value.1.Some? ==>
                  r.value.0.phase == IsReady && Optional(spec, st.field, |spec.fields|) && r.value.1.value.values == st.values)
  {
  }

  lemma PassedGrows(spec: Spec, field: nat, done: seq<nat>, i: nat)
    requires field <= i < |spec.fields| && Passed(spec, field, done) && Optional(spec, field, i)
    ensures Passed(spec, i + 1, done + [i])
  {
    var more := done + [i];
    assert more[|done|] == i;
    assert forall k :: 0 <= k < |done| ==> more[k] == done[k];
  }

  lemma HeadersProgress(boundary: Boundary, spec: Spec, st: State, text: Bytes, done: seq<nat>)
    requires AdmittedSpec(spec) && st.phase == InHeaders && Progress(boundary, spec, st, done)
    ensures var r := HeadersDone(spec, st, text);
            && (r.Ok? && r.value.1.None? ==>
                  r.value.0.phase.InScalar? && Progress(boundary, spec, r.value.0, done + [r.value.0.phase.index]))
            && (r.Ok? && r.value.1.Some? ==> r.value.0.phase == IsReady && InOrder(spec, done, r.value.1.value.values))
  {
    HeadersOpen(spec, st, text);
    var r := HeadersDone(spec, st, text);
    if r.Ok? && r.value.1.None? {
      Opening(boundary, spec, st, r.value.0, done);
    }
  }

  lemma Opening(boundary: Boundary, spec: Spec, st: State, next: State, done: seq<nat>)
    requires Progress(boundary, spec, st, done) && st.phase == InHeaders
    requires next.phase.InScalar? && next.phase.raw == []
    requires st.field <= next.phase.index < |spec.fields| && Optional(spec, st.field, next.phase.index)
    requires next.field == next.phase.index + 1 && next.values == st.values
    ensures Progress(boundary, spec, next, done + [next.phase.index])
  {
    PassedGrows(spec, st.field, done, next.phase.index);
    NamesGrow(spec, done, st.values.Keys, next.phase.index);
  }

  lemma NamesGrow(spec: Spec, done: seq<nat>, names: set<Bytes>, i: nat)
    requires Names(spec, done, names) && i < |spec.fields|
    ensures Names(spec, done + [i], names + {spec.fields[i].name})
  {
    var more := done + [i];
    forall name | name in names
      ensures exists k :: 0 <= k < |more| && more[k] < |spec.fields| && spec.fields[more[k]].name == name
    {
      var k :| 0 <= k < |done| && done[k] < |spec.fields| && spec.fields[done[k]].name == name;
      assert more[k] == done[k];
    }
    assert more[|done|] == i;
  }

  lemma ScalarProgress(boundary: Boundary, spec: Spec, st: State, b: char, done: seq<nat>)
    requires AdmittedSpec(spec) && st.phase.InScalar? && Progress(boundary, spec, st, done)
    ensures var r := ScalarByte(boundary, spec, st, b);
            r.Ok? ==> r.value.1.None? && Progress(boundary, spec, r.value.0, done)
  {
    var d := NextDelimiter(boundary);
    var raw := st.phase.raw + [b];
    if EndsWith(raw, d) {
      EndingValue(d, st.phase.raw, b);
      var value := raw[..|raw| - |d|];
      ScalarEnds(boundary, spec, st, b, value);
      if spec.text(value) {
        ValueRead(boundary, spec, st, value, done);
      }
    } else {
      var n := |raw| - Longest(d, raw);
      ScalarGoesOn(boundary, spec, st, b, n);
      if n <= spec.fields[st.phase.index].maxBytes {
        RawRead(boundary, spec, st, raw, done);
      }
    }
  }

  lemma RawRead(boundary: Boundary, spec: Spec, st: State, raw: Bytes, done: seq<nat>)
    requires st.phase.InScalar? && Progress(boundary, spec, st, done)
    requires |raw| - Longest(NextDelimiter(boundary), raw) <= spec.fields[st.phase.index].maxBytes
    ensures Progress(boundary, spec, st.(phase := InScalar(st.phase.index, raw)), done)
  {
  }

  lemma ValueRead(boundary: Boundary, spec: Spec, st: State, value: Bytes, done: seq<nat>)
    requires AdmittedSpec(spec) && st.phase.InScalar? && Progress(boundary, spec, st, done)
    requires spec.text(value) && |value| <= spec.fields[st.phase.index].maxBytes
    ensures Progress(boundary, spec, st.(phase := InHeaders, values := st.values[spec.fields[st.phase.index].name := value]), done)
  {
    var name := spec.fields[st.phase.index].name;
    assert st.values[name := value].Keys == st.values.Keys + {name};
    LimitsKept(spec, st.values, st.phase.index, value);
  }

  lemma LimitsKept(spec: Spec, values: map<Bytes, Bytes>, index: nat, value: Bytes)
    requires AdmittedSpec(spec) && index < |spec.fields| && WithinLimits(spec, values)
    requires spec.text(value) && |value| <= spec.fields[index].maxBytes
    ensures WithinLimits(spec, values[spec.fields[index].name := value])
  {
  }

  /** When the delimiter completes, all of it but the last byte was being held. */
  lemma EndingValue(d: Bytes, raw: Bytes, b: char)
    requires d != [] && EndsWith(raw + [b], d)
    ensures |raw| + 1 - |d| <= |raw| - Longest(d, raw)
  {
    assert Longest(d, raw) <= |d| - 1;
  }

  /** Neither a part nor a value begins or ends. */
  predicate Quiet(st: State, next: State) {
    next.field == st.field && next.values == st.values && !st.phase.InScalar? && !next.phase.InScalar?
  }

  lemma StepCases(boundary: Boundary, spec: Spec, st: State, b: char)
    requires Fits(spec, st)
    ensures var r := StepByte(boundary, spec, st, b);
            var text := st.headers + [b];
            var counted := st.(total := st.total + 1);
            r.Ok? ==>
              if st.phase.InScalar? then r == ScalarByte(boundary, spec, counted, b)
              else if st.phase == InHeaders && EndsWith(text, BLANK) then r == HeadersDone(spec, counted, text[..|text| - 4])
              else r.value.1.None? && Quiet(st, r.value.0)
  {
  }

  lemma QuietProgress(boundary: Boundary, spec: Spec, st: State, next: State, done: seq<nat>)
    requires Progress(boundary, spec, st, done) && Fits(spec, next) && Quiet(st, next)
    ensures Progress(boundary, spec, next, done)
  {
  }

  /** The field a step opens, if it opens one. */
  function Now(st: State, next: State): seq<nat> {
    if st.phase == InHeaders && next.phase.InScalar? then [next.phase.index] else []
  }

  lemma StepProgress(boundary: Boundary, spec: Spec, st: State, b: char, done: seq<nat>)
    requires AdmittedSpec(spec) && Progress(boundary, spec, st, done)
    ensures var r := StepByte(boundary, spec, st, b);
            && (r.Ok? && r.value.1.Some? ==> InOrder(spec, done, r.value.1.value.values) && Now(st, r.value.0) == [])
            && (r.Ok? && r.value.1.None? ==> Progress(boundary, spec, r.value.0, done + Now(st, r.value.0)))
  {
    assert done + [] == done;
    StepCases(boundary, spec, st, b);
    var r := StepByte(boundary, spec, st, b);
    if r.Ok? {
      var text := st.headers + [b];
      var counted := st.(total := st.total + 1);
      assert Progress(boundary, spec, counted, done);
      if st.phase.InScalar? {
        ScalarProgress(boundary, spec, counted, b, done);
      } else if st.phase == InHeaders && EndsWith(text, BLANK) {
        HeadersProgress(boundary, spec, counted, text[..|text| - 4], done);
      } else {
        QuietProgress(boundary, spec, st, r.value.0, done);
      }
    }
  }

  predicate OrderedRun(m: Machine, spec: Spec, st: State, input: Bytes, done: seq<nat>) {
    var f := Run(m, st, input);
    f.Complete? ==> InOrder(spec, done + Opened(m, st, input), f.ready.values)
  }

  lemma RunStep(m: Machine, spec: Spec, st: State, input: Bytes, done: seq<nat>, next: State)
    requires input != [] && m(st, input[0]) == Ok((next, None))
    requires OrderedRun(m, spec, next, input[1..], done + Now(st, next))
    ensures OrderedRun(m, spec, st, input, done)
  {
    var rest := Opened(m, next, input[1..]);
    assert Opened(m, st, input) == Now(st, next) + rest;
    assert (done + Now(st, next)) + rest == done + (Now(st, next) + rest);
  }

  lemma RunEnd(m: Machine, spec: Spec, st: State, input: Bytes, done: seq<nat>)
    requires input == [] || m(st, input[0]).Err? ||
      var r := m(st, input[0]).value;
      r.1.Some? && Now(st, r.0) == [] && InOrder(spec, done, r.1.value.values)
    ensures OrderedRun(m, spec, st, input, done)
  {
    assert done + [] == done;
  }

  lemma {:induction false} ReadyRun(m: Machine, boundary: Boundary, spec: Spec, st: State, input: Bytes, done: seq<nat>)
    requires Drives(m, boundary, spec) && AdmittedSpec(spec) && Progress(boundary, spec, st, done)
    ensures OrderedRun(m, spec, st, input, done)
    decreases |input|
  {
    if input == [] {
      RunEnd(m, spec, st, input, done);
    } else {
      var r := m(st, input[0]);
      StepProgress(boundary, spec, st, input[0], done);
      assert r == StepByte(boundary, spec, st, input[0]);
      if r.Ok? && r.value.1.None? {
        ReadyRun(m, boundary, spec, r.value.0, input[1..], done + Now(st, r.value.0));
        RunStep(m, spec, st, input, done, r.value.0);
      } else {
        RunEnd(m, spec, st, input, done);
      }
    }
  }

  /** Every run that becomes ready opened its fields in schema order, none twice and no required
      one missing, and its map has exactly their values, each text within the field's limit. */
  lemma ReadyIsInOrder(boundary: Boundary, spec: Spec, input: Bytes)
    requires AdmittedSpec(spec)
    ensures var outcome := Meaning(boundary, spec, input);
            outcome.Finished? ==> InOrder(spec, Opened(MachineOf(boundary, spec), START, input), outcome.ready.values)
  {
    MachineDrives(boundary, spec);
    ReadyFromStart(MachineOf(boundary, spec), boundary, spec, input);
  }

  lemma ReadyFromStart(m: Machine, boundary: Boundary, spec: Spec, input: Bytes)
    requires Drives(m, boundary, spec) && AdmittedSpec(spec)
    ensures var f := Run(m, START, input); f.Complete? ==> InOrder(spec, Opened(m, START, input), f.ready.values)
  {
    ReadyRun(m, boundary, spec, START, input, []);
    assert [] + Opened(m, START, input) == Opened(m, START, input);
  }
}
