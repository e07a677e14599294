/** Rendered forms are read back exactly, whatever the chunking. */
module MultipartForms {
  import opened Prelude
  import opened Chunks
  import opened MultipartDelimiter
  import opened MultipartHeaders
  import opened MultipartFile
  import opened MultipartPrefix

  // ----- chunking -----

  datatype Outcome = Failed | Truncated | Finished(consumed: nat, ready: Ready)

  function OutcomeOf(f: Fed): Outcome {
    match f
    case Rejected => Failed
    case More(_) => Truncated
    case Complete(n, r) => Finished(n, r)
  }

  /** What a whole input means to the decoder. */
  function Meaning(boundary: Boundary, spec: Spec, input: Bytes): Outcome {
    OutcomeOf(Run(MachineOf(boundary, spec), START, input))
  }

  /** What one more chunk does to the run so far. */
  lemma NextChunk(m: Machine, chunks: seq<Bytes>, i: nat, st: State)
    requires i < |chunks| && Run(m, START, Concat(chunks[..i])) == More(st)
    ensures |Concat(chunks[..i + 1])| == |Concat(chunks[..i])| + |chunks[i]|
    ensures var f := Shift(Run(m, st, chunks[i]), |Concat(chunks[..i])|);
            && Run(m, START, Concat(chunks[..i + 1])) == f
            && (!f.More? ==> Run(m, START, Concat(chunks)) == f)
  {
    ConcatNext(chunks, i);
    ConcatCut(chunks, i + 1);
    var seen := Concat(chunks[..i]);
    RunSplits(m, START, seen, chunks[i]);
    RunSplits(m, START, seen + chunks[i], Concat(chunks[i + 1..]));
  }

  lemma RestOfChunks(chunks: seq<Bytes>, i: nat, n: nat)
    requires i < |chunks| && n <= |chunks[i]|
    ensures |Concat(chunks[..i])| + n <= |Concat(chunks)|
    ensures Concat(chunks)[|Concat(chunks[..i])| + n..] == chunks[i][n..] + Concat(chunks[i + 1..])
  {
    ConcatNext(chunks, i);
    ConcatCut(chunks, i + 1);
  }

  /** `read_prefix`: push chunk after chunk until the prefix is ready. For every chunking the
      outcome is the one the whole input has, and `rest` starts at the first file byte. */
  method ReadPrefix(boundary: Boundary, spec: Spec, chunks: seq<Bytes>) returns (r: Outcome, at: nat, rest: Bytes)
    requires forall i :: 0 <= i < |chunks| ==> |chunks[i]| <= TRANSFER_BUFFER_BYTES
    ensures r == Meaning(boundary, spec, Concat(chunks))
    ensures r.Finished? ==> at < |chunks| && |rest| <= TRANSFER_BUFFER_BYTES
    ensures r.Finished? ==> rest + Concat(chunks[at + 1..]) == Concat(chunks)[r.consumed..]
  {
    var decoder := new PrefixDecoder(boundary, spec);
    r, at, rest := PushAll(decoder, chunks);
  }

  /** Chunk after chunk into a new decoder. */
  method PushAll(decoder: PrefixDecoder, chunks: seq<Bytes>) returns (r: Outcome, at: nat, rest: Bytes)
    requires decoder.Valid() && decoder.View() == START
    requires forall i :: 0 <= i < |chunks| ==> |chunks[i]| <= TRANSFER_BUFFER_BYTES
    modifies decoder, decoder.matcher
    ensures r == OutcomeOf(Run(decoder.m, START, Concat(chunks)))
    ensures r.Finished? ==> at < |chunks| && |rest| <= TRANSFER_BUFFER_BYTES
    ensures r.Finished? ==> rest + Concat(chunks[at + 1..]) == Concat(chunks)[r.consumed..]
  {
    var read := 0;
    for i := 0 to |chunks|
      invariant decoder.Valid() && (decoder.matcher == old(decoder.matcher) || fresh(decoder.matcher))
      invariant decoder.View().phase !in {IsReady, IsPoisoned}
      invariant read == |Concat(chunks[..i])|
      invariant Run(decoder.m, START, Concat(chunks[..i])) == More(decoder.View())
    {
      NextChunk(decoder.m, chunks, i, decoder.View());
      assert |chunks[i]| <= TRANSFER_BUFFER_BYTES;
      var ok, consumed, ready := decoder.Push(chunks[i]);
      if !ok {
        return Failed, i, [];
      }
      if ready.Some? {
        r := Finished(read + consumed, ready.value);
        at, rest := i, chunks[i][consumed..];
        RestOfChunks(chunks, i, consumed);
        return;
      }
      read := read + |chunks[i]|;
    }
    assert chunks[..|chunks|] == chunks;
    r, at, rest := Truncated, |chunks|, [];
  }

  // ----- rendering -----

  /** What a form sends: a value or nothing per scalar field, and the file part's header. */
  datatype Form = Form(entries: seq<Option<Bytes>>, filename: Bytes, media: Option<Bytes>)

  function RenderPart(boundary: Boundary, name: Bytes, value: Bytes): Bytes {
    (ScalarHeader(name) + BLANK) + (value + NextDelimiter(boundary))
  }

  function RenderFrom(boundary: Boundary, spec: Spec, entries: seq<Option<Bytes>>, i: nat): Bytes
    requires |entries| == |spec.fields| && i <= |entries|
    decreases |entries| - i
  {
    if i == |entries| then []
    else
      (if entries[i].None? then [] else RenderPart(boundary, spec.fields[i].name, entries[i].value))
      + RenderFrom(boundary, spec, entries, i + 1)
  }

  function Render(boundary: Boundary, spec: Spec, form: Form): Bytes
    requires |form.entries| == |spec.fields|
  {
    InitialDelimiter(boundary)
    + (RenderFrom(boundary, spec, form.entries, 0) + (FileHeader(spec.file, form.filename, form.media) + BLANK))
  }

  /** The value cannot complete the delimiter early. */
  predicate Clean(boundary: Boundary, value: Bytes) {
    FirstEnd(NextDelimiter(boundary), value + NextDelimiter(boundary), |value| + |NextDelimiter(boundary)|)
  }

  predicate SendableEntry(boundary: Boundary, spec: Spec, field: ScalarPart, entry: Option<Bytes>) {
    && (field.required ==> entry.Some?)
    && (entry.Some? ==> |entry.value| <= field.maxBytes && spec.text(entry.value) && Clean(boundary, entry.value))
  }

  /** A form the schema admits. */
  predicate Sendable(boundary: Boundary, spec: Spec, form: Form) {
    Admissible(boundary, spec, form) && |Render(boundary, spec, form)| <= PREFIX_BYTES
  }

  predicate Admissible(boundary: Boundary, spec: Spec, form: Form) {
    && |form.entries| == |spec.fields|
    && (forall i :: 0 <= i < |spec.fields| ==> SendableEntry(boundary, spec, spec.fields[i], form.entries[i]))
    && SendableFilename(form.filename)
    && (form.filename == [] ==> spec.optional)
    && (form.media.Some? ==> SendableMedia(form.media.value))
  }

  /** The values of the first `i` fields. */
  function ValuesUpTo(spec: Spec, entries: seq<Option<Bytes>>, i: nat): map<Bytes, Bytes>
    requires |entries| == |spec.fields| && i <= |entries|
  {
    if i == 0 then map[]
    else
      var before := ValuesUpTo(spec, entries, i - 1);
      if entries[i - 1].None? then before else before[spec.fields[i - 1].name := entries[i - 1].value]
  }

  // ----- decoding a rendering -----

  /** One more byte at the end of a run. */
  lemma RunLast(m: Machine, st: State, raw: Bytes, mid: State)
    requires raw != [] && Run(m, st, raw[..|raw| - 1]) == More(mid)
    ensures Run(m, st, raw) ==
              match m(mid, raw[|raw| - 1])
              case Err => Rejected
              case Ok(next) => if next.1.Some? then Complete(|raw|, next.1.value) else More(next.0)
  {
    var n := |raw| - 1;
    assert raw == raw[..n] + raw[n..];
    RunSplits(m, st, raw[..n], raw[n..]);
    RunFrom(m, mid, raw, n);
    assert raw[n + 1..] == [];
  }

  lemma {:induction false} FeedInitial(m: Machine, boundary: Boundary, spec: Spec, k: nat)
    requires Drives(m, boundary, spec) && k <= |InitialDelimiter(boundary)| <= PREFIX_BYTES
    ensures var d := InitialDelimiter(boundary);
            Run(m, START, d[..k]) ==
              More(START.(phase := if k == |d| then InHeaders else Initial(k), total := k))
  {
    var d := InitialDelimiter(boundary);
    if k > 0 {
      FeedInitial(m, boundary, spec, k - 1);
      var mid := START.(phase := Initial(k - 1), total := k - 1);
      InitialStep(boundary, spec, mid, d[k - 1]);
      assert d[..k][..k - 1] == d[..k - 1];
      RunLast(m, START, d[..k], mid);
    }
  }

  lemma InitialStep(boundary: Boundary, spec: Spec, st: State, b: char)
    requires Fits(spec, st) && st.phase.Initial? && st.phase.cursor < |InitialDelimiter(boundary)| && st.total < PREFIX_BYTES
    requires InitialDelimiter(boundary)[st.phase.cursor] == b
    ensures var k := st.phase.cursor + 1;
            StepByte(boundary, spec, st, b)
            == Ok((st.(phase := if k == |InitialDelimiter(boundary)| then InHeaders else Initial(k), total := st.total + 1), None))
  {
  }

  /** A header block whose blank line comes last. */
  predicate Block(text: Bytes) {
    && 4 <= |text| <= HEADER_BYTES
    && EndsWith(text, BLANK)
    && (forall j :: 0 <= j < |text| ==> !EndsWith(text[..j], BLANK))
  }

  lemma {:induction false} FeedBlockPrefix(m: Machine, boundary: Boundary, spec: Spec, st: State, text: Bytes, k: nat)
    requires Drives(m, boundary, spec) && Fits(spec, st) && st.phase == InHeaders && st.headers == []
    requires Block(text) && k < |text| && st.total + |text| <= PREFIX_BYTES
    ensures Run(m, st, text[..k]) == More(st.(headers := text[..k], total := st.total + k))
  {
    if k > 0 {
      FeedBlockPrefix(m, boundary, spec, st, text, k - 1);
      var mid := st.(headers := text[..k - 1], total := st.total + k - 1);
      HeaderInside(boundary, spec, mid, text[..k]);
      assert text[..k][..k - 1] == text[..k - 1];
      RunLast(m, st, text[..k], mid);
    }
  }

  lemma HeaderInside(boundary: Boundary, spec: Spec, st: State, text: Bytes)
    requires Fits(spec, st) && st.phase == InHeaders && 0 < |text| <= HEADER_BYTES && st.headers == text[..|text| - 1]
    requires !EndsWith(text, BLANK) && st.total < PREFIX_BYTES
    ensures StepByte(boundary, spec, st, text[|text| - 1]) == Ok((st.(headers := text, total := st.total + 1), None))
  {
    assert text == st.headers + [text[|text| - 1]];
  }

  lemma BlankStep(boundary: Boundary, spec: Spec, st: State, text: Bytes)
    requires Fits(spec, st) && st.phase == InHeaders && 4 <= |text| <= HEADER_BYTES && st.headers == text[..|text| - 1]
    requires EndsWith(text, BLANK) && st.total < PREFIX_BYTES
    ensures StepByte(boundary, spec, st, text[|text| - 1])
            == HeadersDone(spec, st.(total := st.total + 1), text[..|text| - 4])
  {
    assert text == st.headers + [text[|text| - 1]];
  }

  lemma FeedBlock(m: Machine, boundary: Boundary, spec: Spec, st: State, text: Bytes)
    requires Drives(m, boundary, spec) && Fits(spec, st) && st.phase == InHeaders && st.headers == []
    requires Block(text) && st.total + |text| <= PREFIX_BYTES
    ensures var done := HeadersDone(spec, st.(headers := text[..|text| - 1], total := st.total + |text|), text[..|text| - 4]);
            Run(m, st, text) ==
              match done
              case Err => Rejected
              case Ok(next) => if next.1.Some? then Complete(|text|, next.1.value) else More(next.0)
  {
    var n := |text| - 1;
    FeedBlockPrefix(m, boundary, spec, st, text, n);
    var mid := st.(headers := text[..n], total := st.total + n);
    RunLast(m, st, text, mid);
    BlankStep(boundary, spec, mid, text);
    assert mid.(total := mid.total + 1) == st.(headers := text[..n], total := st.total + |text|);
  }

  lemma ScalarStepInside(boundary: Boundary, spec: Spec, st: State, i: nat, raw: Bytes)
    requires Fits(spec, st) && raw != [] && st.phase == InScalar(i, raw[..|raw| - 1]) && st.total < PREFIX_BYTES
    requires !EndsWith(raw, NextDelimiter(boundary))
    requires |raw| - Longest(NextDelimiter(boundary), raw) <= spec.fields[i].maxBytes
    ensures StepByte(boundary, spec, st, raw[|raw| - 1]) == Ok((st.(phase := InScalar(i, raw), total := st.total + 1), None))
  {
    assert raw == raw[..|raw| - 1] + [raw[|raw| - 1]];
  }

  lemma ScalarStepEnds(boundary: Boundary, spec: Spec, st: State, i: nat, raw: Bytes, value: Bytes)
    requires Fits(spec, st) && raw != [] && st.phase == InScalar(i, raw[..|raw| - 1]) && st.total < PREFIX_BYTES
    requires raw == value + NextDelimiter(boundary) && spec.text(value)
    ensures StepByte(boundary, spec, st, raw[|raw| - 1])
            == Ok((st.(phase := InHeaders, values := st.values[spec.fields[i].name := value], total := st.total + 1), None))
  {
    assert raw == raw[..|raw| - 1] + [raw[|raw| - 1]];
    assert raw[..|raw| - |NextDelimiter(boundary)|] == value;
    assert EndsWith(raw, NextDelimiter(boundary));
  }

  /** A value still being read, within its limit. */
  predicate Inside(boundary: Boundary, max: nat, raw: Bytes) {
    !EndsWith(raw, NextDelimiter(boundary)) && |raw| - Longest(NextDelimiter(boundary), raw) <= max
  }

  function Reading(st: State, i: nat, raw: Bytes): State {
    st.(phase := InScalar(i, raw), total := st.total + |raw|)
  }

  predicate Reads(m: Machine, st: State, i: nat, raw: Bytes) {
    Run(m, st, raw) == More(Reading(st, i, raw))
  }

  lemma ReadsNothing(m: Machine, st: State, i: nat)
    requires st.phase == InScalar(i, [])
    ensures Reads(m, st, i, [])
  {
  }

  lemma ReadsByte(m: Machine, boundary: Boundary, spec: Spec, st: State, i: nat, raw: Bytes)
    requires Drives(m, boundary, spec) && Fits(spec, st) && i < |spec.fields| && raw != [] && st.total + |raw| <= PREFIX_BYTES
    requires Reads(m, st, i, raw[..|raw| - 1])
    requires Inside(boundary, spec.fields[i].maxBytes, raw)
    ensures Reads(m, st, i, raw)
  {
    var mid := Reading(st, i, raw[..|raw| - 1]);
    RunLast(m, st, raw, mid);
    ScalarStepInside(boundary, spec, mid, i, raw);
  }

  predicate StaysInside(boundary: Boundary, max: nat, s: Bytes) {
    Inside(boundary, max, s) && (s == [] || StaysInside(boundary, max, s[..|s| - 1]))
  }

  lemma {:induction false} PrefixesStayInside(boundary: Boundary, max: nat, s: Bytes)
    requires forall j :: 0 <= j <= |s| ==> Inside(boundary, max, s[..j])
    ensures StaysInside(boundary, max, s)
  {
    assert s[..|s|] == s;
    if s != [] {
      var shorter := s[..|s| - 1];
      assert forall j :: 0 <= j <= |shorter| ==> shorter[..j] == s[..j];
      PrefixesStayInside(boundary, max, shorter);
    }
  }

  lemma {:induction false} FeedRaw(m: Machine, boundary: Boundary, spec: Spec, st: State, i: nat, raw: Bytes)
    requires Drives(m, boundary, spec) && Fits(spec, st) && st.phase == InScalar(i, []) && st.total + |raw| <= PREFIX_BYTES
    requires StaysInside(boundary, spec.fields[i].maxBytes, raw)
    ensures Reads(m, st, i, raw)
  {
    if raw == [] {
      ReadsNothing(m, st, i);
    } else {
      FeedRaw(m, boundary, spec, st, i, raw[..|raw| - 1]);
      ReadsByte(m, boundary, spec, st, i, raw);
    }
  }

  lemma FeedScalarPrefix(m: Machine, boundary: Boundary, spec: Spec, st: State, i: nat, value: Bytes, k: nat)
    requires Drives(m, boundary, spec) && Fits(spec, st) && st.phase == InScalar(i, []) && |value| <= spec.fields[i].maxBytes
    requires Clean(boundary, value) && k < |value + NextDelimiter(boundary)|
    requires st.total + |value + NextDelimiter(boundary)| <= PREFIX_BYTES
    ensures var s := value + NextDelimiter(boundary);
            Reads(m, st, i, s[..k])
  {
    var s := value + NextDelimiter(boundary);
    forall j | 0 <= j <= k ensures Inside(boundary, spec.fields[i].maxBytes, s[..j]) {
      HeldWithinValue(NextDelimiter(boundary), value, j);
    }
    assert forall j :: 0 <= j <= k ==> s[..k][..j] == s[..j];
    PrefixesStayInside(boundary, spec.fields[i].maxBytes, s[..k]);
    FeedRaw(m, boundary, spec, st, i, s[..k]);
  }

  /** While the delimiter is incomplete, no more than the value has been read. */
  lemma HeldWithinValue(d: Bytes, value: Bytes, k: nat)
    requires d != [] && FirstEnd(d, value + d, |value| + |d|) && k < |value + d|
    ensures !EndsWith((value + d)[..k], d)
    ensures k - Longest(d, (value + d)[..k]) <= |value|
  {
    var s := value + d;
    EarlierIsAbsent(d, s, k);
    AbsentMeansNone(d, s[..k]);
    FirstEndIsUnique(d, s, |s|);
    assert s[..k] + s[k..] == s;
    DeliveredGrows(d, s[..k], s[k..]);
    assert |Delivered(d, s[..k])| == k - Longest(d, s[..k]) && |Delivered(d, s)| == |value|;
  }

  lemma EarlierIsAbsent(d: Bytes, s: Bytes, k: nat)
    requires FirstEnd(d, s, |s|) && k < |s|
    ensures Absent(d, s[..k]) && !EndsWith(s[..k], d)
  {
    forall e | 0 <= e <= k ensures !EndsWith(s[..k][..e], d) {
      assert s[..k][..e] == s[..e];
    }
  }

  lemma FeedScalar(m: Machine, boundary: Boundary, spec: Spec, st: State, i: nat, value: Bytes)
    requires Drives(m, boundary, spec) && Fits(spec, st) && st.phase == InScalar(i, []) && |value| <= spec.fields[i].maxBytes
    requires Clean(boundary, value) && spec.text(value)
    requires st.total + |value + NextDelimiter(boundary)| <= PREFIX_BYTES
    ensures Run(m, st, value + NextDelimiter(boundary)) ==
              More(st.(phase := InHeaders, values := st.values[spec.fields[i].name := value],
                       total := st.total + |value + NextDelimiter(boundary)|))
  {
    var s := value + NextDelimiter(boundary);
    FeedScalarPrefix(m, boundary, spec, st, i, value, |s| - 1);
    ScalarCompletes(m, boundary, spec, st, i, s, value);
  }

  lemma ScalarCompletes(m: Machine, boundary: Boundary, spec: Spec, st: State, i: nat, raw: Bytes, value: Bytes)
    requires Drives(m, boundary, spec) && Fits(spec, st) && i < |spec.fields| && raw != [] && st.total + |raw| <= PREFIX_BYTES
    requires Reads(m, st, i, raw[..|raw| - 1])
    requires raw == value + NextDelimiter(boundary) && spec.text(value)
    ensures Run(m, st, raw) ==
              More(st.(phase := InHeaders, values := st.values[spec.fields[i].name := value], total := st.total + |raw|))
  {
    var mid := Reading(st, i, raw[..|raw| - 1]);
    RunLast(m, st, raw, mid);
    ScalarStepEnds(boundary, spec, mid, i, raw, value);
  }

  /** No blank line begins inside the text. */
  predicate OneBlock(text: Bytes) {
    forall p :: 0 <= p < |text| ==> (text + BLANK)[p] != '\r' || (text + BLANK)[p + 2] != '\r'
  }

  lemma TextIsBlock(text: Bytes)
    requires OneBlock(text) && |text| + 4 <= HEADER_BYTES
    ensures Block(text + BLANK)
  {
    var s := text + BLANK;
    forall j | 0 <= j < |s| ensures !EndsWith(s[..j], BLANK) {
      if j >= 4 {
        var tail := s[..j][j - 4..];
        assert tail[0] == s[j - 4] && tail[2] == s[j - 4 + 2];
        assert s[j - 4] != BLANK[0] || s[j - 4 + 2] != BLANK[2];
      }
    }
  }

  lemma PlainIsOneBlock(text: Bytes)
    requires AllPlain(text)
    ensures OneBlock(text)
  {
  }

  lemma TwoLinesAreOneBlock(first: Bytes, second: Bytes)
    requires AllPlain(first) && AllPlain(second) && second != []
    ensures OneBlock(first + CRLF + second)
  {
    var text := first + CRLF + second;
    assert text[|first|] == '\r' && text[|first| + 1] == '\n' && text[|first| + 2] == second[0];
    forall p | 0 <= p < |text| ensures (text + BLANK)[p] != '\r' || (text + BLANK)[p + 2] != '\r' {
      if p < |first| {
        assert text[p] == first[p];
      } else if p >= |first| + 2 {
        assert text[p] == second[p - |first| - 2];
      }
    }
  }

  lemma ScalarBlock(name: Bytes)
    requires PartName(name)
    ensures Block(ScalarHeader(name) + BLANK)
  {
    ScalarHeaderReads(name);
    PlainIsOneBlock(ScalarHeader(name));
    TextIsBlock(ScalarHeader(name));
  }

  lemma {:induction false} EscapeBound(s: Bytes)
    ensures |Escape(s)| <= 2 * |s|
  {
    if s != [] {
      EscapeBound(s[1..]);
    }
  }

  lemma FileBlock(name: Bytes, filename: Bytes, media: Option<Bytes>)
    requires PartName(name) && SendableFilename(filename) && (media.Some? ==> SendableMedia(media.value))
    ensures Block(FileHeader(name, filename, media) + BLANK)
  {
    var first := FileLine(name, filename);
    FileLineReads(name, filename);
    EscapeBound(filename);
    if media.Some? {
      MediaTailReads(media.value, Disposition(name, Some(filename)));
      var second := HeaderLine(CONTENT_TYPE, media.value);
      assert first + (CRLF + second) == first + CRLF + second;
      TwoLinesAreOneBlock(first, second);
    } else {
      assert first + [] == first;
      PlainIsOneBlock(first);
    }
    TextIsBlock(FileHeader(name, filename, media));
  }

  /** Between two parts: the fields up to `i` were sent or may be missing. */
  predicate AtPart(spec: Spec, st: State, i: nat) {
    st.phase == InHeaders && st.headers == [] && st.field <= i <= |spec.fields| && Optional(spec, st.field, i)
  }

  /** The header blocks a form writes are read as what they say. */
  ghost predicate ReadsHeaders(spec: Spec) {
    && (forall name :: PartName(name) ==> spec.parse(ScalarHeader(name)) == Ok(Headers(name, None, false)))
    && (forall filename, media: Option<Bytes> :: SendableFilename(filename) && (media.Some? ==> SendableMedia(media.value)) ==>
          spec.parse(FileHeader(spec.file, filename, media)) == Ok(Headers(spec.file, Some(filename), media.Some?)))
  }

  lemma HeadersAreRead(spec: Spec)
    requires ValidSpec(spec)
    ensures ReadsHeaders(spec)
  {
    forall name | PartName(name) ensures spec.parse(ScalarHeader(name)) == Ok(Headers(name, None, false)) {
      ScalarHeaderReads(name);
    }
    forall filename, media: Option<Bytes> | SendableFilename(filename) && (media.Some? ==> SendableMedia(media.value))
      ensures spec.parse(FileHeader(spec.file, filename, media)) == Ok(Headers(spec.file, Some(filename), media.Some?))
    {
      FileHeaderReads(spec.file, filename, media);
    }
  }

  lemma FeedScalarHeader(m: Machine, boundary: Boundary, spec: Spec, st: State, i: nat)
    requires Drives(m, boundary, spec) && AdmittedSpec(spec) && ReadsHeaders(spec) && i < |spec.fields| && AtPart(spec, st, i)
    requires var text := ScalarHeader(spec.fields[i].name) + BLANK; st.total + |text| <= PREFIX_BYTES
    ensures var text := ScalarHeader(spec.fields[i].name) + BLANK;
            Run(m, st, text) == More(st.(phase := InScalar(i, []), field := i + 1, total := st.total + |text|))
  {
    var name := spec.fields[i].name;
    var text := ScalarHeader(name) + BLANK;
    ScalarBlock(name);
    FeedBlock(m, boundary, spec, st, text);
    assert text[..|text| - 4] == ScalarHeader(name);
    assert FieldFrom(spec, st.field, name) == Some(i);
  }

  lemma FeedPart(m: Machine, boundary: Boundary, spec: Spec, st: State, i: nat, value: Bytes)
    requires Drives(m, boundary, spec) && AdmittedSpec(spec) && ReadsHeaders(spec) && i < |spec.fields| && AtPart(spec, st, i)
    requires SendableEntry(boundary, spec, spec.fields[i], Some(value))
    requires st.total + |RenderPart(boundary, spec.fields[i].name, value)| <= PREFIX_BYTES
    ensures var name := spec.fields[i].name;
            var part := RenderPart(boundary, name, value);
            Run(m, st, part) ==
              More(st.(values := st.values[name := value], field := i + 1, total := st.total + |part|))
  {
    var name := spec.fields[i].name;
    var head, tail := ScalarHeader(name) + BLANK, value + NextDelimiter(boundary);
    FeedScalarHeader(m, boundary, spec, st, i);
    var mid := st.(phase := InScalar(i, []), field := i + 1, total := st.total + |head|);
    FeedScalar(m, boundary, spec, mid, i, value);
    RunBoth(m, st, head, mid, tail);
  }

  lemma RunBoth(m: Machine, st: State, a: Bytes, mid: State, b: Bytes)
    requires Run(m, st, a) == More(mid)
    ensures Run(m, st, a + b) == Shift(Run(m, mid, b), |a|)
  {
    RunSplits(m, st, a, b);
  }

  lemma FeedFile(m: Machine, boundary: Boundary, spec: Spec, st: State, filename: Bytes, media: Option<Bytes>)
    requires Drives(m, boundary, spec) && AdmittedSpec(spec) && ReadsHeaders(spec) && AtPart(spec, st, |spec.fields|)
    requires SendableFilename(filename) && (media.Some? ==> SendableMedia(media.value))
    requires filename == [] ==> spec.optional
    requires var text := FileHeader(spec.file, filename, media) + BLANK; st.total + |text| <= PREFIX_BYTES
    ensures var text := FileHeader(spec.file, filename, media) + BLANK;
            Run(m, st, text) == Complete(|text|, ReadyFor(spec, st.values, filename))
  {
    var text := FileHeader(spec.file, filename, media) + BLANK;
    FileBlock(spec.file, filename, media);
    FeedBlock(m, boundary, spec, st, text);
    assert text[..|text| - 4] == FileHeader(spec.file, filename, media);
  }

  /** An empty filename means no file, and then no file byte is admitted. */
  function ReadyFor(spec: Spec, values: map<Bytes, Bytes>, filename: Bytes): Ready {
    if filename == [] then Ready(values, None, 0) else Ready(values, Some(filename), spec.limit)
  }

  /** The whole input is the prefix, and this is what it says. */
  predicate Yields(m: Machine, st: State, input: Bytes, ready: Ready) {
    Run(m, st, input) == Complete(|input|, ready)
  }

  lemma PartThenYields(m: Machine, boundary: Boundary, spec: Spec, st: State, i: nat, value: Bytes, after: Bytes, ready: Ready)
    requires Drives(m, boundary, spec) && AdmittedSpec(spec) && ReadsHeaders(spec) && i < |spec.fields| && AtPart(spec, st, i)
    requires SendableEntry(boundary, spec, spec.fields[i], Some(value))
    requires st.total + |RenderPart(boundary, spec.fields[i].name, value)| <= PREFIX_BYTES
    requires Yields(m, AfterPart(boundary, spec, st, i, value), after, ready)
    ensures Yields(m, st, RenderPart(boundary, spec.fields[i].name, value) + after, ready)
  {
    FeedPart(m, boundary, spec, st, i, value);
    RunBoth(m, st, RenderPart(boundary, spec.fields[i].name, value), AfterPart(boundary, spec, st, i, value), after);
  }

  function AfterPart(boundary: Boundary, spec: Spec, st: State, i: nat, value: Bytes): (next: State)
    requires i < |spec.fields|
    ensures AtPart(spec, st, i) ==> AtPart(spec, next, i + 1)
  {
    var name := spec.fields[i].name;
    st.(values := st.values[name := value], field := i + 1, total := st.total + |RenderPart(boundary, name, value)|)
  }

  lemma FileYields(m: Machine, boundary: Boundary, spec: Spec, st: State, filename: Bytes, media: Option<Bytes>, none: Bytes, tail: Bytes)
    requires Drives(m, boundary, spec) && AdmittedSpec(spec) && ReadsHeaders(spec) && AtPart(spec, st, |spec.fields|)
    requires SendableFilename(filename) && (media.Some? ==> SendableMedia(media.value))
    requires filename == [] ==> spec.optional
    requires none == [] && tail == FileHeader(spec.file, filename, media) + BLANK && st.total + |tail| <= PREFIX_BYTES
    ensures Yields(m, st, none + tail, ReadyFor(spec, st.values, filename))
  {
    assert none + tail == tail;
    FeedFile(m, boundary, spec, st, filename, media);
  }

  lemma RenderedPart(boundary: Boundary, spec: Spec, entries: seq<Option<Bytes>>, i: nat, tail: Bytes)
    requires |entries| == |spec.fields| && i < |entries| && entries[i].Some?
    ensures var part := RenderPart(boundary, spec.fields[i].name, entries[i].value);
            RenderFrom(boundary, spec, entries, i) + tail == part + (RenderFrom(boundary, spec, entries, i + 1) + tail)
  {
  }

  lemma {:induction false} FeedFields(m: Machine, boundary: Boundary, spec: Spec, form: Form, st: State, i: nat, tail: Bytes)
    requires Drives(m, boundary, spec) && AdmittedSpec(spec) && ReadsHeaders(spec) && Admissible(boundary, spec, form) && i <= |spec.fields| && AtPart(spec, st, i)
    requires st.values == ValuesUpTo(spec, form.entries, i)
    requires tail == FileHeader(spec.file, form.filename, form.media) + BLANK
    requires st.total + |RenderFrom(boundary, spec, form.entries, i)| + |tail| <= PREFIX_BYTES
    ensures Yields(m, st, RenderFrom(boundary, spec, form.entries, i) + tail,
                   ReadyFor(spec, ValuesUpTo(spec, form.entries, |spec.fields|), form.filename))
    decreases |spec.fields| - i
  {
    var entries := form.entries;
    if i == |spec.fields| {
      FileYields(m, boundary, spec, st, form.filename, form.media, RenderFrom(boundary, spec, entries, i), tail);
    } else {
      assert SendableEntry(boundary, spec, spec.fields[i], entries[i]);
      var next := AfterEntry(boundary, spec, st, i, entries[i]);
      EntryAdvances(boundary, spec, entries, st, i);
      FeedFields(m, boundary, spec, form, next, i + 1, tail);
      EntryYields(m, boundary, spec, entries, st, i, tail, ReadyFor(spec, ValuesUpTo(spec, entries, |spec.fields|), form.filename));
    }
  }

  /** The state behind one entry: a missing one leaves it alone. */
  function AfterEntry(boundary: Boundary, spec: Spec, st: State, i: nat, entry: Option<Bytes>): State
    requires i < |spec.fields|
  {
    if entry.None? then st else AfterPart(boundary, spec, st, i, entry.value)
  }

  lemma EntryAdvances(boundary: Boundary, spec: Spec, entries: seq<Option<Bytes>>, st: State, i: nat)
    requires |entries| == |spec.fields| && i < |entries| && AtPart(spec, st, i)
    requires SendableEntry(boundary, spec, spec.fields[i], entries[i]) && st.values == ValuesUpTo(spec, entries, i)
    ensures var next := AfterEntry(boundary, spec, st, i, entries[i]);
            && AtPart(spec, next, i + 1) && next.values == ValuesUpTo(spec, entries, i + 1)
            && next.total + |RenderFrom(boundary, spec, entries, i + 1)| == st.total + |RenderFrom(boundary, spec, entries, i)|
  {
  }

  lemma EntryYields(m: Machine, boundary: Boundary, spec: Spec, entries: seq<Option<Bytes>>, st: State, i: nat, tail: Bytes, ready: Ready)
    requires Drives(m, boundary, spec) && AdmittedSpec(spec) && ReadsHeaders(spec)
    requires |entries| == |spec.fields| && i < |entries| && AtPart(spec, st, i)
    requires SendableEntry(boundary, spec, spec.fields[i], entries[i])
    requires st.total + |RenderFrom(boundary, spec, entries, i)| <= PREFIX_BYTES
    requires Yields(m, AfterEntry(boundary, spec, st, i, entries[i]), RenderFrom(boundary, spec, entries, i + 1) + tail, ready)
    ensures Yields(m, st, RenderFrom(boundary, spec, entries, i) + tail, ready)
  {
    var after := RenderFrom(boundary, spec, entries, i + 1);
    if entries[i].None? {
      assert RenderFrom(boundary, spec, entries, i) == after;
    } else {
      RenderedPart(boundary, spec, entries, i, tail);
      PartThenYields(m, boundary, spec, st, i, entries[i].value, after + tail, ready);
    }
  }

  /** Decoding a rendered form gives exactly its values and stops at the first file byte,
      whatever the body that follows. */
  lemma FormReadsBack(boundary: Boundary, spec: Spec, form: Form, body: Bytes)
    requires ValidSpec(spec) && Sendable(boundary, spec, form)
    ensures Meaning(boundary, spec, Render(boundary, spec, form) + body)
            == Finished(|Render(boundary, spec, form)|,
                        ReadyFor(spec, ValuesUpTo(spec, form.entries, |spec.fields|), form.filename))
  {
    HeadersAreRead(spec);
    MachineDrives(boundary, spec);
    var m := MachineOf(boundary, spec);
    FormYields(m, boundary, spec, form);
    RunSplits(m, START, Render(boundary, spec, form), body);
  }

  lemma FormYields(m: Machine, boundary: Boundary, spec: Spec, form: Form)
    requires Drives(m, boundary, spec) && AdmittedSpec(spec) && ReadsHeaders(spec) && Sendable(boundary, spec, form)
    ensures Yields(m, START, Render(boundary, spec, form),
                   ReadyFor(spec, ValuesUpTo(spec, form.entries, |spec.fields|), form.filename))
  {
    var d := InitialDelimiter(boundary);
    var tail := FileHeader(spec.file, form.filename, form.media) + BLANK;
    var rest := RenderFrom(boundary, spec, form.entries, 0) + tail;
    FeedInitial(m, boundary, spec, |d|);
    assert d[..|d|] == d;
    var mid := START.(phase := InHeaders, total := |d|);
    FeedFields(m, boundary, spec, form, mid, 0, tail);
    RunBoth(m, START, d, mid, rest);
  }

  /** The decoded map holds the value of every field that was sent and nothing else. */
  lemma {:induction false} ValuesAreEntries(spec: Spec, entries: seq<Option<Bytes>>, i: nat)
    requires AdmittedSpec(spec) && |entries| == |spec.fields| && i <= |entries|
    ensures forall k :: 0 <= k < i && entries[k].Some? ==>
      spec.fields[k].name in ValuesUpTo(spec, entries, i)
      && ValuesUpTo(spec, entries, i)[spec.fields[k].name] == entries[k].value
    ensures forall name :: name in ValuesUpTo(spec, entries, i) ==>
      exists k :: 0 <= k < i && entries[k].Some? && spec.fields[k].name == name
  {
    if i > 0 {
      ValuesAreEntries(spec, entries, i - 1);
    }
  }
}
