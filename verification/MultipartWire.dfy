/** A form and a file as a client writes them, from the boundary token alone, and what the server
    makes of those bytes (section 5.1.1 of RFC 2046, sections 4.1 and 4.2 of RFC 7578). */
module MultipartWire {
  import opened Prelude
  import opened Chunks
  import opened MultipartDelimiter
  import opened MultipartHeaders
  import opened MultipartFile
  import opened MultipartPrefix
  import opened MultipartForms
  import opened MultipartUpload

  // ----- what the client writes -----

  function WireField(token: Bytes, name: Bytes, value: Bytes): Bytes {
    "Content-Disposition: form-data; name=\"" + name + "\"\r\n" + "\r\n" + value + "\r\n--" + token + "\r\n"
  }

  function WireFields(token: Bytes, fields: seq<ScalarPart>, entries: seq<Option<Bytes>>): Bytes
    requires |fields| == |entries|
  {
    if fields == [] then ""
    else
      (if entries[0].Some? then WireField(token, fields[0].name, entries[0].value) else "")
      + WireFields(token, fields[1..], entries[1..])
  }

  /** Quotes and backslashes are escaped in a quoted filename. */
  function WireName(s: Bytes): Bytes {
    if s == "" then "" else (if s[0] == '"' || s[0] == '\\' then "\\" else "") + [s[0]] + WireName(s[1..])
  }

  function WireFileHead(name: Bytes, filename: Bytes, media: Option<Bytes>): Bytes {
    "Content-Disposition: form-data; name=\"" + name + "\"; filename=\"" + WireName(filename) + "\"\r\n"
    + (if media.Some? then "Content-Type: " + media.value + "\r\n" else "")
    + "\r\n"
  }

  /** Everything before the file's first byte. */
  function WireHead(token: Bytes, spec: Spec, form: Form): Bytes
    requires |form.entries| == |spec.fields|
  {
    "--" + token + "\r\n" + WireFields(token, spec.fields, form.entries) + WireFileHead(spec.file, form.filename, form.media)
  }

  function Wire(token: Bytes, spec: Spec, form: Form, content: Bytes): Bytes
    requires |form.entries| == |spec.fields|
  {
    WireHead(token, spec, form) + content + "\r\n--" + token + "--\r\n"
  }

  /** The mark first appears where it is written, behind the text. */
  predicate Unbroken(text: Bytes, mark: Bytes) {
    forall j :: 0 <= j < |text| ==> !(mark <= (text + mark)[j..])
  }

  predicate Writable(token: Bytes, field: ScalarPart, entry: Option<Bytes>) {
    && (field.required ==> entry.Some?)
    && (entry.Some? ==> |entry.value| <= field.maxBytes && Utf8(entry.value) && Unbroken(entry.value, "\r\n--" + token + "\r\n"))
  }

  /** A form and a file the schema admits and the token delimits. */
  predicate WritableRequest(token: Bytes, spec: Spec, form: Form, content: Bytes) {
    && |form.entries| == |spec.fields|
    && (forall i :: 0 <= i < |spec.fields| ==> Writable(token, spec.fields[i], form.entries[i]))
    && SendableFilename(form.filename)
    && (form.filename == "" ==> spec.optional && content == "")
    && (form.media.Some? ==> SendableMedia(form.media.value))
    && |WireHead(token, spec, form)| <= PREFIX_BYTES
    && |content| <= spec.limit && Unbroken(content, "\r\n--" + token)
  }

  // ----- the bytes are those the decoder's own delimiters make -----

  lemma UnbrokenIsFirst(d: Bytes, text: Bytes, tail: Bytes)
    requires d != [] && Unbroken(text, d)
    ensures FirstEnd(d, text + d + tail, |text| + |d|)
  {
    var s, n := text + d + tail, |text| + |d|;
    assert s[..n] == text + d;
    assert (text + d)[|text|..] == d;
    forall j | 0 <= j < n ensures !EndsWith(s[..j], d) {
      if |d| <= j {
        assert (text + d)[j - |d|..][..|d|] == s[..j][j - |d|..];
      }
    }
  }

  lemma FieldIsPart(token: Bytes, name: Bytes, value: Bytes)
    ensures WireField(token, name, value) == RenderPart(Delimit(token), name, value)
  {
    assert "\"\r\n" + "\r\n" == "\"" + BLANK;
  }

  lemma {:induction false} FieldsAreParts(token: Bytes, spec: Spec, entries: seq<Option<Bytes>>, i: nat)
    requires |entries| == |spec.fields| && i <= |entries|
    ensures WireFields(token, spec.fields[i..], entries[i..]) == RenderFrom(Delimit(token), spec, entries, i)
    decreases |entries| - i
  {
    if i < |entries| {
      FieldsAreParts(token, spec, entries, i + 1);
      assert spec.fields[i..][1..] == spec.fields[i + 1..] && entries[i..][1..] == entries[i + 1..];
      if entries[i].Some? {
        FieldIsPart(token, spec.fields[i].name, entries[i].value);
      }
    }
  }

  lemma {:induction false} NameIsEscaped(s: Bytes)
    ensures WireName(s) == Escape(s)
  {
    if s != "" {
      NameIsEscaped(s[1..]);
    }
  }

  lemma FileHeadIsHeader(name: Bytes, filename: Bytes, media: Option<Bytes>)
    ensures WireFileHead(name, filename, media) == FileHeader(name, filename, media) + BLANK
  {
    NameIsEscaped(filename);
    assert "\r\n" + "\r\n" == BLANK;
    assert "\"\r\n" == "\"" + "\r\n";
  }

  lemma HeadIsRendered(token: Bytes, spec: Spec, form: Form)
    requires |form.entries| == |spec.fields|
    ensures WireHead(token, spec, form) == Render(Delimit(token), spec, form)
  {
    FieldsAreParts(token, spec, form.entries, 0);
    assert spec.fields[0..] == spec.fields && form.entries[0..] == form.entries;
    FileHeadIsHeader(spec.file, form.filename, form.media);
  }

  lemma WireIsRequest(token: Bytes, spec: Spec, form: Form, content: Bytes)
    requires |form.entries| == |spec.fields|
    ensures Wire(token, spec, form, content) == Request(Delimit(token), spec, form, content)
  {
    HeadIsRendered(token, spec, form);
  }

  lemma WritableIsSendable(token: Bytes, spec: Spec, form: Form, content: Bytes)
    requires ValidSpec(spec) && WritableRequest(token, spec, form, content)
    ensures Sendable(Delimit(token), spec, form) && SendableFile(Delimit(token), spec, form, content)
  {
    var next, close := "\r\n--" + token + "\r\n", "\r\n--" + token;
    forall i | 0 <= i < |spec.fields|
      ensures SendableEntry(Delimit(token), spec, spec.fields[i], form.entries[i])
    {
      assert Writable(token, spec.fields[i], form.entries[i]);
      if form.entries[i].Some? {
        UnbrokenIsFirst(next, form.entries[i].value, []);
        assert form.entries[i].value + next + [] == form.entries[i].value + next;
      }
    }
    HeadIsRendered(token, spec, form);
    UnbrokenIsFirst(close, content, CLOSING);
  }

  lemma WireMeans(token: Bytes, spec: Spec, form: Form, content: Bytes)
    requires ValidSpec(spec) && WritableRequest(token, spec, form, content)
    ensures Meaning(Delimit(token), spec, Wire(token, spec, form, content))
            == Finished(|WireHead(token, spec, form)|,
                        ReadyFor(spec, ValuesUpTo(spec, form.entries, |spec.fields|), form.filename))
  {
    WritableIsSendable(token, spec, form, content);
    HeadIsRendered(token, spec, form);
    WireIsRequest(token, spec, form, content);
    FormReadsBack(Delimit(token), spec, form, content + FileEnd(Delimit(token)) + CLOSING);
  }

  lemma RestIsBody(token: Bytes, spec: Spec, form: Form, content: Bytes)
    requires WritableRequest(token, spec, form, content)
    ensures IsBody("\r\n--" + token, Wire(token, spec, form, content)[|WireHead(token, spec, form)|..], content)
  {
    var close := "\r\n--" + token;
    var rest := content + close + CLOSING;
    assert Wire(token, spec, form, content) == WireHead(token, spec, form) + rest;
    UnbrokenIsFirst(close, content, CLOSING);
  }

  /** Reading what a client wrote from the token: exactly its fields, its filename and its file. */
  lemma WireReadsBack(token: Bytes, spec: Spec, form: Form, content: Bytes)
    requires ValidSpec(spec) && WritableRequest(token, spec, form, content)
    ensures var m := Meaning(Delimit(token), spec, Wire(token, spec, form, content));
            && m.Finished? && m.consumed == |WireHead(token, spec, form)| && |content| <= m.ready.limit
            && m.ready.filename == (if form.filename == "" then None else Some(form.filename))
            && (forall k :: 0 <= k < |spec.fields| && form.entries[k].Some? ==>
                  spec.fields[k].name in m.ready.values && m.ready.values[spec.fields[k].name] == form.entries[k].value)
            && (forall name :: name in m.ready.values ==>
                  exists k :: 0 <= k < |spec.fields| && form.entries[k].Some? && spec.fields[k].name == name)
    ensures IsBody("\r\n--" + token, Wire(token, spec, form, content)[|WireHead(token, spec, form)|..], content)
  {
    WireMeans(token, spec, form, content);
    RestIsBody(token, spec, form, content);
    ValuesAreEntries(spec, form.entries, |spec.fields|);
  }

  /** Receiving it, however it is cut: the same, with the file in the sink. */
  method ReceiveWire(token: Bytes, spec: Spec, ghost form: Form, ghost content: Bytes, chunks: seq<Bytes>, sink: Sink)
    returns (r: Result<Received>)
    requires ValidSpec(spec) && WritableRequest(token, spec, form, content)
    requires Concat(chunks) == Wire(token, spec, form, content)
    requires forall i :: 0 <= i < |chunks| ==> |chunks[i]| <= TRANSFER_BUFFER_BYTES
    requires sink.received == [] && sink.Reliable()
    modifies sink
    ensures r.Ok? && r.value.length == |content| && sink.received == content
    ensures r.value.ready.filename == (if form.filename == "" then None else Some(form.filename))
    ensures forall k :: 0 <= k < |spec.fields| && form.entries[k].Some? ==>
      spec.fields[k].name in r.value.ready.values && r.value.ready.values[spec.fields[k].name] == form.entries[k].value
    ensures forall name :: name in r.value.ready.values ==>
      exists k :: 0 <= k < |spec.fields| && form.entries[k].Some? && spec.fields[k].name == name
  {
    WritableIsSendable(token, spec, form, content);
    WireIsRequest(token, spec, form, content);
    WireReadsBack(token, spec, form, content);
    r := Receive(Delimit(token), spec, chunks, sink);
  }
}
