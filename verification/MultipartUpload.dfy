/** A whole upload request: the prefix decoder, then the file decoder on what it left
    (crates/noxide-http/src/blobs.rs, `read_prefix` and the upload loop). */
module MultipartUpload {
  import opened Prelude
  import opened Chunks
  import opened MultipartDelimiter
  import opened MultipartFile
  import opened MultipartPrefix
  import opened MultipartForms

  datatype Received = Received(ready: Ready, length: nat)

  /** The bytes of a request carrying this form and this file. */
  function Request(boundary: Boundary, spec: Spec, form: Form, content: Bytes): Bytes
    requires |form.entries| == |spec.fields|
  {
    Render(boundary, spec, form) + (content + FileEnd(boundary) + CLOSING)
  }

  /** The file does not contain its own closing delimiter, and fits what the schema lets through. */
  predicate SendableFile(boundary: Boundary, spec: Spec, form: Form, content: Bytes) {
    && IsBody(FileEnd(boundary), content + FileEnd(boundary) + CLOSING, content)
    && |content| <= (if form.filename == [] then 0 else spec.limit)
  }

  /** Reading a request. However it is cut into chunks, the result depends on the bytes alone;
      and a request rendered from a form and a file gives back exactly that form's values and,
      in the sink, exactly that file. */
  method Receive(boundary: Boundary, spec: Spec, chunks: seq<Bytes>, sink: Sink) returns (r: Result<Received>)
    requires forall i :: 0 <= i < |chunks| ==> |chunks[i]| <= TRANSFER_BUFFER_BYTES
    requires sink.received == []
    modifies sink
    ensures var m := Meaning(boundary, spec, Concat(chunks));
            && (r.Ok? ==> m.Finished? && r.value == Received(m.ready, |sink.received|) && |sink.received| <= m.ready.limit
                          && IsBody(FileEnd(boundary), Concat(chunks)[m.consumed..], sink.received))
            && (!m.Finished? ==> r.Err? && sink.received == [])
            && (m.Finished? && old(sink.Reliable()) ==>
                  (r.Ok? <==> exists content ::
                     IsBody(FileEnd(boundary), Concat(chunks)[m.consumed..], content) && |content| <= m.ready.limit))
    ensures forall form, content ::
      ValidSpec(spec) && Sendable(boundary, spec, form) && SendableFile(boundary, spec, form, content)
      && Concat(chunks) == Request(boundary, spec, form, content) && old(sink.Reliable())
      ==> r == Ok(Received(ReadyFor(spec, ValuesUpTo(spec, form.entries, |spec.fields|), form.filename), |content|))
          && sink.received == content
  {
    var outcome, at, rest := ReadPrefix(boundary, spec, chunks);
    if outcome.Finished? {
      var body := [rest] + chunks[at + 1..];
      assert Concat(body) == rest + Concat(chunks[at + 1..]) by {
        assert body[1..] == chunks[at + 1..];
      }
      var count := DecodeBody(FileEnd(boundary), outcome.ready.limit, body, sink);
      r := if count.Ok? then Ok(Received(outcome.ready, count.value)) else Err;
    } else {
      r := Err;
    }
    forall form, content |
      ValidSpec(spec) && Sendable(boundary, spec, form) && SendableFile(boundary, spec, form, content)
      && Concat(chunks) == Request(boundary, spec, form, content)
      ensures outcome == Finished(|Render(boundary, spec, form)|,
                                  ReadyFor(spec, ValuesUpTo(spec, form.entries, |spec.fields|), form.filename))
      ensures IsBody(FileEnd(boundary), Concat(chunks)[outcome.consumed..], content) && |content| <= outcome.ready.limit
    {
      FormReadsBack(boundary, spec, form, content + FileEnd(boundary) + CLOSING);
      assert Concat(chunks)[outcome.consumed..] == content + FileEnd(boundary) + CLOSING;
    }
    BodyIsUnique(FileEnd(boundary));
  }

  lemma BodyIsUnique(d: Bytes)
    requires d != []
    ensures forall s, a, b :: IsBody(d, s, a) && IsBody(d, s, b) ==> a == b
  {
    forall s, a, b | IsBody(d, s, a) && IsBody(d, s, b) ensures a == b {
      CompleteBody(d, 0, s);
    }
  }
}
