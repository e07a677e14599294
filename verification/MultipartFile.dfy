/** The streaming decoder of the one file part (crates/noxide-blobs/src/multipart.rs, `FileDecoder`). */
module MultipartFile {
  import opened Prelude
  import opened Chunks
  import opened MultipartDelimiter

  const TRANSFER_BUFFER_BYTES: nat := 64 * 1024
  const CLOSING: Bytes := "--\r\n"

  // ----- what a body means -----

  /** Where the first delimiter ends, looking at prefixes of length `e` and more. */
  function EndFrom(d: Bytes, s: Bytes, e: nat): (r: Option<nat>)
    requires e <= |s|
    ensures r.Some? ==> |d| <= r.value <= |s|
    decreases |s| - e
  {
    if EndsWith(s[..e], d) then Some(e)
    else if e == |s| then None
    else EndFrom(d, s, e + 1)
  }

  function EndOf(d: Bytes, s: Bytes): (r: Option<nat>)
    ensures r.Some? ==> |d| <= r.value <= |s|
  {
    EndFrom(d, s, 0)
  }

  lemma {:induction false} EndFromMeans(d: Bytes, s: Bytes, e: nat)
    requires e <= |s| && forall j :: 0 <= j < e ==> !EndsWith(s[..j], d)
    ensures EndFrom(d, s, e).None? ==> Absent(d, s)
    ensures EndFrom(d, s, e).Some? ==> FirstEnd(d, s, EndFrom(d, s, e).value)
    decreases |s| - e
  {
    if !EndsWith(s[..e], d) && e < |s| {
      EndFromMeans(d, s, e + 1);
    }
  }

  lemma EndOfMeans(d: Bytes, s: Bytes)
    ensures EndOf(d, s).None? ==> Absent(d, s)
    ensures EndOf(d, s).Some? ==> FirstEnd(d, s, EndOf(d, s).value)
  {
    EndFromMeans(d, s, 0);
  }

  /** The file content known after `s`: everything before the first delimiter, or all but the
      bytes that may still turn out to begin it. */
  function Delivered(d: Bytes, s: Bytes): (content: Bytes)
    requires d != []
    ensures content <= s
  {
    match EndOf(d, s)
    case Some(e) => s[..e - |d|]
    case None => s[..|s| - Longest(d, s)]
  }

  /** Some continuation of `s` is an acceptable body. */
  predicate Viable(d: Bytes, limit: nat, s: Bytes)
    requires d != []
  {
    && |Delivered(d, s)| <= limit
    && (EndOf(d, s).Some? ==> s[EndOf(d, s).value..] <= CLOSING)
  }

  /** A complete body: content, the first delimiter, the closing suffix, nothing else. */
  predicate IsBody(d: Bytes, s: Bytes, content: Bytes) {
    && s == content + d + CLOSING
    && FirstEnd(d, s, |content| + |d|)
  }

  lemma FirstEndIsUnique(d: Bytes, s: Bytes, e: nat)
    requires FirstEnd(d, s, e)
    ensures EndOf(d, s) == Some(e)
  {
    EndOfMeans(d, s);
    var r := EndOf(d, s);
    if r.Some? {
      assert !(r.value < e) && !(e < r.value);
    }
  }

  lemma AbsentMeansNone(d: Bytes, s: Bytes)
    requires Absent(d, s)
    ensures EndOf(d, s).None?
  {
    EndOfMeans(d, s);
  }

  /** What has been delivered stays delivered. */
  lemma DeliveredGrows(d: Bytes, s: Bytes, t: Bytes)
    requires d != []
    ensures Delivered(d, s) <= Delivered(d, s + t)
    ensures EndOf(d, s).Some? ==> EndOf(d, s + t) == EndOf(d, s)
  {
    var u := s + t;
    EndOfMeans(d, s);
    match EndOf(d, s)
    case Some(e) =>
      assert u[..e] == s[..e];
      forall j | 0 <= j < e
        ensures !EndsWith(u[..j], d)
      {
        assert u[..j] == s[..j];
      }
      FirstEndIsUnique(d, u, e);
      assert u[..e - |d|] == s[..e - |d|];
    case None =>
      HeldCoversRest(d, s, t);
  }

  /** Any delimiter completed later, and any match still open later, starts no earlier than
      the bytes held back now. */
  lemma HeldCoversRest(d: Bytes, s: Bytes, t: Bytes)
    requires d != [] && EndOf(d, s).None?
    ensures Delivered(d, s) <= Delivered(d, s + t)
  {
    var u := s + t;
    EndOfMeans(d, s);
    EndOfMeans(d, u);
    LongestMatches(d, u);
    match EndOf(d, u)
    case Some(e) =>
      assert forall j :: 0 <= j <= |s| ==> u[..j] == s[..j];
      if e - |d| < |s| {
        PrefixAtSplit(d, u[..e], |d|, s);
      }
    case None =>
      var j := Longest(d, u);
      if |u| - j < |s| {
        assert u[..|u|] == u;
        PrefixAtSplit(d, u, j, s);
      }
  }

  /** A match of `u` that starts inside its prefix `s` leaves a match at the end of `s`. */
  lemma PrefixAtSplit(d: Bytes, u: Bytes, j: nat, s: Bytes)
    requires d != [] && Matches(d, u, j) && s <= u && |u| - j < |s| && EndOf(d, s).None?
    ensures |s| - (|u| - j) <= Longest(d, s)
  {
    EndOfMeans(d, s);
    LongestMatches(d, s);
    var m := |s| - (|u| - j);
    assert s[|s| - m..] == u[|u| - j..][..m];
    assert d[..m] == d[..j][..m];
    assert Matches(d, s, m) && s[..|s|] == s;
  }

  lemma ViableShrinks(d: Bytes, limit: nat, s: Bytes, t: Bytes)
    requires d != [] && Viable(d, limit, s + t)
    ensures Viable(d, limit, s)
  {
    DeliveredGrows(d, s, t);
    if EndOf(d, s).Some? {
      var e := EndOf(d, s).value;
      assert (s + t)[e..] == s[e..] + t;
    }
  }

  /** One more byte of content, in terms of what the matcher reports. */
  lemma DeliveredStep(d: Bytes, s: Bytes, b: char, out: Bytes, ended: bool)
    requires d != [] && EndOf(d, s).None?
    requires ended <==> EndsWith(s + [b], d)
    requires !ended ==> Absent(d, s + [b])
    requires ended ==> FirstEnd(d, s + [b], |s| + 1)
    requires d[..Longest(d, s)] + [b] == out + d[..if ended then |d| else Longest(d, s + [b])]
    ensures Delivered(d, s + [b]) == Delivered(d, s) + out
    ensures EndOf(d, s + [b]) == if ended then Some(|s| + 1) else None
  {
    var t := s + [b];
    KnownAndHeld(d, s);
    if ended {
      FirstEndIsUnique(d, t, |s| + 1);
      CutBack(s, Delivered(d, s), d[..Longest(d, s)], b, out, d[..|d|]);
    } else {
      AbsentMeansNone(d, t);
      CutBack(s, Delivered(d, s), d[..Longest(d, s)], b, out, d[..Longest(d, t)]);
    }
  }

  /** Before the delimiter, the stream is what is known and what is held back. */
  lemma KnownAndHeld(d: Bytes, s: Bytes)
    requires d != [] && EndOf(d, s).None?
    ensures s == Delivered(d, s) + d[..Longest(d, s)]
  {
    LongestMatches(d, s);
  }

  lemma CutBack(s: Bytes, known: Bytes, held: Bytes, b: char, out: Bytes, rest: Bytes)
    requires s == known + held && held + [b] == out + rest
    ensures |rest| <= |s| + 1 && (s + [b])[..|s| + 1 - |rest|] == known + out
  {
    assert s + [b] == known + (held + [b]);
    assert s + [b] == (known + out) + rest;
  }

  /** After the delimiter only the suffix grows. */
  lemma ClosingStep(d: Bytes, s: Bytes, b: char)
    requires d != [] && EndOf(d, s).Some?
    ensures EndOf(d, s + [b]) == EndOf(d, s)
    ensures Delivered(d, s + [b]) == Delivered(d, s)
    ensures (s + [b])[EndOf(d, s).value..] == s[EndOf(d, s).value..] + [b]
  {
    DeliveredGrows(d, s, [b]);
  }

  /** A wrong suffix cannot be repaired by more input. */
  lemma BadSuffix(d: Bytes, limit: nat, s: Bytes, t: Bytes)
    requires d != [] && EndOf(d, s).Some? && !(s[EndOf(d, s).value..] <= CLOSING)
    ensures !Viable(d, limit, s + t)
  {
    DeliveredGrows(d, s, t);
    var e := EndOf(d, s).value;
    assert (s + t)[e..] == s[e..] + t;
  }

  /** A body is complete exactly when it is viable and its closing suffix is whole. */
  lemma CompleteBody(d: Bytes, limit: nat, s: Bytes)
    requires d != []
    ensures (Viable(d, limit, s) && EndOf(d, s).Some? && s[EndOf(d, s).value..] == CLOSING)
            <==> (exists content :: IsBody(d, s, content) && |content| <= limit)
    ensures forall content :: IsBody(d, s, content) ==> content == Delivered(d, s)
  {
    forall content | IsBody(d, s, content)
      ensures EndOf(d, s) == Some(|content| + |d|) && content == Delivered(d, s)
      ensures s[EndOf(d, s).value..] == CLOSING
    {
      BodyIsDelivered(d, s, content);
    }
    if Viable(d, limit, s) && EndOf(d, s).Some? && s[EndOf(d, s).value..] == CLOSING {
      DeliveredIsBody(d, s);
    }
  }

  lemma BodyIsDelivered(d: Bytes, s: Bytes, content: Bytes)
    requires d != [] && IsBody(d, s, content)
    ensures EndOf(d, s) == Some(|content| + |d|) && content == Delivered(d, s) && s[EndOf(d, s).value..] == CLOSING
  {
    FirstEndIsUnique(d, s, |content| + |d|);
    CutBody(content, d, CLOSING);
  }

  lemma CutBody(a: Bytes, b: Bytes, c: Bytes)
    ensures (a + b + c)[..|a|] == a && (a + b + c)[|a| + |b|..] == c
  {
  }

  lemma DeliveredIsBody(d: Bytes, s: Bytes)
    requires d != [] && EndOf(d, s).Some? && s[EndOf(d, s).value..] == CLOSING
    ensures IsBody(d, s, Delivered(d, s))
  {
    EndOfMeans(d, s);
    var e := EndOf(d, s).value;
    var content := Delivered(d, s);
    assert s[..e] == content + d;
    assert s == s[..e] + s[e..];
  }

  // ----- the sink -----

  /** The caller's sink. `script` says which of its next writes fail; past it all succeed. */
  class Sink {
    var received: Bytes
    var script: seq<bool>

    constructor (script: seq<bool>)
      ensures received == [] && this.script == script
    {
      received := [];
      this.script := script;
    }

    predicate Reliable()
      reads this
    {
      forall i :: 0 <= i < |script| ==> script[i]
    }

    method Write(bytes: Bytes) returns (ok: bool)
      modifies this
      ensures ok ==> received == old(received) + bytes
      ensures !ok ==> received == old(received)
      ensures old(Reliable()) ==> ok && Reliable()
    {
      ok := script == [] || script[0];
      script := if script == [] then [] else script[1..];
      if ok {
        received := received + bytes;
      }
    }
  }

  // ----- the decoder -----

  datatype FilePhase = Data | Closing(cursor: nat) | Done | Poisoned

  class FileDecoder {
    const matcher: Matcher
    const limit: nat
    const buffer: array<char>
    const sink: Sink
    var phase: FilePhase
    var accepted: nat
    /** Every byte pushed so far. */
    ghost var fed: Bytes

    ghost function Delim(): Bytes
    {
      matcher.delimiter
    }

    ghost predicate Wired()
      reads this, matcher
    {
      && matcher.Valid()
      && buffer.Length == TRANSFER_BUFFER_BYTES
    }

    /** Between pushes: either poisoned, or the sink holds exactly the content known so far. */
    ghost predicate Valid()
      reads this, matcher, sink
    {
      && Wired()
      && |sink.received| <= limit
      && (phase == Poisoned || Tracks(fed))
      && (phase != Poisoned ==> sink.received == Delivered(Delim(), fed) && accepted == |sink.received|)
    }

    /** The phase describes the bytes `s`. */
    ghost predicate Tracks(s: Bytes)
      reads this, matcher
    {
      && matcher.delimiter != []
      && (match phase
          case Data => EndOf(Delim(), s).None? && matcher.stream == s
          case Closing(c) => EndOf(Delim(), s).Some? && c < |CLOSING| && s[EndOf(Delim(), s).value..] == CLOSING[..c]
          case Done => EndOf(Delim(), s).Some? && s[EndOf(Delim(), s).value..] == CLOSING
          case Poisoned => false)
    }

    constructor (d: Bytes, limit: nat, sink: Sink)
      requires d != [] && sink.received == []
      ensures Valid() && fresh(matcher) && fresh(buffer) && this.sink == sink && this.limit == limit
      ensures Delim() == d && phase == Data && fed == []
    {
      matcher := new Matcher(d);
      this.limit := limit;
      this.sink := sink;
      buffer := new char[TRANSFER_BUFFER_BYTES](_ => '\0');
      phase := Data;
      accepted := 0;
      fed := [];
      new;
      EmptyStream(d);
      AbsentMeansNone(d, []);
    }

    /** `flush`: the limit is checked before the sink sees anything. */
    method Flush(bytes: Bytes) returns (ok: bool)
      requires accepted == |sink.received| <= limit
      modifies this`accepted, sink
      ensures ok ==> sink.received == old(sink.received) + bytes && accepted == |sink.received| <= limit
      ensures !ok ==> sink.received == old(sink.received)
      ensures old(sink.Reliable()) ==> sink.Reliable() && (ok <==> old(|sink.received|) + |bytes| <= limit)
      ensures ok ==> old(|sink.received|) + |bytes| <= limit
    {
      ok := accepted + |bytes| <= limit;
      if ok {
        ok := sink.Write(bytes);
        if ok {
          accepted := accepted + |bytes|;
        }
      }
    }

    /** Move emitted bytes into the buffer, flushing whenever it fills. */
    method Store(bytes: Bytes, start: nat) returns (ok: bool, count: nat)
      requires buffer.Length == TRANSFER_BUFFER_BYTES && start < buffer.Length
      requires accepted == |sink.received| <= limit
      modifies this`accepted, sink, buffer
      ensures |sink.received| <= limit
      ensures ok ==> count < buffer.Length && accepted == |sink.received|
      ensures ok ==> sink.received + buffer[..count] == old(sink.received + buffer[..start]) + bytes
      ensures sink.received <= old(sink.received + buffer[..start]) + bytes
      ensures old(sink.Reliable()) ==> sink.Reliable() && (!ok ==> |old(sink.received + buffer[..start]) + bytes| > limit)
    {
      ghost var all := sink.received + buffer[..start] + bytes;
      count := start;
      ok := true;
      for i := 0 to |bytes|
        invariant count < buffer.Length && accepted == |sink.received| <= limit
        invariant sink.received + buffer[..count] == old(sink.received + buffer[..start]) + bytes[..i]
        invariant old(sink.Reliable()) ==> sink.Reliable()
      {
        ghost var before := sink.received + buffer[..count];
        buffer[count] := bytes[i];
        count := count + 1;
        assert sink.received + buffer[..count] == before + [bytes[i]];
        assert bytes[..i + 1] == bytes[..i] + [bytes[i]];
        if count == buffer.Length {
          assert buffer[..count] == buffer[..];
          assert all == (sink.received + buffer[..]) + bytes[i + 1..];
          ok := Flush(buffer[..]);
          if !ok {
            return;
          }
          count := 0;
        }
      }
      assert bytes[..|bytes|] == bytes;
    }

    /** `push`: any failure poisons the decoder. */
    method Push(input: Bytes) returns (ok: bool)
      requires Valid()
      modifies this`phase, this`accepted, this`fed, matcher, buffer, sink
      ensures Valid()
      ensures fed == old(fed) + input
      ensures ok <==> phase != Poisoned
      ensures ok ==> old(phase) != Poisoned && |input| <= TRANSFER_BUFFER_BYTES && Viable(Delim(), limit, fed)
      ensures old(phase) != Poisoned ==> sink.received <= Delivered(Delim(), fed)
      ensures old(phase) == Poisoned ==> sink.received == old(sink.received)
      ensures old(sink.Reliable()) ==> sink.Reliable()
      ensures (old(sink.Reliable()) && old(phase) != Poisoned && |input| <= TRANSFER_BUFFER_BYTES
               && Viable(Delim(), limit, fed)) ==> ok
    {
      ghost var before := fed;
      if |input| > TRANSFER_BUFFER_BYTES || phase == Poisoned {
        ok := false;
        if phase != Poisoned {
          DeliveredGrows(Delim(), fed, input);
        }
      } else {
        ok := PushBytes(input);
      }
      fed := before + input;
      if !ok {
        phase := Poisoned;
      }
    }

    /** One byte of file data: match it, store what the matcher releases. */
    method DataByte(ghost s: Bytes, b: char, start: nat) returns (ok: bool, count: nat)
      requires Wired() && phase == Data && Tracks(s)
      requires accepted == |sink.received| <= limit && start < buffer.Length
      requires sink.received + buffer[..start] == Delivered(Delim(), s)
      modifies this`phase, this`accepted, matcher, buffer, sink
      ensures Wired() && |sink.received| <= limit
      ensures sink.received <= Delivered(Delim(), s + [b])
      ensures ok ==> Tracks(s + [b]) && accepted == |sink.received| && count < buffer.Length
      ensures ok ==> sink.received + buffer[..count] == Delivered(Delim(), s + [b])
      ensures old(sink.Reliable()) ==> sink.Reliable() && (!ok ==> |Delivered(Delim(), s + [b])| > limit)
    {
      var out, ended := matcher.Byte(b);
      DeliveredStep(Delim(), s, b, out, ended);
      ok, count := Store(out, start);
      if ok && ended {
        phase := Closing(0);
        assert (s + [b])[|s| + 1..] == CLOSING[..0];
      }
    }

    /** One byte in whatever phase the decoder is. */
    method OneByte(ghost s: Bytes, b: char, start: nat) returns (ok: bool, count: nat)
      requires Wired() && Tracks(s)
      requires accepted == |sink.received| <= limit && start < buffer.Length
      requires sink.received + buffer[..start] == Delivered(Delim(), s)
      modifies this`phase, this`accepted, matcher, buffer, sink
      ensures Wired() && |sink.received| <= limit
      ensures sink.received <= Delivered(Delim(), s + [b])
      ensures ok ==> Tracks(s + [b]) && accepted == |sink.received| && count < buffer.Length
      ensures ok ==> sink.received + buffer[..count] == Delivered(Delim(), s + [b])
      ensures old(sink.Reliable()) ==> sink.Reliable() && (!ok ==> Hopeless(s + [b]))
    {
      match phase
      case Data =>
        ok, count := DataByte(s, b, start);
      case Closing(cursor) =>
        ClosingStep(Delim(), s, b);
        ok, count := CLOSING[cursor] == b, start;
        if ok {
          assert CLOSING[..cursor + 1] == CLOSING[..cursor] + [b];
          phase := if cursor + 1 == |CLOSING| then Done else Closing(cursor + 1);
        }
      case Done =>
        ClosingStep(Delim(), s, b);
        ok, count := false, start;
    }

    /** No continuation of `s` is acceptable. */
    ghost predicate Hopeless(s: Bytes)
      requires matcher.delimiter != []
    {
      || |Delivered(Delim(), s)| > limit
      || (EndOf(Delim(), s).Some? && !(s[EndOf(Delim(), s).value..] <= CLOSING))
    }

    lemma HopelessStays(s: Bytes, t: Bytes)
      requires matcher.delimiter != [] && Hopeless(s)
      ensures !Viable(Delim(), limit, s + t)
    {
      DeliveredGrows(Delim(), s, t);
      if |Delivered(Delim(), s)| <= limit {
        BadSuffix(Delim(), limit, s, t);
      }
    }

    /** The loop of `push_inner`, with the unflushed bytes in the buffer. */
    method PushBytes(input: Bytes) returns (ok: bool)
      requires Valid() && phase != Poisoned
      modifies this`phase, this`accepted, matcher, buffer, sink
      ensures Wired() && |sink.received| <= limit
      ensures sink.received <= Delivered(Delim(), fed + input)
      ensures ok ==> Tracks(fed + input) && sink.received == Delivered(Delim(), fed + input) && accepted == |sink.received|
      ensures old(sink.Reliable()) ==> sink.Reliable() && (Viable(Delim(), limit, fed + input) ==> ok)
    {
      var count: nat := 0;
      assert fed + input[..0] == fed;
      for i := 0 to |input|
        invariant Wired() && accepted == |sink.received| <= limit && count < buffer.Length
        invariant Tracks(fed + input[..i])
        invariant sink.received + buffer[..count] == Delivered(Delim(), fed + input[..i])
        invariant old(sink.Reliable()) ==> sink.Reliable()
      {
        ghost var s := fed + input[..i];
        InputAt(fed, input, i);
        ok, count := OneByte(s, input[i], count);
        if !ok {
          DeliveredGrows(Delim(), s + [input[i]], input[i + 1..]);
          if old(sink.Reliable()) {
            HopelessStays(s + [input[i]], input[i + 1..]);
          }
          return;
        }
      }
      assert input[..|input|] == input;
      ok := true;
      if count > 0 {
        ok := Flush(buffer[..count]);
      } else {
        assert buffer[..count] == [];
      }
    }
  }

  lemma InputAt(fed: Bytes, input: Bytes, i: nat)
    requires i < |input|
    ensures fed + input == ((fed + input[..i]) + [input[i]]) + input[i + 1..]
    ensures fed + input[..i + 1] == (fed + input[..i]) + [input[i]]
  {
    assert input == input[..i + 1] + input[i + 1..] && input[..i + 1] == input[..i] + [input[i]];
  }

  /** The upload loop: push every chunk, then finish. For every way of cutting the body into
      chunks the transfer buffer admits, and a sink that does not fail, the decoder succeeds
      exactly on a complete body whose content is within the limit, and the sink then holds
      exactly that content. Whatever happens, the sink holds a prefix of the content of at
      most `limit` bytes. */
  method DecodeBody(d: Bytes, limit: nat, chunks: seq<Bytes>, sink: Sink) returns (r: Result<nat>)
    requires d != [] && sink.received == []
    requires forall i :: 0 <= i < |chunks| ==> |chunks[i]| <= TRANSFER_BUFFER_BYTES
    modifies sink
    ensures |sink.received| <= limit
    ensures sink.received <= Delivered(d, Concat(chunks))
    ensures r.Ok? ==> IsBody(d, Concat(chunks), sink.received) && r.value == |sink.received|
    ensures old(sink.Reliable()) ==>
      (r.Ok? <==> exists content :: IsBody(d, Concat(chunks), content) && |content| <= limit)
  {
    ghost var body := Concat(chunks);
    var decoder := new FileDecoder(d, limit, sink);
    for i := 0 to |chunks|
      invariant decoder.Valid() && decoder.Delim() == d && decoder.limit == limit && decoder.sink == sink
      invariant decoder.phase != Poisoned && decoder.fed == Concat(chunks[..i])
      invariant fresh(decoder) && fresh(decoder.matcher) && fresh(decoder.buffer)
      invariant old(sink.Reliable()) ==> sink.Reliable()
    {
      ConcatNext(chunks, i);
      ConcatCut(chunks, i + 1);
      ghost var seen := Concat(chunks[..i + 1]);
      ghost var rest := Concat(chunks[i + 1..]);
      DeliveredGrows(d, seen, rest);
      var ok := decoder.Push(chunks[i]);
      if !ok {
        CompleteBody(d, limit, body);
        if old(sink.Reliable()) && Viable(d, limit, body) {
          ViableShrinks(d, limit, seen, rest);
          assert false;
        }
        return Err;
      }
    }
    assert chunks[..|chunks|] == chunks;
    CompleteBody(d, limit, body);
    if decoder.phase == Done {
      r := Ok(decoder.accepted);
    } else {
      r := Err;
    }
  }
}
