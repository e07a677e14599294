/** Header lines of one multipart part (crates/noxide-blobs/src/multipart.rs, `parse_headers`,
    `disposition_value`, `attribute`), and the header text a form writes. */
module MultipartHeaders {
  import opened Prelude
  import opened Chunks
  import opened MultipartDelimiter

  const CRLF: Bytes := "\r\n"

  // ----- text -----

  predicate Between(c: char, lo: int, hi: int) {
    lo <= c as int <= hi
  }

  predicate Continuation(c: char) {
    Between(c, 0x80, 0xBF)
  }

  /** The length of the well-formed UTF-8 sequence `s` begins with, or 0 if it begins with none
      (section 4 of RFC 3629). */
  function SequenceLength(s: Bytes): (n: nat)
    ensures n <= |s|
  {
    if s == [] then 0
    else if Between(s[0], 0, 0x7F) then 1
    else if |s| >= 2 && Between(s[0], 0xC2, 0xDF) && Continuation(s[1]) then 2
    else if && |s| >= 3
            && Between(s[0], 0xE0, 0xEF)
            && (if s[0] as int == 0xE0 then Between(s[1], 0xA0, 0xBF)
                else if s[0] as int == 0xED then Between(s[1], 0x80, 0x9F)
                else Continuation(s[1]))
            && Continuation(s[2]) then 3
    else if && |s| >= 4
            && Between(s[0], 0xF0, 0xF4)
            && (if s[0] as int == 0xF0 then Between(s[1], 0x90, 0xBF)
                else if s[0] as int == 0xF4 then Between(s[1], 0x80, 0x8F)
                else Continuation(s[1]))
            && Continuation(s[2]) && Continuation(s[3]) then 4
    else 0
  }

  predicate Utf8(s: Bytes)
    decreases |s|
  {
    s == [] || (SequenceLength(s) > 0 && Utf8(s[SequenceLength(s)..]))
  }

  predicate Letter(c: char) {
    'a' <= c <= 'z' || 'A' <= c <= 'Z'
  }

  predicate NameByte(c: char) {
    Letter(c) || '0' <= c <= '9' || c == '_' || c == '-'
  }

  predicate PartName(s: Bytes) {
    0 < |s| <= 64 && (forall i :: 0 <= i < |s| ==> NameByte(s[i]))
  }

  /** A byte allowed inside a header line. */
  predicate Plain(c: char) {
    c as int >= 32 && c as int != 127
  }

  predicate AllPlain(s: Bytes) {
    forall i :: 0 <= i < |s| ==> Plain(s[i])
  }

  function Lower(c: char): char {
    if 'A' <= c <= 'Z' then (c as int + 32) as char else c
  }

  predicate SameIgnoringCase(a: Bytes, b: Bytes) {
    |a| == |b| && (forall i :: 0 <= i < |a| ==> Lower(a[i]) == Lower(b[i]))
  }

  function TrimLeft(s: Bytes): Bytes {
    if s != [] && s[0] == ' ' then TrimLeft(s[1..]) else s
  }

  function TrimRight(s: Bytes): Bytes {
    if s != [] && s[|s| - 1] == ' ' then TrimRight(s[..|s| - 1]) else s
  }

  /** `split("\r\n")`. */
  function Lines(s: Bytes): (lines: seq<Bytes>)
    ensures lines != []
    decreases |s|
  {
    if |s| >= 2 && s[..2] == CRLF then [[]] + Lines(s[2..])
    else if s == [] then [[]]
    else
      var rest := Lines(s[1..]);
      [[s[0]] + rest[0]] + rest[1..]
  }

  // ----- parsing -----

  /** The quoted value after its opening quote: the unescaped bytes and what follows the close. */
  function Quoted(s: Bytes, out: Bytes): Result<(Bytes, Bytes)>
    decreases |s|
  {
    if s == [] then Err
    else if s[0] == '"' then Ok((out, s[1..]))
    else if s[0] == '\\' then
      if |s| >= 2 && (s[1] == '\\' || s[1] == '"') && |out| < 255 then Quoted(s[2..], out + [s[1]]) else Err
    else if Plain(s[0]) && |out| < 255 then Quoted(s[1..], out + [s[0]])
    else Err
  }

  datatype Attribute = Attribute(name: Bytes, value: Bytes, rest: Bytes)

  function ParseAttribute(input: Bytes): Result<Attribute> {
    var s := TrimLeft(input);
    var equals := IndexOf(s, '=');
    if equals.None? then Err
    else
      var name, after := s[..equals.value], s[equals.value + 1..];
      if (exists i :: 0 <= i < |name| && !Letter(name[i])) || after == [] || after[0] != '"' then Err
      else
        var quoted :- Quoted(after[1..], []);
        if Utf8(quoted.0) then Ok(Attribute(name, quoted.0, quoted.1)) else Err
  }

  datatype Disposition = Disposition(name: Bytes, filename: Option<Bytes>)

  function ParseDisposition(value: Bytes): Result<Disposition> {
    var semicolon := IndexOf(value, ';');
    if semicolon.None? || !SameIgnoringCase(value[..semicolon.value], "form-data") then Err
    else
      var field :- ParseAttribute(value[semicolon.value + 1..]);
      if field.name != "name" || !PartName(field.value) then Err
      else if field.rest == [] then Ok(Disposition(field.value, None))
      else if field.rest[0] != ';' then Err
      else
        var file :- ParseAttribute(field.rest[1..]);
        if file.name == "filename" && |file.value| <= 255 && file.rest == []
        then Ok(Disposition(field.value, Some(file.value))) else Err
  }

  datatype Parsed = Parsed(disposition: Option<Disposition>, contentType: bool)

  function ParseLine(line: Bytes, seen: Parsed): Result<Parsed> {
    if line == [] || !AllPlain(line) then Err
    else
      var colon := IndexOf(line, ':');
      if colon.None? then Err
      else
        var name, value := line[..colon.value], TrimRight(TrimLeft(line[colon.value + 1..]));
        if SameIgnoringCase(name, "content-disposition") then
          if seen.disposition.Some? then Err
          else
            var d :- ParseDisposition(value);
            Ok(seen.(disposition := Some(d)))
        else if SameIgnoringCase(name, "content-type") then
          if !seen.contentType && 0 < |value| <= 128 && (forall i :: 0 <= i < |value| ==> Between(value[i], 32, 126))
          then Ok(seen.(contentType := true)) else Err
        else Err
  }

  function ParseLines(lines: seq<Bytes>, seen: Parsed): Result<Parsed> {
    if lines == [] then Ok(seen)
    else
      var next :- ParseLine(lines[0], seen);
      ParseLines(lines[1..], next)
  }

  datatype Headers = Headers(name: Bytes, filename: Option<Bytes>, contentType: bool)

  function ParseHeaders(text: Bytes): Result<Headers> {
    if !Utf8(text) then Err
    else
      var p :- ParseLines(Lines(text), Parsed(None, false));
      if p.disposition.None? || (p.disposition.value.filename.None? && p.contentType) then Err
      else Ok(Headers(p.disposition.value.name, p.disposition.value.filename, p.contentType))
  }

  // ----- writing -----

  function Escape(s: Bytes): Bytes {
    if s == [] then []
    else (if s[0] == '"' || s[0] == '\\' then ['\\', s[0]] else [s[0]]) + Escape(s[1..])
  }

  const FIELD_HEAD: Bytes := "Content-Disposition: form-data; name=\""

  /** The header block of a scalar part. */
  function ScalarHeader(name: Bytes): Bytes {
    FIELD_HEAD + name + "\""
  }

  const FILENAME_HEAD: Bytes := "\"; filename=\""

  function FileLine(name: Bytes, filename: Bytes): Bytes {
    FIELD_HEAD + name + FILENAME_HEAD + Escape(filename) + "\""
  }

  function MediaTail(mediaType: Option<Bytes>): Bytes {
    if mediaType.None? then [] else CRLF + "Content-Type: " + mediaType.value
  }

  /** The header block of the file part, with the media hint browsers add. */
  function FileHeader(name: Bytes, filename: Bytes, mediaType: Option<Bytes>): Bytes {
    FileLine(name, filename) + MediaTail(mediaType)
  }

  /** A filename a form can send. */
  predicate SendableFilename(s: Bytes) {
    |s| <= 255 && AllPlain(s) && Utf8(s)
  }

  predicate SendableMedia(s: Bytes) {
    && 0 < |s| <= 128
    && (forall i :: 0 <= i < |s| ==> Between(s[i], 32, 126))
    && s[0] != ' ' && s[|s| - 1] != ' '
  }

  // ----- the two are inverse -----

  lemma {:induction false} IndexAfter(a: Bytes, c: char, b: Bytes)
    requires c !in a
    ensures IndexOf(a + [c] + b, c) == Some(|a|)
  {
    if a == [] {
      assert a + [c] + b == [c] + b;
    } else {
      assert (a + [c] + b)[1..] == a[1..] + [c] + b;
      assert a == [a[0]] + a[1..];
      IndexAfter(a[1..], c, b);
    }
  }

  lemma {:induction false} AsciiIsUtf8(s: Bytes)
    requires forall i :: 0 <= i < |s| ==> Between(s[i], 0, 0x7F)
    ensures Utf8(s)
  {
    if s != [] {
      AsciiIsUtf8(s[1..]);
    }
  }

  lemma SequenceKeeps(a: Bytes, b: Bytes)
    requires SequenceLength(a) > 0
    ensures SequenceLength(a + b) == SequenceLength(a)
  {
    var s := a + b;
    assert s[0] == a[0];
    assert |a| >= 2 ==> s[1] == a[1];
    assert |a| >= 3 ==> s[2] == a[2];
    assert |a| >= 4 ==> s[3] == a[3];
  }

  lemma {:induction false} Utf8Concat(a: Bytes, b: Bytes)
    requires Utf8(a) && Utf8(b)
    ensures Utf8(a + b)
    decreases |a|
  {
    if a == [] {
      assert a + b == b;
    } else {
      var n := SequenceLength(a);
      SequenceKeeps(a, b);
      assert (a + b)[n..] == a[n..] + b;
      Utf8Concat(a[n..], b);
    }
  }

  /** Escaping is undone by reading the quoted value back. */
  lemma {:induction false} QuotedInverts(s: Bytes, out: Bytes, rest: Bytes)
    requires AllPlain(s) && |out| + |s| <= 255
    ensures Quoted(Escape(s) + "\"" + rest, out) == Ok((out + s, rest))
    decreases |s|
  {
    var text := Escape(s) + "\"" + rest;
    if s == [] {
      assert text == "\"" + rest;
      assert out + s == out;
    } else {
      var n := if s[0] == '"' || s[0] == '\\' then 2 else 1;
      assert text[n..] == Escape(s[1..]) + "\"" + rest;
      assert (out + [s[0]]) + s[1..] == out + s;
      QuotedInverts(s[1..], out + [s[0]], rest);
      assert Quoted(text, out) == Quoted(text[n..], out + [s[0]]);
    }
  }

  lemma {:induction false} NothingToEscape(s: Bytes)
    requires '"' !in s && '\\' !in s
    ensures Escape(s) == s
  {
    if s != [] {
      assert s == [s[0]] + s[1..];
      NothingToEscape(s[1..]);
    }
  }

  predicate AllLetters(s: Bytes) {
    forall i :: 0 <= i < |s| ==> Letter(s[i])
  }

  lemma AttributeReads(name: Bytes, q: Bytes, value: Bytes, rest: Bytes)
    requires name != [] && AllLetters(name)
    requires Quoted(q, []) == Ok((value, rest)) && Utf8(value)
    ensures ParseAttribute([' '] + (name + ['='] + (['"'] + q))) == Ok(Attribute(name, value, rest))
  {
    var s := name + ['='] + (['"'] + q);
    var input := [' '] + s;
    assert input[1..] == s;
    assert Letter(s[0]);
    assert TrimLeft(input) == TrimLeft(s) == s;
    assert '=' !in name;
    IndexAfter(name, '=', ['"'] + q);
    assert s[..|name|] == name;
    assert s[|name| + 1..] == ['"'] + q;
    assert (['"'] + q)[1..] == q;
  }

  lemma NamesAreAscii(name: Bytes)
    requires PartName(name)
    ensures AllPlain(name) && Utf8(name) && Escape(name) == name
    ensures ':' !in name && ';' !in name
  {
    AsciiIsUtf8(name);
    NothingToEscape(name);
  }

  /** `name="x"` and whatever follows. */
  function NameAttribute(name: Bytes, rest: Bytes): Bytes {
    [' '] + ("name" + ['='] + (['"'] + (name + "\"" + rest)))
  }

  lemma NameReads(name: Bytes, rest: Bytes)
    requires PartName(name)
    ensures ParseAttribute(NameAttribute(name, rest)) == Ok(Attribute("name", name, rest))
  {
    NamesAreAscii(name);
    QuotedInverts(name, [], rest);
    assert [] + name == name;
    AttributeReads("name", name + "\"" + rest, name, rest);
  }

  lemma FilenameReads(filename: Bytes)
    requires SendableFilename(filename)
    ensures ParseAttribute([' '] + ("filename" + ['='] + (['"'] + (Escape(filename) + "\"" + []))))
            == Ok(Attribute("filename", filename, []))
  {
    QuotedInverts(filename, [], []);
    assert [] + filename == filename;
    AttributeReads("filename", Escape(filename) + "\"" + [], filename, []);
  }

  const KIND: Bytes := "form-data"

  lemma ScalarDispositionReads(name: Bytes)
    requires PartName(name)
    ensures ParseDisposition(KIND + [';'] + NameAttribute(name, [])) == Ok(Disposition(name, None))
  {
    var value := KIND + [';'] + NameAttribute(name, []);
    IndexAfter(KIND, ';', NameAttribute(name, []));
    assert value[..|KIND|] == KIND;
    assert value[|KIND| + 1..] == NameAttribute(name, []);
    NameReads(name, []);
  }

  function FilenameAttribute(filename: Bytes): Bytes {
    [' '] + ("filename" + ['='] + (['"'] + (Escape(filename) + "\"" + [])))
  }

  lemma FileDispositionReads(name: Bytes, filename: Bytes)
    requires PartName(name) && SendableFilename(filename)
    ensures ParseDisposition(KIND + [';'] + NameAttribute(name, [';'] + FilenameAttribute(filename)))
            == Ok(Disposition(name, Some(filename)))
  {
    var rest := [';'] + FilenameAttribute(filename);
    var value := KIND + [';'] + NameAttribute(name, rest);
    IndexAfter(KIND, ';', NameAttribute(name, rest));
    assert value[..|KIND|] == KIND;
    assert value[|KIND| + 1..] == NameAttribute(name, rest);
    NameReads(name, rest);
    assert rest[1..] == FilenameAttribute(filename);
    FilenameReads(filename);
  }

  lemma {:induction false} OneLine(a: Bytes)
    requires AllPlain(a)
    ensures Lines(a) == [a]
  {
    if a != [] {
      assert |a| >= 2 ==> a[..2][0] == a[0];
      OneLine(a[1..]);
      assert [a[0]] + a[1..] == a;
    }
  }

  lemma {:induction false} TwoLines(a: Bytes, b: Bytes)
    requires AllPlain(a) && AllPlain(b)
    ensures Lines(a + CRLF + b) == [a, b]
    decreases |a|
  {
    var s := a + CRLF + b;
    if a == [] {
      assert s[..2] == CRLF && s[2..] == b;
      OneLine(b);
    } else {
      assert s[..2][0] == a[0];
      assert s[1..] == a[1..] + CRLF + b;
      TwoLines(a[1..], b);
      assert [a[0]] + a[1..] == a;
    }
  }

  lemma Trimmed(v: Bytes)
    requires v != [] && v[0] != ' ' && v[|v| - 1] != ' '
    ensures TrimRight(TrimLeft([' '] + v)) == v
  {
    assert ([' '] + v)[1..] == v;
    assert TrimLeft([' '] + v) == TrimLeft(v) == v;
  }

  const DISPOSITION: Bytes := "Content-Disposition"
  const CONTENT_TYPE: Bytes := "Content-Type"

  function HeaderLine(name: Bytes, value: Bytes): Bytes {
    name + [':'] + ([' '] + value)
  }

  lemma LineSplits(name: Bytes, value: Bytes)
    requires ':' !in name
    requires value != [] && value[0] != ' ' && value[|value| - 1] != ' '
    ensures var line := HeaderLine(name, value);
            && IndexOf(line, ':') == Some(|name|)
            && line[..|name|] == name
            && TrimRight(TrimLeft(line[|name| + 1..])) == value
  {
    var line := HeaderLine(name, value);
    IndexAfter(name, ':', [' '] + value);
    assert line[..|name|] == name;
    assert line[|name| + 1..] == [' '] + value;
    Trimmed(value);
  }

  lemma PlainLine(name: Bytes, value: Bytes)
    requires AllPlain(name) && AllPlain(value)
    ensures AllPlain(HeaderLine(name, value))
  {
  }

  lemma ReadDisposition(line: Bytes, name: Bytes, value: Bytes, d: Disposition)
    requires line != [] && AllPlain(line)
    requires IndexOf(line, ':') == Some(|name|) && line[..|name|] == name
    requires TrimRight(TrimLeft(line[|name| + 1..])) == value
    requires SameIgnoringCase(name, "content-disposition")
    requires ParseDisposition(value) == Ok(d)
    ensures ParseLine(line, Parsed(None, false)) == Ok(Parsed(Some(d), false))
  {
  }

  /** A value that survives trimming and is allowed on a header line. */
  predicate Tight(v: Bytes) {
    v != [] && AllPlain(v) && v[0] != ' ' && v[|v| - 1] != ' '
  }

  lemma DispositionLine(name: Bytes, value: Bytes, d: Disposition)
    requires AllPlain(name) && ':' !in name && SameIgnoringCase(name, "content-disposition")
    requires Tight(value) && ParseDisposition(value) == Ok(d)
    ensures AllPlain(HeaderLine(name, value))
    ensures ParseLine(HeaderLine(name, value), Parsed(None, false)) == Ok(Parsed(Some(d), false))
  {
    LineSplits(name, value);
    PlainLine(name, value);
    ReadDisposition(HeaderLine(name, value), name, value, d);
  }

  lemma DispositionIsHeader()
    ensures AllPlain(DISPOSITION) && ':' !in DISPOSITION && SameIgnoringCase(DISPOSITION, "content-disposition")
  {
  }

  lemma ContentTypeIsHeader()
    ensures AllPlain(CONTENT_TYPE) && ':' !in CONTENT_TYPE && SameIgnoringCase(CONTENT_TYPE, "content-type")
    ensures |CONTENT_TYPE| != |"content-disposition"|
  {
  }

  lemma ReadMedia(line: Bytes, name: Bytes, value: Bytes, d: Disposition)
    requires line != [] && AllPlain(line)
    requires IndexOf(line, ':') == Some(|name|) && line[..|name|] == name
    requires TrimRight(TrimLeft(line[|name| + 1..])) == value
    requires SameIgnoringCase(name, "content-type") && |name| != |"content-disposition"|
    requires SendableMedia(value)
    ensures ParseLine(line, Parsed(Some(d), false)) == Ok(Parsed(Some(d), true))
  {
  }

  lemma MediaLine(name: Bytes, media: Bytes, d: Disposition)
    requires AllPlain(name) && ':' !in name && SameIgnoringCase(name, "content-type") && |name| != |"content-disposition"|
    requires SendableMedia(media)
    ensures AllPlain(HeaderLine(name, media))
    ensures ParseLine(HeaderLine(name, media), Parsed(Some(d), false)) == Ok(Parsed(Some(d), true))
  {
    LineSplits(name, media);
    PlainLine(name, media);
    ReadMedia(HeaderLine(name, media), name, media, d);
  }

  lemma ScalarHeaderShape(name: Bytes)
    ensures ScalarHeader(name) == HeaderLine(DISPOSITION, KIND + [';'] + NameAttribute(name, []))
  {
  }

  predicate Ascii(s: Bytes) {
    forall i :: 0 <= i < |s| ==> Between(s[i], 0, 0x7F)
  }

  lemma ScalarHeaderIsText(name: Bytes)
    requires PartName(name)
    ensures Utf8(ScalarHeader(name))
  {
    assert Ascii(ScalarHeader(name));
    AsciiIsUtf8(ScalarHeader(name));
  }

  lemma ScalarValueIsTight(name: Bytes)
    requires PartName(name)
    ensures Tight(KIND + [';'] + NameAttribute(name, []))
  {
    assert AllPlain(NameAttribute(name, []));
    var value := KIND + [';'] + NameAttribute(name, []);
    assert value[0] == 'f';
    assert value[|value| - 1] == '"';
  }

  lemma ScalarLine(name: Bytes)
    requires PartName(name)
    ensures AllPlain(ScalarHeader(name))
    ensures ParseLine(ScalarHeader(name), Parsed(None, false)) == Ok(Parsed(Some(Disposition(name, None)), false))
  {
    ScalarDispositionReads(name);
    ScalarHeaderShape(name);
    ScalarValueIsTight(name);
    DispositionIsHeader();
    DispositionLine(DISPOSITION, KIND + [';'] + NameAttribute(name, []), Disposition(name, None));
  }

  lemma ReadOneLine(line: Bytes, d: Disposition)
    requires Utf8(line) && AllPlain(line)
    requires ParseLine(line, Parsed(None, false)) == Ok(Parsed(Some(d), false))
    ensures ParseHeaders(line) == Ok(Headers(d.name, d.filename, false))
  {
    OneLine(line);
    assert ParseLines([line], Parsed(None, false)) == ParseLines([line][1..], Parsed(Some(d), false));
  }

  lemma ReadTwoLines(first: Bytes, second: Bytes, d: Disposition)
    requires Utf8(first + CRLF + second) && AllPlain(first) && AllPlain(second) && d.filename.Some?
    requires ParseLine(first, Parsed(None, false)) == Ok(Parsed(Some(d), false))
    requires ParseLine(second, Parsed(Some(d), false)) == Ok(Parsed(Some(d), true))
    ensures ParseHeaders(first + CRLF + second) == Ok(Headers(d.name, d.filename, true))
  {
    TwoLines(first, second);
    var lines := [first, second];
    assert ParseLines(lines, Parsed(None, false)) == ParseLines(lines[1..], Parsed(Some(d), false));
    assert ParseLines(lines[1..], Parsed(Some(d), false)) == ParseLines(lines[1..][1..], Parsed(Some(d), true));
  }

  /** The scalar header block reads back as the field's name and nothing else. */
  lemma ScalarHeaderReads(name: Bytes)
    requires PartName(name)
    ensures ParseHeaders(ScalarHeader(name)) == Ok(Headers(name, None, false))
    ensures AllPlain(ScalarHeader(name))
  {
    ScalarHeaderIsText(name);
    ScalarLine(name);
    ReadOneLine(ScalarHeader(name), Disposition(name, None));
  }

  function FileValue(name: Bytes, filename: Bytes): Bytes {
    KIND + [';'] + NameAttribute(name, [';'] + FilenameAttribute(filename))
  }

  lemma NameShape(name: Bytes, rest: Bytes)
    ensures NameAttribute(name, rest) == " name=\"" + (name + ("\"" + rest))
  {
  }

  lemma FilenameShape(filename: Bytes)
    ensures "\"" + ([';'] + FilenameAttribute(filename)) == FILENAME_HEAD + (Escape(filename) + "\"")
  {
    assert Escape(filename) + "\"" + [] == Escape(filename) + "\"";
  }

  lemma HeadShape(x: Bytes)
    ensures HeaderLine(DISPOSITION, KIND + [';'] + (" name=\"" + x)) == FIELD_HEAD + x
  {
  }

  lemma Regroup(a: Bytes, b: Bytes, c: Bytes, d: Bytes, e: Bytes)
    ensures a + b + c + d + e == a + (b + (c + (d + e)))
  {
  }

  lemma FileLineShape(name: Bytes, filename: Bytes)
    ensures FileLine(name, filename) == HeaderLine(DISPOSITION, FileValue(name, filename))
  {
    NameShape(name, [';'] + FilenameAttribute(filename));
    FilenameShape(filename);
    HeadShape(name + (FILENAME_HEAD + (Escape(filename) + "\"")));
    Regroup(FIELD_HEAD, name, FILENAME_HEAD, Escape(filename), "\"");
  }

  lemma {:induction false} EscapeKeeps(s: Bytes)
    requires AllPlain(s)
    ensures AllPlain(Escape(s))
  {
    if s != [] {
      EscapeKeeps(s[1..]);
    }
  }

  lemma {:induction false} EscapeIsUtf8(s: Bytes)
    requires Utf8(s)
    ensures Utf8(Escape(s))
    decreases |s|
  {
    if s != [] {
      var n := SequenceLength(s);
      var head, tail := s[..n], s[n..];
      EscapeIsUtf8(tail);
      EscapeSplits(head, tail);
      assert s == head + tail;
      HeadIsUtf8(s, n);
      Utf8Concat(Escape(head), Escape(tail));
    }
  }

  lemma HeadIsUtf8(s: Bytes, n: nat)
    requires s != [] && n == SequenceLength(s) > 0
    ensures Utf8(Escape(s[..n]))
  {
    var head := s[..n];
    if n == 1 {
      assert Escape(head) == (if s[0] == '"' || s[0] == '\\' then ['\\', s[0]] else [s[0]]) + Escape(head[1..]);
      AsciiIsUtf8(Escape(head));
    } else {
      NothingToEscape(head);
      assert SequenceLength(head) == n && head[n..] == [];
    }
  }

  lemma {:induction false} EscapeSplits(a: Bytes, b: Bytes)
    ensures Escape(a + b) == Escape(a) + Escape(b)
  {
    if a == [] {
      assert a + b == b;
    } else {
      assert (a + b)[1..] == a[1..] + b;
      EscapeSplits(a[1..], b);
    }
  }

  lemma FileHeadIsText(name: Bytes)
    requires PartName(name)
    ensures Utf8(FIELD_HEAD + name + FILENAME_HEAD)
  {
    assert Ascii(FIELD_HEAD + name + FILENAME_HEAD);
    AsciiIsUtf8(FIELD_HEAD + name + FILENAME_HEAD);
  }

  lemma FileTailIsText(media: Option<Bytes>)
    requires media.Some? ==> SendableMedia(media.value)
    ensures Utf8("\"" + MediaTail(media))
  {
    assert Ascii("\"" + MediaTail(media));
    AsciiIsUtf8("\"" + MediaTail(media));
  }

  lemma Utf8Three(a: Bytes, b: Bytes, c: Bytes)
    requires Utf8(a) && Utf8(b) && Utf8(c)
    ensures Utf8((a + b) + c)
  {
    Utf8Concat(a, b);
    Utf8Concat(a + b, c);
  }

  lemma JoinEnds(a: Bytes, b: Bytes, c: Bytes)
    ensures (a + b) + c == a + (b + c)
  {
  }

  lemma FileHeaderIsText(name: Bytes, filename: Bytes, media: Option<Bytes>)
    requires PartName(name) && SendableFilename(filename) && (media.Some? ==> SendableMedia(media.value))
    ensures Utf8(FileHeader(name, filename, media))
  {
    var head, quote := FIELD_HEAD + name + FILENAME_HEAD, "\"";
    FileHeadIsText(name);
    FileTailIsText(media);
    EscapeIsUtf8(filename);
    Utf8Three(head, Escape(filename), quote + MediaTail(media));
    JoinEnds(head + Escape(filename), quote, MediaTail(media));
  }

  lemma FileLineReads(name: Bytes, filename: Bytes)
    requires PartName(name) && SendableFilename(filename)
    ensures AllPlain(FileLine(name, filename))
    ensures ParseLine(FileLine(name, filename), Parsed(None, false)) == Ok(Parsed(Some(Disposition(name, Some(filename))), false))
  {
    FileDispositionReads(name, filename);
    FileLineShape(name, filename);
    FileValueIsTight(name, filename);
    DispositionIsHeader();
    DispositionLine(DISPOSITION, FileValue(name, filename), Disposition(name, Some(filename)));
  }

  lemma FileValueIsTight(name: Bytes, filename: Bytes)
    requires PartName(name) && SendableFilename(filename)
    ensures Tight(FileValue(name, filename))
  {
    EscapeKeeps(filename);
    assert AllPlain(FilenameAttribute(filename));
    assert AllPlain(NameAttribute(name, [';'] + FilenameAttribute(filename)));
    var value := FileValue(name, filename);
    assert value[0] == 'f';
    assert value[|value| - 1] == '"';
  }

  lemma MediaTailReads(media: Bytes, d: Disposition)
    requires SendableMedia(media)
    ensures MediaTail(Some(media)) == CRLF + HeaderLine(CONTENT_TYPE, media)
    ensures AllPlain(HeaderLine(CONTENT_TYPE, media))
    ensures ParseLine(HeaderLine(CONTENT_TYPE, media), Parsed(Some(d), false)) == Ok(Parsed(Some(d), true))
  {
    ContentTypeIsHeader();
    MediaLine(CONTENT_TYPE, media, d);
  }

  /** The file header block reads back as the field's name, the filename and the media hint. */
  lemma FileHeaderReads(name: Bytes, filename: Bytes, media: Option<Bytes>)
    requires PartName(name) && SendableFilename(filename) && (media.Some? ==> SendableMedia(media.value))
    ensures ParseHeaders(FileHeader(name, filename, media)) == Ok(Headers(name, Some(filename), media.Some?))
  {
    var d := Disposition(name, Some(filename));
    var first := FileLine(name, filename);
    FileLineReads(name, filename);
    FileHeaderIsText(name, filename, media);
    if media.Some? {
      MediaTailReads(media.value, d);
      var second := HeaderLine(CONTENT_TYPE, media.value);
      assert first + (CRLF + second) == first + CRLF + second;
      ReadTwoLines(first, second, d);
    } else {
      assert first + [] == first;
      ReadOneLine(first, d);
    }
  }

  // ----- what is accepted at all -----

  predicate SafeDisposition(d: Disposition) {
    PartName(d.name) && (d.filename.Some? ==> |d.filename.value| <= 255 && Utf8(d.filename.value))
  }

  lemma AttributeIsText(input: Bytes)
    ensures var a := ParseAttribute(input); a.Ok? ==> Utf8(a.value.value) && AllLetters(a.value.name)
  {
  }

  lemma DispositionIsSafe(value: Bytes)
    ensures ParseDisposition(value).Ok? ==> SafeDisposition(ParseDisposition(value).value)
  {
    var semicolon := IndexOf(value, ';');
    if semicolon.Some? {
      var field := ParseAttribute(value[semicolon.value + 1..]);
      if field.Ok? && field.value.rest != [] {
        AttributeIsText(field.value.rest[1..]);
      }
    }
  }

  lemma LineIsSafe(line: Bytes, seen: Parsed)
    requires seen.disposition.Some? ==> SafeDisposition(seen.disposition.value)
    ensures var p := ParseLine(line, seen);
            p.Ok? ==> (p.value.disposition.Some? ==> SafeDisposition(p.value.disposition.value)) && line != [] && AllPlain(line)
  {
    var colon := IndexOf(line, ':');
    if colon.Some? {
      DispositionIsSafe(TrimRight(TrimLeft(line[colon.value + 1..])));
    }
  }

  lemma {:induction false} LinesAreSafe(lines: seq<Bytes>, seen: Parsed)
    requires seen.disposition.Some? ==> SafeDisposition(seen.disposition.value)
    ensures var p := ParseLines(lines, seen);
            p.Ok? ==> (p.value.disposition.Some? ==> SafeDisposition(p.value.disposition.value))
                      && (forall i :: 0 <= i < |lines| ==> lines[i] != [] && AllPlain(lines[i]))
    decreases |lines|
  {
    if lines != [] {
      LineIsSafe(lines[0], seen);
      var next := ParseLine(lines[0], seen);
      if next.Ok? {
        LinesAreSafe(lines[1..], next.value);
        assert forall i :: 1 <= i < |lines| ==> lines[i] == lines[1..][i - 1];
      }
    }
  }

  /** Only blocks of nonempty lines without control bytes are accepted, and what they yield is a
      proper part name and a bounded text filename; a media hint needs a filename. */
  lemma AcceptedHeadersAreSafe(text: Bytes)
    requires ParseHeaders(text).Ok?
    ensures var h := ParseHeaders(text).value;
            && PartName(h.name)
            && (h.filename.Some? ==> |h.filename.value| <= 255 && Utf8(h.filename.value))
            && (h.contentType ==> h.filename.Some?)
    ensures forall i :: 0 <= i < |Lines(text)| ==> Lines(text)[i] != [] && AllPlain(Lines(text)[i])
  {
    LinesAreSafe(Lines(text), Parsed(None, false));
  }

  // ----- which blocks are accepted -----

  /** The header a line carries: what stands before its first colon. */
  predicate Carries(line: Bytes, name: Bytes) {
    var colon := IndexOf(line, ':');
    colon.Some? && SameIgnoringCase(line[..colon.value], name)
  }

  function CountOf(lines: seq<Bytes>, name: Bytes): nat {
    if lines == [] then 0 else (if Carries(lines[0], name) then 1 else 0) + CountOf(lines[1..], name)
  }

  /** An attribute as it stands: spaces, its name, and a quoted value; `rest` follows. */
  ghost predicate Assigns(text: Bytes, name: Bytes, value: Bytes, rest: Bytes) {
    exists quoted :: TrimLeft(text) == name + "=\"" + quoted && Quoted(quoted, []) == Ok((value, rest))
  }

  /** `form-data`, then the part's name, then perhaps its filename, and nothing else. */
  ghost predicate SaysDisposition(value: Bytes, d: Disposition) {
    exists kind, more, rest ::
      && value == kind + ";" + more && ';' !in kind && SameIgnoringCase(kind, "form-data")
      && Assigns(more, "name", d.name, rest)
      && if d.filename.None? then rest == ""
         else rest != "" && rest[0] == ';' && Assigns(rest[1..], "filename", d.filename.value, "")
  }

  lemma {:induction false} IndexIsFirst(s: Bytes, c: char)
    ensures IndexOf(s, c).Some? ==>
      var i := IndexOf(s, c).value; s[i] == c && c !in s[..i] && s == s[..i] + [c] + s[i + 1..]
    decreases |s|
  {
    if s != [] && s[0] != c {
      IndexIsFirst(s[1..], c);
      if IndexOf(s[1..], c).Some? {
        var i := IndexOf(s[1..], c).value;
        assert s[..i + 1] == [s[0]] + s[1..][..i];
      }
    }
  }

  lemma AttributeAssigns(input: Bytes)
    requires ParseAttribute(input).Ok?
    ensures var a := ParseAttribute(input).value; Assigns(input, a.name, a.value, a.rest)
  {
    var s := TrimLeft(input);
    var equals := IndexOf(s, '=').value;
    IndexIsFirst(s, '=');
    var quoted := s[equals + 1..][1..];
    assert s == s[..equals] + "=\"" + quoted;
  }

  lemma DispositionSays(value: Bytes)
    requires ParseDisposition(value).Ok?
    ensures SaysDisposition(value, ParseDisposition(value).value)
  {
    var d := ParseDisposition(value).value;
    var i := IndexOf(value, ';').value;
    IndexIsFirst(value, ';');
    var more := value[i + 1..];
    AttributeAssigns(more);
    var field := ParseAttribute(more).value;
    if d.filename.Some? {
      AttributeAssigns(field.rest[1..]);
    }
    assert value == value[..i] + ";" + more && Assigns(more, "name", d.name, field.rest);
  }

  predicate Flagged(b: bool, n: nat) {
    n == if b then 1 else 0
  }

  /** The disposition a line states. */
  ghost predicate LineSays(line: Bytes, d: Disposition) {
    var colon := IndexOf(line, ':');
    && colon.Some? && Carries(line, "content-disposition")
    && SaysDisposition(TrimRight(TrimLeft(line[colon.value + 1..])), d)
  }

  lemma LineCounts(line: Bytes, seen: Parsed)
    requires ParseLine(line, seen).Ok?
    ensures var p := ParseLine(line, seen).value;
            && (Carries(line, "content-disposition") || Carries(line, "content-type"))
            && !(Carries(line, "content-disposition") && Carries(line, "content-type"))
            && (Carries(line, "content-disposition") ==>
                  seen.disposition.None? && p.disposition.Some? && p.contentType == seen.contentType && LineSays(line, p.disposition.value))
            && (Carries(line, "content-type") ==> !seen.contentType && p.contentType && p.disposition == seen.disposition)
  {
    var colon := IndexOf(line, ':').value;
    assert |"content-disposition"| != |"content-type"|;
    var value := TrimRight(TrimLeft(line[colon + 1..]));
    if Carries(line, "content-disposition") {
      DispositionSays(value);
    }
  }

  predicate EachCarries(lines: seq<Bytes>) {
    forall i :: 0 <= i < |lines| ==> Carries(lines[i], "content-disposition") || Carries(lines[i], "content-type")
  }

  lemma {:induction false} LinesCount(lines: seq<Bytes>, seen: Parsed)
    requires ParseLines(lines, seen).Ok?
    ensures var p := ParseLines(lines, seen).value;
            && EachCarries(lines)
            && CountOf(lines, "content-disposition") + (if seen.disposition.Some? then 1 else 0) == (if p.disposition.Some? then 1 else 0)
            && CountOf(lines, "content-type") + (if seen.contentType then 1 else 0) == (if p.contentType then 1 else 0)
            && (seen.disposition.Some? ==> p.disposition == seen.disposition)
            && (seen.disposition.None? && p.disposition.Some? ==>
                  exists i :: 0 <= i < |lines| && LineSays(lines[i], p.disposition.value))
    decreases |lines|
  {
    if lines != [] {
      LineCounts(lines[0], seen);
      var next := ParseLine(lines[0], seen).value;
      LinesCount(lines[1..], next);
      var p := ParseLines(lines, seen).value;
      assert forall i :: 1 <= i < |lines| ==> lines[i] == lines[1..][i - 1];
      if seen.disposition.None? && p.disposition.Some? {
        if next.disposition.Some? {
          assert LineSays(lines[0], p.disposition.value);
        } else {
          var i :| 0 <= i < |lines[1..]| && LineSays(lines[1..][i], p.disposition.value);
          assert LineSays(lines[i + 1], p.disposition.value);
        }
      }
    }
  }

  /** An accepted block is one `Content-Disposition` line, which says `form-data`, the name and the
      filename found, at most one `Content-Type` line, and nothing else. */
  lemma AcceptedHeadersAre(text: Bytes)
    requires ParseHeaders(text).Ok?
    ensures var h, lines := ParseHeaders(text).value, Lines(text);
            && Utf8(text) && EachCarries(lines)
            && CountOf(lines, "content-disposition") == 1
            && CountOf(lines, "content-type") == (if h.contentType then 1 else 0)
            && (h.contentType ==> h.filename.Some?)
            && exists i :: 0 <= i < |lines| && LineSays(lines[i], Disposition(h.name, h.filename))
  {
    LinesCount(Lines(text), Parsed(None, false));
  }
}
