/** The console output budget of the asset builder (tools/build_assets.py, `ConsoleBudget`):
    a bounded line scanner whose verdict must not depend on how output arrives. */
module ConsoleBudget {
  import opened Prelude
  import opened Chunks

  const MAX_PENDING: nat := 4096
  const MAX_ARCHIVE: nat := 16 * 1024 * 1024 + 1024 * 1024
  const MAX_ASSET_BASE64: nat := 4 * ((MAX_ARCHIVE + 2) / 3)
  const MAX_ASSET_ENVELOPE: nat := MAX_ASSET_BASE64 + 2 * ((MAX_ASSET_BASE64 + 75) / 76) + 128

  const BEGIN: string := "NOXIDE_ASSETS_BEGIN\n"
  const END: string := "NOXIDE_ASSETS_END\n"

  // ----- the verdict on a whole output -----

  /** The output so far: whether an envelope is open or was seen, bytes charged to each budget, and
      the unfinished last line. */
  datatype Scan = Scan(inside: bool, seen: bool, diagnostics: nat, assets: nat, rest: string)

  const START := Scan(false, false, 0, 0, "")

  /** `replace(b'\r\n', b'\n')` on one line. */
  function Normalized(line: string): string {
    if |line| >= 2 && line[|line| - 2..] == "\r\n" then line[..|line| - 2] + "\n" else line
  }

  predicate Base64(c: char) {
    'A' <= c <= 'Z' || 'a' <= c <= 'z' || '0' <= c <= '9' || c == '+' || c == '/' || c == '='
  }

  /** A line of an envelope's body. */
  predicate BodyLine(line: string) {
    var text := Normalized(line);
    && text != "" && 0 < |text| - 1 <= 76
    && (forall i :: 0 <= i < |text| - 1 ==> Base64(text[i]))
  }

  /** The character a base64 encoder writes for six bits. */
  function Digit64(v: nat): char
    requires v < 64
  {
    if v < 26 then ('A' as int + v) as char
    else if v < 52 then ('a' as int + v - 26) as char
    else if v < 62 then ('0' as int + v - 52) as char
    else if v == 62 then '+'
    else '/'
  }

  predicate Base64Char(c: char) {
    c == '=' || exists v :: 0 <= v < 64 && Digit64(v) == c
  }

  lemma EncodedIsBase64(c: char)
    ensures Base64(c) <==> Base64Char(c)
  {
    if 'A' <= c <= 'Z' {
      assert Digit64(c as int - 'A' as int) == c;
    } else if 'a' <= c <= 'z' {
      assert Digit64(c as int - 'a' as int + 26) == c;
    } else if '0' <= c <= '9' {
      assert Digit64(c as int - '0' as int + 52) == c;
    } else if c == '+' {
      assert Digit64(62) == c;
    } else if c == '/' {
      assert Digit64(63) == c;
    }
  }

  /** Both line ends end the same line. */
  lemma LineEnds(text: string)
    requires text == "" || text[|text| - 1] != '\r'
    ensures Normalized(text + "\n") == text + "\n" && Normalized(text + "\r\n") == text + "\n"
  {
    assert (text + "\r\n")[|text|..] == "\r\n";
    if text != "" {
      assert (text + "\n")[|text| - 1] == text[|text| - 1];
    }
  }

  /** The body lines of an envelope are what a base64 encoder writes on lines of up to 76
      characters, with either line end. */
  lemma BodyLinesAreEncoded(text: string)
    requires text == "" || text[|text| - 1] != '\r'
    ensures BodyLine(text + "\n") <==> 1 <= |text| <= 76 && forall i :: 0 <= i < |text| ==> Base64Char(text[i])
    ensures BodyLine(text + "\r\n") <==> 1 <= |text| <= 76 && forall i :: 0 <= i < |text| ==> Base64Char(text[i])
  {
    LineEnds(text);
    forall i | 0 <= i < |text| ensures Base64(text[i]) <==> Base64Char(text[i]) {
      EncodedIsBase64(text[i]);
    }
    assert forall i :: 0 <= i < |text| ==> (text + "\n")[i] == text[i];
  }

  /** A complete line. */
  function Line(limit: nat, st: Scan, line: string): Result<Scan> {
    if !st.inside then
      if Normalized(line) == BEGIN then
        if st.seen then Err else Ok(Scan(true, true, st.diagnostics, st.assets + |line|, ""))
      else if st.diagnostics + |line| > limit then Err
      else Ok(st.(diagnostics := st.diagnostics + |line|, rest := ""))
    else if Normalized(line) != END && !BodyLine(line) then Err
    else if st.assets + |line| > MAX_ASSET_ENVELOPE then Err
    else Ok(st.(inside := Normalized(line) != END, assets := st.assets + |line|, rest := ""))
  }

  /** What to do with a complete line. */
  type Liner = (Scan, string) -> Result<Scan>

  function Byte(j: Liner, st: Scan, b: char): Result<Scan> {
    var line := st.rest + [b];
    if b == '\n' then j(st.(rest := ""), line) else Ok(st.(rest := line))
  }

  /** One byte after another, with no bound on a line. */
  function ScanFrom(j: Liner, st: Scan, s: string): Result<Scan>
    decreases |s|
  {
    if s == "" then Ok(st)
    else
      var next :- Byte(j, st, s[0]);
      ScanFrom(j, next, s[1..])
  }

  datatype Totals = Totals(diagnostics: nat, assets: nat)

  function VerdictWith(j: Liner, limit: nat, s: string): Result<Totals> {
    if |s| > limit + MAX_ASSET_ENVELOPE then Err
    else
      var st :- ScanFrom(j, START, s);
      if st.inside || st.diagnostics + |st.rest| > limit then Err
      else Ok(Totals(st.diagnostics + |st.rest|, st.assets))
  }

  function LinerOf(limit: nat): Liner {
    (st: Scan, line: string) => Line(limit, st, line)
  }

  /** The lines are judged by the budget's rules. */
  ghost predicate Judges(j: Liner, limit: nat) {
    forall st, line {:trigger Line(limit, st, line)} :: j(st, line) == Line(limit, st, line)
  }

  /** Whether an output is accepted, and what it is charged. */
  function Verdict(limit: nat, s: string): Result<Totals> {
    VerdictWith(LinerOf(limit), limit, s)
  }

  lemma {:induction false} ScanSplits(j: Liner, st: Scan, a: string, b: string)
    ensures ScanFrom(j, st, a + b) ==
              match ScanFrom(j, st, a)
              case Err => Err
              case Ok(mid) => ScanFrom(j, mid, b)
    decreases |a|
  {
    if a == "" {
      assert a + b == b;
    } else {
      assert (a + b)[1..] == a[1..] + b;
      var next := Byte(j, st, a[0]);
      if next.Ok? {
        ScanSplits(j, next.value, a[1..], b);
      }
    }
  }

  /** Text without a line end only lengthens the unfinished line. */
  lemma {:induction false} ScanPlain(j: Liner, st: Scan, s: string)
    requires '\n' !in s
    ensures ScanFrom(j, st, s) == Ok(st.(rest := st.rest + s))
    decreases |s|
  {
    if s == "" {
      assert st.rest + s == st.rest;
    } else {
      assert s[0] != '\n';
      ScanPlain(j, st.(rest := st.rest + [s[0]]), s[1..]);
      assert (st.rest + [s[0]]) + s[1..] == st.rest + s;
    }
  }

  lemma ScanLine(j: Liner, st: Scan, text: string, more: string)
    requires '\n' !in text
    ensures var line := text + ['\n'];
            ScanFrom(j, st, line + more) ==
              match j(st.(rest := ""), st.rest + line)
              case Err => Err
              case Ok(next) => ScanFrom(j, next, more)
  {
    var line := text + ['\n'];
    ScanPlain(j, st, text);
    var mid := st.(rest := st.rest + text);
    ScanSplits(j, st, text, ['\n'] + more);
    assert line + more == text + (['\n'] + more);
    assert (['\n'] + more)[0] == '\n' && (['\n'] + more)[1..] == more;
    assert mid.rest + ['\n'] == st.rest + line;
    assert mid.(rest := "") == st.(rest := "");
  }

  lemma FrontLine(j: Liner, st: Scan, s: string, end: nat)
    requires end < |s| && s[end] == '\n' && '\n' !in s[..end]
    ensures ScanFrom(j, st, s) ==
              match j(st.(rest := ""), st.rest + s[..end + 1])
              case Err => Err
              case Ok(next) => ScanFrom(j, next, s[end + 1..])
  {
    assert s[..end + 1] == s[..end] + ['\n'] && s == s[..end + 1] + s[end + 1..];
    ScanLine(j, st, s[..end], s[end + 1..]);
  }

  // ----- outputs that can no longer be accepted -----

  /** An over-long unfinished line inside an envelope, or one that already breaks the budget. */
  predicate Doomed(limit: nat, st: Scan) {
    |st.rest| > MAX_PENDING && (st.inside || st.diagnostics + |st.rest| > limit)
  }

  lemma LongLines(line: string)
    requires |line| > MAX_PENDING
    ensures Normalized(line) != BEGIN && Normalized(line) != END && !BodyLine(line)
  {
  }

  lemma DoomedLine(limit: nat, st: Scan, line: string)
    requires Doomed(limit, st) && |line| == |st.rest| + 1
    ensures Line(limit, st.(rest := ""), line).Err?
  {
    LongLines(line);
  }

  lemma {:induction false} DoomedStays(j: Liner, limit: nat, st: Scan, s: string)
    requires Judges(j, limit) && Doomed(limit, st)
    ensures var r := ScanFrom(j, st, s); r.Err? || Doomed(limit, r.value)
    decreases |s|
  {
    if s != "" {
      DoomedLine(limit, st, st.rest + [s[0]]);
      var next := Byte(j, st, s[0]);
      if next.Ok? {
        DoomedStays(j, limit, next.value, s[1..]);
      }
    }
  }

  /** Whatever follows, a doomed or refused output is rejected. */
  lemma NoWayBack(j: Liner, limit: nat, s: string, more: string)
    requires Judges(j, limit)
    requires var r := ScanFrom(j, START, s); r.Err? || Doomed(limit, r.value) || |s| > limit + MAX_ASSET_ENVELOPE
    ensures VerdictWith(j, limit, s + more).Err?
  {
    ScanSplits(j, START, s, more);
    var r := ScanFrom(j, START, s);
    if r.Ok? && Doomed(limit, r.value) {
      DoomedStays(j, limit, r.value, more);
    }
  }

  // ----- what an accepted output looks like -----

  predicate Opens(begin: string, body: seq<string>) {
    Normalized(begin) == BEGIN && (forall i :: 0 <= i < |body| ==> BodyLine(body[i]))
  }

  /** The envelope so far, as begin line, body and end line, and the text around it. */
  datatype Parts = Parts(before: string, begin: string, body: seq<string>, end: string, after: string)

  function Whole(p: Parts): string {
    p.before + p.begin + Concat(p.body) + p.end + p.after
  }

  ghost predicate Shaped(st: Scan, s: string, p: Parts) {
    && s == Whole(p) + st.rest
    && st.diagnostics == |p.before| + |p.after| && st.assets == |p.begin| + |Concat(p.body)| + |p.end| <= MAX_ASSET_ENVELOPE
    && (st.inside ==> st.seen && p.end == "" && p.after == "")
    && (st.seen ==> Opens(p.begin, p.body))
    && (!st.seen ==> p.body == [] && p.begin == p.end == p.after == "")
    && (st.seen && !st.inside ==> Normalized(p.end) == END)
  }

  lemma WholeAfter(p: Parts, line: string)
    ensures Whole(p.(after := p.after + line)) == Whole(p) + line
  {
  }

  lemma WholeInside(p: Parts, line: string)
    requires p.end == p.after == ""
    ensures Whole(p.(end := line)) == Whole(p) + line
    ensures Whole(p.(body := p.body + [line])) == Whole(p) + line && Concat(p.body + [line]) == Concat(p.body) + line
  {
    ConcatJoins(p.body, [line]);
    ConcatOne(line);
    Assoc(p.before + p.begin, Concat(p.body), line);
  }

  lemma WholeBefore(p: Parts, line: string)
    requires p.body == [] && p.begin == p.end == p.after == ""
    ensures Whole(p.(begin := line)) == Whole(p) + line
    ensures Whole(p.(before := p.before + line)) == Whole(p) + line
  {
  }

  /** A shape whose unfinished line is empty. */
  lemma ShapedAt(st: Scan, t: string, q: Parts)
    requires t == Whole(q) && st.rest == ""
    requires st.diagnostics == |q.before| + |q.after| && st.assets == |q.begin| + |Concat(q.body)| + |q.end| <= MAX_ASSET_ENVELOPE
    requires st.inside ==> st.seen && q.end == "" && q.after == ""
    requires st.seen ==> Opens(q.begin, q.body)
    requires !st.seen ==> q.body == [] && q.begin == q.end == q.after == ""
    requires st.seen && !st.inside ==> Normalized(q.end) == END
    ensures Shaped(st, t, q)
  {
    assert Whole(q) + "" == Whole(q);
  }

  lemma ShapedLine(limit: nat, st: Scan, s: string, p: Parts, line: string, t: string) returns (q: Parts)
    requires Shaped(st, s, p) && Line(limit, st, line).Ok? && t == Whole(p) + line
    ensures Shaped(Line(limit, st, line).value, t, q)
  {
    var next := Line(limit, st, line).value;
    if st.inside {
      WholeInside(p, line);
      if Normalized(line) == END {
        q := p.(end := line);
      } else {
        q := p.(body := p.body + [line]);
      }
    } else if Normalized(line) == BEGIN {
      WholeBefore(p, line);
      q := p.(begin := line);
      BeginIsShort(line);
    } else if st.seen {
      WholeAfter(p, line);
      q := p.(after := p.after + line);
    } else {
      WholeBefore(p, line);
      q := p.(before := p.before + line);
    }
    ShapedAt(next, t, q);
  }

  lemma RestIsIgnored(limit: nat, st: Scan, line: string)
    ensures Line(limit, st.(rest := ""), line) == Line(limit, st, line)
  {
  }

  lemma ShapedByte(j: Liner, limit: nat, st: Scan, done: string, p: Parts, b: char) returns (q: Parts)
    requires Judges(j, limit) && Shaped(st, done, p) && Byte(j, st, b).Ok?
    ensures Shaped(Byte(j, st, b).value, done + [b], q)
  {
    q := p;
    assert done + [b] == Whole(p) + (st.rest + [b]);
    if b == '\n' {
      RestIsIgnored(limit, st, st.rest + [b]);
      q := ShapedLine(limit, st, done, p, st.rest + [b], done + [b]);
    }
  }

  lemma Shift(done: string, s: string)
    requires s != ""
    ensures (done + [s[0]]) + s[1..] == done + s
  {
  }

  lemma {:induction false} ScanIsShaped(j: Liner, limit: nat, st: Scan, done: string, p: Parts, s: string, all: string) returns (q: Parts)
    requires Judges(j, limit) && Shaped(st, done, p) && ScanFrom(j, st, s).Ok? && all == done + s
    ensures Shaped(ScanFrom(j, st, s).value, all, q)
    decreases |s|
  {
    if s == "" {
      q := p;
      assert done + s == done;
    } else {
      var mid := ShapedByte(j, limit, st, done, p, s[0]);
      Shift(done, s);
      q := ScanIsShaped(j, limit, Byte(j, st, s[0]).value, done + [s[0]], mid, s[1..], all);
    }
  }

  /** An accepted output has no envelope, or one complete envelope within its limit; the rest is
      diagnostics within theirs, and the two totals account for every byte. */
  lemma AcceptedShape(limit: nat, s: string) returns (p: Parts)
    requires Verdict(limit, s).Ok?
    ensures var totals := Verdict(limit, s).value;
            && s == Whole(p)
            && totals.assets == |p.begin| + |Concat(p.body)| + |p.end| <= MAX_ASSET_ENVELOPE
            && totals.diagnostics == |p.before| + |p.after| <= limit
            && (totals.assets > 0 ==> Opens(p.begin, p.body) && Normalized(p.end) == END)
  {
    p := ShapeOf(LinerOf(limit), limit, s);
  }

  lemma ShapeOf(j: Liner, limit: nat, s: string) returns (p: Parts)
    requires Judges(j, limit) && VerdictWith(j, limit, s).Ok?
    ensures var totals := VerdictWith(j, limit, s).value;
            && s == Whole(p)
            && totals.assets == |p.begin| + |Concat(p.body)| + |p.end| <= MAX_ASSET_ENVELOPE
            && totals.diagnostics == |p.before| + |p.after| <= limit
            && (totals.assets > 0 ==> Opens(p.begin, p.body) && Normalized(p.end) == END)
  {
    var none := Parts("", "", [], "", "");
    assert Shaped(START, "", none);
    assert "" + s == s;
    p := ScanIsShaped(j, limit, START, "", none, s, s);
    p := WithRest(ScanFrom(j, START, s).value, s, p);
  }

  /** Outside an envelope the unfinished line is diagnostics too. */
  lemma WithRest(st: Scan, s: string, p: Parts) returns (q: Parts)
    requires Shaped(st, s, p) && !st.inside
    ensures s == Whole(q) && q.begin == p.begin && q.body == p.body && q.end == p.end
    ensures |q.before| + |q.after| == st.diagnostics + |st.rest|
  {
    if st.seen {
      WholeAfter(p, st.rest);
      q := p.(after := p.after + st.rest);
    } else {
      WholeBefore(p, st.rest);
      q := p.(before := p.before + st.rest);
    }
  }

  // ----- which outputs are accepted -----

  predicate IsLine(line: string) {
    line != "" && line[|line| - 1] == '\n' && '\n' !in line[..|line| - 1]
  }

  /** Lines of ordinary output. */
  predicate Ordinary(lines: seq<string>) {
    lines == [] || (IsLine(lines[0]) && Normalized(lines[0]) != BEGIN && Ordinary(lines[1..]))
  }

  /** Base64 lines of an envelope. */
  predicate Encoded(lines: seq<string>) {
    lines == [] || (IsLine(lines[0]) && BodyLine(lines[0]) && Normalized(lines[0]) != END && Encoded(lines[1..]))
  }

  lemma NextLine(j: Liner, st: Scan, line: string, more: string)
    requires IsLine(line) && st.rest == ""
    ensures ScanFrom(j, st, line + more) ==
              match j(st, line)
              case Err => Err
              case Ok(next) => ScanFrom(j, next, more)
  {
    assert line == line[..|line| - 1] + ['\n'];
    ScanLine(j, st, line[..|line| - 1], more);
    assert "" + line == line;
  }

  lemma FirstOf(lines: seq<string>, more: string)
    requires lines != []
    ensures Concat(lines) + more == lines[0] + (Concat(lines[1..]) + more)
    ensures |Concat(lines)| == |lines[0]| + |Concat(lines[1..])|
  {
    Assoc(lines[0], Concat(lines[1..]), more);
  }

  /** Outside an envelope, ordinary lines are charged as diagnostics. */
  lemma {:induction false} OrdinaryLines(j: Liner, limit: nat, st: Scan, lines: seq<string>, more: string)
    requires Judges(j, limit) && !st.inside && st.rest == "" && Ordinary(lines) && st.diagnostics + |Concat(lines)| <= limit
    ensures ScanFrom(j, st, Concat(lines) + more)
            == ScanFrom(j, st.(diagnostics := st.diagnostics + |Concat(lines)|), more)
    decreases |lines|
  {
    if lines == [] {
      assert Concat(lines) + more == more;
    } else {
      FirstOf(lines, more);
      OrdinaryFirst(j, limit, st, lines[0], Concat(lines[1..]) + more);
      OrdinaryLines(j, limit, st.(diagnostics := st.diagnostics + |lines[0]|), lines[1..], more);
    }
  }

  lemma OrdinaryStep(limit: nat, st: Scan, line: string)
    requires !st.inside && st.rest == "" && Normalized(line) != BEGIN && st.diagnostics + |line| <= limit
    ensures Line(limit, st, line) == Ok(st.(diagnostics := st.diagnostics + |line|))
  {
  }

  lemma OrdinaryFirst(j: Liner, limit: nat, st: Scan, line: string, more: string)
    requires Judges(j, limit) && !st.inside && st.rest == "" && IsLine(line) && Normalized(line) != BEGIN
    requires st.diagnostics + |line| <= limit
    ensures ScanFrom(j, st, line + more) == ScanFrom(j, st.(diagnostics := st.diagnostics + |line|), more)
  {
    NextLine(j, st, line, more);
    OrdinaryStep(limit, st, line);
  }

  lemma BodyFirst(j: Liner, limit: nat, st: Scan, line: string, more: string)
    requires Judges(j, limit) && st.inside && st.rest == "" && IsLine(line) && BodyLine(line) && Normalized(line) != END
    requires st.assets + |line| <= MAX_ASSET_ENVELOPE
    ensures ScanFrom(j, st, line + more) == ScanFrom(j, st.(assets := st.assets + |line|), more)
  {
    NextLine(j, st, line, more);
    BodyStep(limit, st, line);
  }

  lemma BodyStep(limit: nat, st: Scan, line: string)
    requires st.inside && st.rest == "" && BodyLine(line) && Normalized(line) != END && st.assets + |line| <= MAX_ASSET_ENVELOPE
    ensures Line(limit, st, line) == Ok(st.(assets := st.assets + |line|))
  {
  }

  lemma BeginStep(limit: nat, st: Scan, begin: string)
    requires st.rest == "" && Normalized(begin) == BEGIN && !st.inside && !st.seen
    ensures Line(limit, st, begin) == Ok(Scan(true, true, st.diagnostics, st.assets + |begin|, ""))
  {
  }

  lemma EndStep(limit: nat, st: Scan, end: string)
    requires st.rest == "" && Normalized(end) == END && st.inside && st.assets + |end| <= MAX_ASSET_ENVELOPE
    ensures Line(limit, st, end) == Ok(st.(inside := false, assets := st.assets + |end|))
  {
  }

  /** Inside one, base64 lines are charged to it. */
  lemma {:induction false} BodyLines(j: Liner, limit: nat, st: Scan, lines: seq<string>, more: string)
    requires Judges(j, limit) && st.inside && st.rest == "" && st.assets + |Concat(lines)| <= MAX_ASSET_ENVELOPE
    requires Encoded(lines)
    ensures ScanFrom(j, st, Concat(lines) + more) == ScanFrom(j, st.(assets := st.assets + |Concat(lines)|), more)
    decreases |lines|
  {
    if lines == [] {
      assert Concat(lines) + more == more;
    } else {
      FirstOf(lines, more);
      BodyFirst(j, limit, st, lines[0], Concat(lines[1..]) + more);
      BodyLines(j, limit, st.(assets := st.assets + |lines[0]|), lines[1..], more);
    }
  }

  /** Ordinary output within the limit is accepted, its unfinished last line included. */
  lemma OrdinaryIsAccepted(limit: nat, lines: seq<string>, rest: string)
    requires Ordinary(lines) && '\n' !in rest && |Concat(lines)| + |rest| <= limit
    ensures Verdict(limit, Concat(lines) + rest) == Ok(Totals(|Concat(lines)| + |rest|, 0))
  {
    OrdinaryScans(LinerOf(limit), limit, lines, rest);
  }

  lemma OrdinaryScans(j: Liner, limit: nat, lines: seq<string>, rest: string)
    requires Judges(j, limit) && Ordinary(lines) && '\n' !in rest && |Concat(lines)| + |rest| <= limit
    ensures VerdictWith(j, limit, Concat(lines) + rest) == Ok(Totals(|Concat(lines)| + |rest|, 0))
  {
    OrdinaryEnd(j, limit, START, lines, rest);
  }

  /** Ordinary output to the end. */
  lemma OrdinaryEnd(j: Liner, limit: nat, st: Scan, lines: seq<string>, rest: string)
    requires Judges(j, limit) && !st.inside && st.rest == "" && Ordinary(lines) && '\n' !in rest
    requires st.diagnostics + |Concat(lines)| <= limit
    ensures ScanFrom(j, st, Concat(lines) + rest) == Ok(st.(diagnostics := st.diagnostics + |Concat(lines)|, rest := rest))
  {
    OrdinaryLines(j, limit, st, lines, rest);
    PlainEnd(j, st.(diagnostics := st.diagnostics + |Concat(lines)|), rest);
  }

  lemma PlainEnd(j: Liner, st: Scan, rest: string)
    requires st.rest == "" && '\n' !in rest
    ensures ScanFrom(j, st, rest) == Ok(st.(rest := rest))
  {
    ScanPlain(j, st, rest);
    assert "" + rest == rest;
  }

  /** The output of a build: ordinary lines, one envelope, ordinary lines. */
  datatype Build = Build(before: seq<string>, begin: string, body: seq<string>, end: string, after: seq<string>, rest: string)

  function Envelope(b: Build): string {
    b.begin + (Concat(b.body) + b.end)
  }

  function Output(b: Build): string {
    Concat(b.before) + (b.begin + (Concat(b.body) + (b.end + (Concat(b.after) + b.rest))))
  }

  predicate WellFormed(b: Build) {
    && Ordinary(b.before) && Ordinary(b.after) && '\n' !in b.rest
    && IsLine(b.begin) && Normalized(b.begin) == BEGIN && IsLine(b.end) && Normalized(b.end) == END
    && Encoded(b.body)
  }

  /** So is output around one complete envelope, each within its limit. */
  lemma BuildIsAccepted(limit: nat, b: Build)
    requires WellFormed(b) && |Envelope(b)| <= MAX_ASSET_ENVELOPE
    requires |Concat(b.before)| + |Concat(b.after)| + |b.rest| <= limit
    ensures Verdict(limit, Output(b)) == Ok(Totals(|Concat(b.before)| + |Concat(b.after)| + |b.rest|, |Envelope(b)|))
  {
    BuildScans(LinerOf(limit), limit, b);
  }

  lemma BuildScans(j: Liner, limit: nat, b: Build)
    requires Judges(j, limit) && WellFormed(b) && |Envelope(b)| <= MAX_ASSET_ENVELOPE
    requires |Concat(b.before)| + |Concat(b.after)| + |b.rest| <= limit
    ensures VerdictWith(j, limit, Output(b)) == Ok(Totals(|Concat(b.before)| + |Concat(b.after)| + |b.rest|, |Envelope(b)|))
  {
    BuildReaches(j, limit, b);
    OutputLength(b);
  }

  lemma OutputLength(b: Build)
    ensures |Output(b)| == |Concat(b.before)| + |Envelope(b)| + |Concat(b.after)| + |b.rest|
  {
  }

  lemma BuildReaches(j: Liner, limit: nat, b: Build)
    requires Judges(j, limit) && WellFormed(b) && |Envelope(b)| <= MAX_ASSET_ENVELOPE
    requires |Concat(b.before)| + |Concat(b.after)| + |b.rest| <= limit
    ensures ScanFrom(j, START, Output(b)) == Ok(Scan(false, true, |Concat(b.before)| + |Concat(b.after)|, |Envelope(b)|, b.rest))
  {
    var st1 := START.(diagnostics := |Concat(b.before)|);
    var st4 := Scan(false, true, st1.diagnostics, |Envelope(b)|, "");
    var more := Concat(b.after) + b.rest;
    OrdinaryLines(j, limit, START, b.before, b.begin + (Concat(b.body) + (b.end + more)));
    EnvelopeScans(j, limit, st1, b, more);
    OrdinaryEnd(j, limit, st4, b.after, b.rest);
  }

  /** The envelope, from its begin line to its end line. */
  lemma EnvelopeScans(j: Liner, limit: nat, st: Scan, b: Build, more: string)
    requires Judges(j, limit) && !st.inside && !st.seen && st.assets == 0 && st.rest == ""
    requires WellFormed(b) && |Envelope(b)| <= MAX_ASSET_ENVELOPE
    ensures ScanFrom(j, st, b.begin + (Concat(b.body) + (b.end + more)))
            == ScanFrom(j, Scan(false, true, st.diagnostics, |Envelope(b)|, ""), more)
  {
    var inside := Scan(true, true, st.diagnostics, |b.begin|, "");
    BeginFirst(j, limit, st, b.begin, Concat(b.body) + (b.end + more));
    BodyLines(j, limit, inside, b.body, b.end + more);
    EndFirst(j, limit, inside.(assets := |b.begin| + |Concat(b.body)|), b.end, more);
  }

  lemma BeginFirst(j: Liner, limit: nat, st: Scan, begin: string, more: string)
    requires Judges(j, limit) && !st.inside && !st.seen && st.assets == 0 && st.rest == "" && IsLine(begin) && Normalized(begin) == BEGIN
    ensures ScanFrom(j, st, begin + more) == ScanFrom(j, Scan(true, true, st.diagnostics, |begin|, ""), more)
  {
    NextLine(j, st, begin, more);
    BeginStep(limit, st, begin);
  }

  lemma EndFirst(j: Liner, limit: nat, st: Scan, end: string, more: string)
    requires Judges(j, limit) && st.inside && st.rest == "" && IsLine(end) && Normalized(end) == END
    requires st.assets + |end| <= MAX_ASSET_ENVELOPE
    ensures ScanFrom(j, st, end + more) == ScanFrom(j, st.(inside := false, assets := st.assets + |end|), more)
  {
    NextLine(j, st, end, more);
    EndStep(limit, st, end);
  }

  // ----- the scanner -----

  class Budget {
    const limit: nat
    /** How lines are judged. */
    ghost const judge: Liner
    var pending: string
    var longLine: bool
    var inside: bool
    var seen: bool
    var diagnostics: nat
    var assetBytes: nat
    var total: nat
    /** Everything fed so far, and the part of the unfinished line already charged. */
    ghost var stream: string
    ghost var flushed: string

    /** The scan up to the start of `pending`. */
    ghost function Reached(): Scan
      requires |flushed| <= diagnostics
      reads this
    {
      Scan(inside, seen, diagnostics - |flushed|, assetBytes, flushed)
    }

    /** The counters, whatever is still pending. */
    ghost predicate Counting()
      reads this
    {
      && Judges(judge, limit)
      && |flushed| <= diagnostics <= limit && assetBytes <= MAX_ASSET_ENVELOPE
      && total == |stream| == diagnostics + assetBytes + |pending|
      && (!seen ==> assetBytes == 0) && (inside ==> seen) && (longLine <==> flushed != "")
      && (longLine ==> |flushed| > MAX_PENDING && !inside)
      && ScanFrom(judge, START, stream) == ScanFrom(judge, Reached(), pending)
    }

    /** Between feeds the pending text is bounded and holds no complete line. */
    ghost predicate Valid()
      reads this
    {
      Counting() && '\n' !in pending && |pending| <= MAX_PENDING && total <= limit + MAX_ASSET_ENVELOPE
    }

    constructor (limit: nat)
      ensures Valid() && this.limit == limit && stream == "" && judge == LinerOf(limit)
    {
      this.limit := limit;
      judge := LinerOf(limit);
      pending, longLine, inside, seen := "", false, false, false;
      diagnostics, assetBytes, total := 0, 0, 0;
      stream, flushed := "", "";
    }

    /** `_diagnostic`. */
    method Diagnostic(size: nat) returns (ok: bool)
      modifies this`diagnostics
      ensures diagnostics == old(diagnostics) + size && (ok <==> diagnostics <= limit)
    {
      diagnostics := diagnostics + size;
      ok := diagnostics <= limit;
    }

    /** `_line`: the rest of a line of which `flushed` was charged before. */
    method TakeLine(line: string) returns (ok: bool)
      requires Judges(judge, limit) && |flushed| <= diagnostics <= limit && assetBytes <= MAX_ASSET_ENVELOPE
      requires (!seen ==> assetBytes == 0) && (inside ==> seen) && (longLine <==> flushed != "") && (longLine ==> |flushed| > MAX_PENDING && !inside)
      modifies this`diagnostics, this`assetBytes, this`inside, this`seen, this`longLine, this`flushed
      ensures ok <==> judge(old(Reached()).(rest := ""), old(flushed) + line).Ok?
      ensures ok ==> flushed == "" && !longLine && diagnostics <= limit && assetBytes <= MAX_ASSET_ENVELOPE
      ensures ok ==> judge(old(Reached()).(rest := ""), old(flushed) + line) == Ok(Reached())
      ensures ok ==> (!seen ==> assetBytes == 0) && (inside ==> seen)
      ensures ok ==> diagnostics + assetBytes == old(diagnostics) + old(assetBytes) + |line|
    {
      var normalized := Normalized(line);
      ghost var judged := Line(limit, Reached().(rest := ""), flushed + line);
      if longLine {
        LongLines(flushed + line);
      } else {
        assert flushed + line == line;
      }
      if !inside {
        if !longLine && normalized == BEGIN {
          BeginIsShort(line);
          if seen {
            return false;
          }
          inside, seen := true, true;
          assetBytes := assetBytes + |line|;
          ok := true;
        } else {
          ok := Diagnostic(|line|);
        }
        longLine, flushed := false, "";
      } else {
        assetBytes := assetBytes + |line|;
        if normalized == END {
          inside := false;
        } else if !BodyLine(line) {
          return false;
        }
        ok := assetBytes <= MAX_ASSET_ENVELOPE;
      }
    }

    /** The complete lines at the front of the pending text. */
    method TakeLines() returns (ok: bool)
      requires Counting()
      modifies this`pending, this`diagnostics, this`assetBytes, this`inside, this`seen, this`longLine, this`flushed
      ensures ok ==> Counting() && '\n' !in pending
      ensures !ok ==> ScanFrom(judge, START, stream).Err?
    {
      while true
        invariant Counting()
        decreases |pending|
      {
        var end := IndexOf(pending, '\n');
        if end.None? {
          return true;
        }
        ok := FirstLine(end.value);
        if !ok {
          return;
        }
      }
    }

    /** The first complete line of the pending text. */
    method FirstLine(end: nat) returns (ok: bool)
      requires Counting() && end < |pending| && pending[end] == '\n' && '\n' !in pending[..end]
      modifies this`pending, this`diagnostics, this`assetBytes, this`inside, this`seen, this`longLine, this`flushed
      ensures |pending| < |old(pending)|
      ensures ok ==> Counting()
      ensures !ok ==> ScanFrom(judge, START, stream).Err?
    {
      var line := pending[..end + 1];
      FrontLine(judge, Reached(), pending, end);
      ghost var next := judge(Reached().(rest := ""), flushed + line);
      ghost var rest := pending[end + 1..];
      assert ScanFrom(judge, START, stream) == if next.Err? then Err else ScanFrom(judge, next.value, rest);
      pending := pending[end + 1..];
      ok := TakeLine(line);
      assert ok ==> next == Ok(Reached());
    }

    /** `feed`. A refusal means that no continuation can be accepted. */
    method Feed(chunk: string) returns (ok: bool)
      requires Valid()
      modifies this
      ensures stream == old(stream) + chunk
      ensures ok ==> Valid()
      ensures !ok ==> var r := ScanFrom(judge, START, stream);
                      r.Err? || Doomed(limit, r.value) || |stream| > limit + MAX_ASSET_ENVELOPE
    {
      total := total + |chunk|;
      ScanSplits(judge, START, stream, chunk);
      ScanSplits(judge, Reached(), pending, chunk);
      stream := stream + chunk;
      if total > limit + MAX_ASSET_ENVELOPE {
        return false;
      }
      pending := pending + chunk;
      ok := TakeLines();
      if ok && |pending| > MAX_PENDING {
        ScanPlain(judge, Reached(), pending);
        if inside {
          return false;
        }
        ok := Flush();
      }
    }

    /** An over-long unfinished line is charged at once. */
    method Flush() returns (ok: bool)
      requires Counting() && '\n' !in pending && |pending| > MAX_PENDING && !inside
      requires total <= limit + MAX_ASSET_ENVELOPE
      requires ScanFrom(judge, START, stream) == Ok(Reached().(rest := flushed + pending))
      modifies this`pending, this`diagnostics, this`longLine, this`flushed
      ensures ok ==> Valid()
      ensures !ok ==> var r := ScanFrom(judge, START, stream); r.Err? || Doomed(limit, r.value)
    {
      ok := Diagnostic(|pending|);
      flushed := flushed + pending;
      pending := "";
      longLine := true;
    }

    /** `finish`. */
    method Finish() returns (ok: bool)
      requires Valid()
      modifies this`pending, this`diagnostics
      ensures VerdictWith(judge, limit, stream) == if ok then Ok(Totals(diagnostics, assetBytes)) else Err
    {
      ScanPlain(judge, Reached(), pending);
      ok := true;
      if pending != "" {
        if inside {
          return false;
        }
        ok := Diagnostic(|pending|);
        pending := "";
      }
      ok := ok && !inside;
    }
  }

  /** Feed every chunk and finish. The verdict and the totals are those of the whole output,
      however it was cut. */
  method Judge(limit: nat, chunks: seq<string>) returns (r: Result<Totals>)
    ensures r == Verdict(limit, Concat(chunks))
  {
    var budget := new Budget(limit);
    r := FeedAll(budget, chunks);
  }

  /** Chunk after chunk into a new budget. */
  method FeedAll(budget: Budget, chunks: seq<string>) returns (r: Result<Totals>)
    requires budget.Valid() && budget.stream == ""
    modifies budget
    ensures r == VerdictWith(budget.judge, budget.limit, Concat(chunks))
  {
    for i := 0 to |chunks|
      invariant budget.Valid() && budget.stream == Concat(chunks[..i])
    {
      ConcatNext(chunks, i);
      ConcatCut(chunks, i + 1);
      var ok := budget.Feed(chunks[i]);
      if !ok {
        NoWayBack(budget.judge, budget.limit, Concat(chunks[..i + 1]), Concat(chunks[i + 1..]));
        return Err;
      }
    }
    assert chunks[..|chunks|] == chunks;
    var ok := budget.Finish();
    r := if ok then Ok(Totals(budget.diagnostics, budget.assetBytes)) else Err;
  }

  lemma BeginIsShort(line: string)
    requires Normalized(line) == BEGIN
    ensures |line| <= |BEGIN| + 1
  {
  }
}
