/** Attachment labels and digest texts as stored columns hold them
    (crates/noxide-blobs/src/transport.rs `AttachmentName`, crates/noxide-blobs/src/metadata.rs
    `hex` and `hash`). */
module BlobLabels {
  import opened Prelude

  // ----- labels -----

  const MAX_RAW_FILENAME_BYTES: nat := 255
  const MAX_FILENAME_BYTES: nat := 80
  const DEFAULT_NAME: string := "download.bin"

  /** The UTF-8 length of a text. */
  function Utf8Length(s: string): nat {
    if s == "" then 0
    else
      (if s[0] as int < 0x80 then 1 else if s[0] as int < 0x800 then 2 else if s[0] as int < 0x10000 then 3 else 4)
      + Utf8Length(s[1..])
  }

  predicate Edge(c: char) {
    c == '.' || c == '_' || c == '-'
  }

  predicate Safe(c: char) {
    'a' <= c <= 'z' || 'A' <= c <= 'Z' || '0' <= c <= '9' || Edge(c)
  }

  /** What follows the last separator. */
  function Basename(s: string): string {
    if s == "" then ""
    else if s[|s| - 1] == '/' || s[|s| - 1] == '\\' then ""
    else Basename(s[..|s| - 1]) + [s[|s| - 1]]
  }

  function Cleaned(s: string): (r: string)
    ensures |r| == |s| && forall i :: 0 <= i < |s| ==> r[i] == if Safe(s[i]) then s[i] else '_'
  {
    seq(|s|, i requires 0 <= i < |s| => if Safe(s[i]) then s[i] else '_')
  }

  function TrimLeft(s: string): string {
    if s != "" && Edge(s[0]) then TrimLeft(s[1..]) else s
  }

  function TrimRight(s: string): string {
    if s != "" && Edge(s[|s| - 1]) then TrimRight(s[..|s| - 1]) else s
  }

  /** `AttachmentName::normalize`. */
  function NormalName(input: string): Result<string> {
    if Utf8Length(input) > MAX_RAW_FILENAME_BYTES then Err
    else Ok(Shortened(Cleaned(Basename(input))))
  }

  function Shortened(cleaned: string): string {
    var taken := if |cleaned| <= MAX_FILENAME_BYTES then cleaned else cleaned[..MAX_FILENAME_BYTES];
    var trimmed := TrimRight(TrimLeft(taken));
    if trimmed == "" then DEFAULT_NAME else trimmed
  }

  /** A name that is its own label: short, safe and trimmed. */
  predicate IsLabel(s: string) {
    && 0 < |s| <= MAX_FILENAME_BYTES
    && (forall i :: 0 <= i < |s| ==> Safe(s[i]))
    && !Edge(s[0]) && !Edge(s[|s| - 1])
  }

  lemma {:induction false} TrimLeftSafe(s: string)
    requires forall i :: 0 <= i < |s| ==> Safe(s[i])
    ensures var t := TrimLeft(s); |t| <= |s| && (forall i :: 0 <= i < |t| ==> Safe(t[i])) && (t != "" ==> !Edge(t[0]))
  {
    if s != "" && Edge(s[0]) {
      TrimLeftSafe(s[1..]);
    }
  }

  lemma {:induction false} TrimRightSafe(s: string)
    requires (forall i :: 0 <= i < |s| ==> Safe(s[i])) && (s != "" ==> !Edge(s[0]))
    ensures var t := TrimRight(s);
            && |t| <= |s| && (forall i :: 0 <= i < |t| ==> Safe(t[i]))
            && (t != "" ==> !Edge(t[0]) && !Edge(t[|t| - 1]))
  {
    if s != "" && Edge(s[|s| - 1]) {
      assert |s| > 1;
      TrimRightSafe(s[..|s| - 1]);
    }
  }

  /** Every normalized name is a label. */
  lemma NormalNameIsLabel(input: string)
    ensures NormalName(input).Ok? ==> IsLabel(NormalName(input).value)
  {
    ShortenedIsLabel(Cleaned(Basename(input)));
  }

  lemma ShortenedIsLabel(cleaned: string)
    requires forall i :: 0 <= i < |cleaned| ==> Safe(cleaned[i])
    ensures IsLabel(Shortened(cleaned))
  {
    var taken := if |cleaned| <= MAX_FILENAME_BYTES then cleaned else cleaned[..MAX_FILENAME_BYTES];
    TrimLeftSafe(taken);
    TrimRightSafe(TrimLeft(taken));
  }

  lemma {:induction false} SafeBasename(s: string)
    requires forall i :: 0 <= i < |s| ==> Safe(s[i])
    ensures Basename(s) == s
  {
    if s != "" {
      SafeBasename(s[..|s| - 1]);
      assert s == s[..|s| - 1] + [s[|s| - 1]];
    }
  }

  lemma {:induction false} SafeLength(s: string)
    requires forall i :: 0 <= i < |s| ==> Safe(s[i])
    ensures Utf8Length(s) == |s|
  {
    if s != "" {
      SafeLength(s[1..]);
    }
  }

  /** Labels are left alone, so a stored name reads back as itself. */
  lemma LabelIsNormal(s: string)
    requires IsLabel(s)
    ensures NormalName(s) == Ok(s)
  {
    SafeBasename(s);
    SafeLength(s);
    SafeCleaned(s);
    LabelIsShort(s);
  }

  lemma SafeCleaned(s: string)
    requires forall i :: 0 <= i < |s| ==> Safe(s[i])
    ensures Cleaned(s) == s
  {
  }

  lemma LabelIsShort(s: string)
    requires IsLabel(s)
    ensures Shortened(s) == s
  {
  }

  predicate Separator(c: char) {
    c == '/' || c == '\\'
  }

  /** The last component of a path begins here. */
  predicate LastComponent(input: string, cut: nat) {
    && cut <= |input|
    && (cut > 0 ==> Separator(input[cut - 1]))
    && (forall i :: cut <= i < |input| ==> !Separator(input[i]))
  }

  /** What is trimmed at the ends: punctuation, and whatever is written as an underscore. */
  predicate Trimmed(c: char) {
    Edge(c) || !Safe(c)
  }

  lemma {:induction false} BasenameCuts(s: string) returns (cut: nat)
    ensures LastComponent(s, cut) && Basename(s) == s[cut..]
  {
    if s == "" || Separator(s[|s| - 1]) {
      cut := |s|;
    } else {
      cut := BasenameCuts(s[..|s| - 1]);
      assert s[cut..] == s[..|s| - 1][cut..] + [s[|s| - 1]];
    }
  }

  lemma {:induction false} TrimLeftCuts(s: string) returns (a: nat)
    ensures a <= |s| && TrimLeft(s) == s[a..]
    ensures (forall i :: 0 <= i < a ==> Edge(s[i])) && (a < |s| ==> !Edge(s[a]))
  {
    if s != "" && Edge(s[0]) {
      var rest := TrimLeftCuts(s[1..]);
      a := rest + 1;
      assert s[1..][rest..] == s[a..];
    } else {
      a := 0;
    }
  }

  lemma {:induction false} TrimRightCuts(s: string) returns (b: nat)
    ensures b <= |s| && TrimRight(s) == s[..b]
    ensures (forall i :: b <= i < |s| ==> Edge(s[i])) && (b > 0 ==> !Edge(s[b - 1]))
  {
    if s != "" && Edge(s[|s| - 1]) {
      b := TrimRightCuts(s[..|s| - 1]);
      assert s[..|s| - 1][..b] == s[..b];
    } else {
      b := |s|;
    }
  }

  /** The label of what is kept of a name: its characters from `a` to `b`, the unsafe ones as
      underscores, or the default when nothing is kept. */
  predicate Kept(taken: string, a: nat, b: nat, name: string) {
    && a <= b <= |taken|
    && (forall i :: 0 <= i < |taken| && !(a <= i < b) ==> Trimmed(taken[i]))
    && (a == b ==> name == DEFAULT_NAME)
    && (a < b ==>
          && !Trimmed(taken[a]) && !Trimmed(taken[b - 1])
          && |name| == b - a
          && (forall i :: 0 <= i < |name| ==> name[i] == if Safe(taken[a + i]) then taken[a + i] else '_'))
  }

  function FirstOf(base: string): string {
    if |base| <= MAX_FILENAME_BYTES then base else base[..MAX_FILENAME_BYTES]
  }

  lemma TrimCuts(s: string) returns (a: nat, b: nat)
    ensures a <= b <= |s| && TrimRight(TrimLeft(s)) == s[a..b]
    ensures forall i :: 0 <= i < |s| && !(a <= i < b) ==> Edge(s[i])
    ensures a < b ==> !Edge(s[a]) && !Edge(s[b - 1])
  {
    a := TrimLeftCuts(s);
    var left := s[a..];
    var n := TrimRightCuts(left);
    b := a + n;
    forall i | b <= i < |s| ensures Edge(s[i]) {
      assert left[i - a] == s[i];
    }
    if n > 0 {
      assert left[n - 1] == s[b - 1];
    }
  }

  lemma KeptOf(kept: string, taken: string, a: nat, b: nat, name: string)
    requires |taken| == |kept| && forall i :: 0 <= i < |kept| ==> taken[i] == if Safe(kept[i]) then kept[i] else '_'
    requires a <= b <= |taken| && name == if a == b then DEFAULT_NAME else taken[a..b]
    requires forall i :: 0 <= i < |taken| && !(a <= i < b) ==> Edge(taken[i])
    requires a < b ==> !Edge(taken[a]) && !Edge(taken[b - 1])
    ensures Kept(kept, a, b, name)
  {
  }

  lemma ShortenedKeeps(base: string) returns (a: nat, b: nat)
    ensures Kept(FirstOf(base), a, b, Shortened(Cleaned(base)))
  {
    var taken := FirstOf(Cleaned(base));
    a, b := TrimCuts(taken);
    KeptOf(FirstOf(base), taken, a, b, Shortened(Cleaned(base)));
  }

  /** What `normalize` makes of a name: it refuses exactly what is too long, and otherwise keeps the
      characters of the last component's first 80 between the trimmed ends. */
  lemma NormalNameKeeps(input: string) returns (cut: nat, a: nat, b: nat)
    ensures NormalName(input).Ok? <==> Utf8Length(input) <= MAX_RAW_FILENAME_BYTES
    ensures LastComponent(input, cut)
    ensures NormalName(input).Ok? ==> Kept(FirstOf(input[cut..]), a, b, NormalName(input).value)
  {
    cut := BasenameCuts(input);
    a, b := ShortenedKeeps(input[cut..]);
  }

  // ----- digests -----

  type Byte = x: nat | x < 256

  /** A SHA-256 digest. */
  type Digest = b: seq<Byte> | |b| == 32 witness seq(32, i => 0)

  function HexDigit(n: nat): (c: char)
    requires n < 16
    ensures DigitValue(c) == Some(n)
  {
    if n < 10 then ('0' as int + n) as char else ('a' as int + n - 10) as char
  }

  function DigitValue(c: char): (r: Option<nat>)
    ensures r.Some? ==> r.value < 16 && c == if r.value < 10 then ('0' as int + r.value) as char else ('a' as int + r.value - 10) as char
  {
    if '0' <= c <= '9' then Some(c as int - '0' as int)
    else if 'a' <= c <= 'f' then Some(c as int - 'a' as int + 10)
    else None
  }

  function HexOf(bytes: seq<Byte>): (s: string)
    ensures |s| == 2 * |bytes|
  {
    if bytes == [] then ""
    else HexOf(bytes[..|bytes| - 1]) + [HexDigit(bytes[|bytes| - 1] / 16), HexDigit(bytes[|bytes| - 1] % 16)]
  }

  /** `hex`. */
  method Hex(bytes: seq<Byte>) returns (out: string)
    ensures out == HexOf(bytes)
  {
    out := "";
    for i := 0 to |bytes|
      invariant out == HexOf(bytes[..i])
    {
      assert bytes[..i + 1][..i] == bytes[..i];
      out := out + [HexDigit(bytes[i] / 16)];
      out := out + [HexDigit(bytes[i] % 16)];
    }
    assert bytes[..|bytes|] == bytes;
  }

  /** The bytes a text of hex digits spells. */
  function Pairs(text: string): Option<seq<Byte>>
    requires |text| % 2 == 0
  {
    if text == "" then Some([])
    else
      var n := |text| - 2;
      var before, high, low := Pairs(text[..n]), DigitValue(text[n]), DigitValue(text[n + 1]);
      if before.None? || high.None? || low.None? then None else Some(before.value + [high.value * 16 + low.value])
  }

  /** The 32 bytes of a digest text. */
  function Unhex(text: string): Option<seq<Byte>> {
    if |text| != 64 then None else Pairs(text)
  }

  lemma HexAppends(bytes: seq<Byte>, a: char, b: char)
    requires DigitValue(a).Some? && DigitValue(b).Some?
    ensures HexOf(bytes + [DigitValue(a).value * 16 + DigitValue(b).value]) == HexOf(bytes) + [a, b]
  {
    var byte: Byte := DigitValue(a).value * 16 + DigitValue(b).value;
    assert byte / 16 == DigitValue(a).value && byte % 16 == DigitValue(b).value;
    assert (bytes + [byte])[..|bytes|] == bytes;
  }

  lemma SpelledBy(text: string, head: string, a: char, b: char, spelled: string)
    requires |text| >= 2 && head == text[..|text| - 2] && a == text[|text| - 2] && b == text[|text| - 1]
    requires spelled == head + [a, b]
    ensures spelled == text
  {
  }

  /** What is read is what `hex` writes as this text. */
  lemma {:induction false} PairsSpell(text: string)
    requires |text| % 2 == 0 && Pairs(text).Some?
    ensures HexOf(Pairs(text).value) == text
  {
    if text != "" {
      var n := |text| - 2;
      var head, a, b := text[..n], text[n], text[n + 1];
      PairsSpell(head);
      HexAppends(Pairs(head).value, a, b);
      SpelledBy(text, head, a, b, HexOf(Pairs(text).value));
    }
  }

  lemma ByteDigits(byte: Byte)
    ensures var a, b := DigitValue(HexDigit(byte / 16)), DigitValue(HexDigit(byte % 16));
            a.Some? && b.Some? && a.value * 16 + b.value == byte
  {
  }

  lemma HexAdds(bytes: seq<Byte>, byte: Byte)
    ensures HexOf(bytes + [byte]) == HexOf(bytes) + [HexDigit(byte / 16), HexDigit(byte % 16)]
  {
    assert (bytes + [byte])[..|bytes|] == bytes;
  }

  lemma PairsReadMore(bytes: seq<Byte>, byte: Byte)
    requires Pairs(HexOf(bytes)) == Some(bytes)
    ensures Pairs(HexOf(bytes + [byte])) == Some(bytes + [byte])
  {
    HexAdds(bytes, byte);
    ByteDigits(byte);
    PairsAppend(HexOf(bytes), HexDigit(byte / 16), HexDigit(byte % 16));
  }

  /** What `hex` writes is read back. */
  lemma {:induction false} PairsRead(bytes: seq<Byte>)
    ensures Pairs(HexOf(bytes)) == Some(bytes)
  {
    if bytes != [] {
      var n := |bytes| - 1;
      PairsRead(bytes[..n]);
      PairsReadMore(bytes[..n], bytes[n]);
      assert bytes == bytes[..n] + [bytes[n]];
    }
  }

  lemma PairsAppend(text: string, a: char, b: char)
    requires |text| % 2 == 0 && Pairs(text).Some? && DigitValue(a).Some? && DigitValue(b).Some?
    ensures Pairs(text + [a, b]) == Some(Pairs(text).value + [DigitValue(a).value * 16 + DigitValue(b).value])
  {
    var longer, n := text + [a, b], |text|;
    assert |longer| - 2 == n;
    assert longer[..n] == text && longer[n] == a && longer[n + 1] == b;
    LastPair(longer, text, a, b);
  }

  lemma LastPair(longer: string, text: string, a: char, b: char)
    requires |longer| == |text| + 2 && |text| % 2 == 0 && longer[..|text|] == text
    requires longer[|text|] == a && longer[|text| + 1] == b
    requires Pairs(text).Some? && DigitValue(a).Some? && DigitValue(b).Some?
    ensures Pairs(longer) == Some(Pairs(text).value + [DigitValue(a).value * 16 + DigitValue(b).value])
  {
  }

  /** Digest texts and digests correspond one to one. */
  lemma DigestTexts(text: string, bytes: seq<Byte>)
    requires |bytes| == 32
    ensures Unhex(text) == Some(bytes) <==> HexOf(bytes) == text
  {
    if Unhex(text) == Some(bytes) {
      PairsSpell(text);
    }
    if HexOf(bytes) == text {
      PairsRead(bytes);
    }
  }

  // ----- tokens -----

  /** The last `n` bytes of a number, high byte first. */
  function BytesOf(x: nat, n: nat): (b: seq<Byte>)
    ensures |b| == n
  {
    if n == 0 then [] else BytesOf(x / 256, n - 1) + [x % 256]
  }

  function NumberOf(b: seq<Byte>): nat {
    if b == [] then 0 else NumberOf(b[..|b| - 1]) * 256 + b[|b| - 1]
  }

  /** `n` bytes are enough for this number. */
  predicate Fits(x: nat, n: nat) {
    if n == 0 then x == 0 else Fits(x / 256, n - 1)
  }

  lemma {:induction false} BytesRead(x: nat, n: nat)
    requires Fits(x, n)
    ensures NumberOf(BytesOf(x, n)) == x
  {
    if n > 0 {
      BytesRead(x / 256, n - 1);
      assert BytesOf(x, n)[..n - 1] == BytesOf(x / 256, n - 1);
    }
  }

  lemma {:induction false} BytesSpell(b: seq<Byte>)
    ensures Fits(NumberOf(b), |b|) && BytesOf(NumberOf(b), |b|) == b
  {
    if b != [] {
      var n := |b| - 1;
      BytesSpell(b[..n]);
      assert NumberOf(b) / 256 == NumberOf(b[..n]) && NumberOf(b) % 256 == b[n];
    }
  }

  /** An identity as text: 64 lowercase hex digits. */
  function TokenText(x: nat): string {
    HexOf(BytesOf(x, 32))
  }

  /** `ObjectKey::parse` and `Commitment::parse`. */
  function ParseToken(text: string): Option<nat> {
    var bytes := Unhex(text);
    if bytes.None? then None else Some(NumberOf(bytes.value))
  }

  /** A text is a token exactly when it spells a 32-byte identity, and then it spells that one. */
  lemma TokenTexts(text: string, x: nat)
    ensures ParseToken(text) == Some(x) <==> Fits(x, 32) && TokenText(x) == text
  {
    if Fits(x, 32) && TokenText(x) == text {
      DigestTexts(text, BytesOf(x, 32));
      BytesRead(x, 32);
    }
    if ParseToken(text) == Some(x) {
      PairsSpell(text);
      PairsCount(text);
      BytesSpell(Unhex(text).value);
    }
  }

  lemma PairsCount(text: string)
    requires |text| % 2 == 0 && Pairs(text).Some?
    ensures 2 * |Pairs(text).value| == |text|
  {
    PairsSpell(text);
  }

  /** `hash`. */
  method Hash(text: string) returns (r: Result<seq<Byte>>)
    ensures r == if Unhex(text).Some? then Ok(Unhex(text).value) else Err
  {
    if |text| != 64 {
      return Err;
    }
    var out: seq<Byte> := [];
    var i := 0;
    while i < |text|
      invariant i <= |text| && i % 2 == 0 && Pairs(text[..i]) == Some(out)
    {
      var high, low := DigitValue(text[i]), DigitValue(text[i + 1]);
      var more := text[..i + 2];
      assert more[..i] == text[..i] && more[i] == text[i] && more[i + 1] == text[i + 1];
      if high.None? || low.None? {
        PairsFail(text, i + 2);
        return Err;
      }
      out := out + [high.value * 16 + low.value];
      i := i + 2;
    }
    assert text[..|text|] == text;
    r := Ok(out);
  }

  lemma {:induction false} PairsFail(text: string, i: nat)
    requires |text| % 2 == 0 && i <= |text| && i % 2 == 0 && Pairs(text[..i]).None?
    ensures Pairs(text).None?
    decreases |text|
  {
    if i == |text| {
      assert text[..i] == text;
    } else {
      var n := |text| - 2;
      assert text[..n][..i] == text[..i];
      PairsFail(text[..n], i);
    }
  }
}
