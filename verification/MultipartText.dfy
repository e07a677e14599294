/** What text the multipart decoder accepts: encodings of Unicode scalar values, and only these
    (section 3 of RFC 3629). */
module MultipartText {
  import opened Prelude
  import opened MultipartDelimiter
  import opened MultipartHeaders

  predicate Scalar(c: nat) {
    c < 0x11_0000 && !(0xD800 <= c < 0xE000)
  }

  /** The bytes of one scalar value. */
  function Encoded(c: nat): (s: Bytes)
    requires Scalar(c)
    ensures 0 < |s| <= 4
  {
    if c < 0x80 then [c as char]
    else if c < 0x800 then [(0xC0 + c / 64) as char, (0x80 + c % 64) as char]
    else if c < 0x1_0000 then [(0xE0 + c / 4096) as char, (0x80 + c / 64 % 64) as char, (0x80 + c % 64) as char]
    else
      [(0xF0 + c / 262144) as char, (0x80 + c / 4096 % 64) as char, (0x80 + c / 64 % 64) as char, (0x80 + c % 64) as char]
  }

  predicate Scalars(text: seq<nat>) {
    forall i :: 0 <= i < |text| ==> Scalar(text[i])
  }

  function EncodedAll(text: seq<nat>): Bytes
    requires Scalars(text)
  {
    if text == [] then "" else Encoded(text[0]) + EncodedAll(text[1..])
  }

  lemma ScalarLeads(c: nat, rest: Bytes)
    requires Scalar(c)
    ensures SequenceLength(Encoded(c) + rest) == |Encoded(c)|
  {
    var s := Encoded(c) + rest;
    assert s[0] == Encoded(c)[0];
    if c >= 0x80 {
      assert s[1] == Encoded(c)[1];
    }
    if c >= 0x800 {
      assert s[2] == Encoded(c)[2];
    }
    if c >= 0x1_0000 {
      assert s[3] == Encoded(c)[3];
    }
  }

  function Low(c: char): nat
    requires Continuation(c)
  {
    c as int - 0x80
  }

  lemma TwoBytes(a: nat, x: nat)
    requires 0xC2 <= a <= 0xDF && x < 64
    ensures var c := (a - 0xC0) * 64 + x; 0x80 <= c < 0x800 && 0xC0 + c / 64 == a && c % 64 == x
  {
  }

  lemma ThreeBytes(a: nat, x: nat, y: nat)
    requires 0xE0 <= a <= 0xEF && x < 64 && y < 64
    ensures var c := (a - 0xE0) * 4096 + x * 64 + y; c < 0x1_0000 && 0xE0 + c / 4096 == a && c / 64 % 64 == x && c % 64 == y
  {
    var c := (a - 0xE0) * 4096 + x * 64 + y;
    assert c / 64 == (a - 0xE0) * 64 + x;
  }

  lemma FourBytes(a: nat, x: nat, y: nat, z: nat)
    requires 0xF0 <= a <= 0xF4 && x < 64 && y < 64 && z < 64
    ensures var c := (a - 0xF0) * 262144 + x * 4096 + y * 64 + z;
            0xF0 + c / 262144 == a && c / 4096 % 64 == x && c / 64 % 64 == y && c % 64 == z
  {
    var c := (a - 0xF0) * 262144 + x * 4096 + y * 64 + z;
    assert c / 64 == (a - 0xF0) * 4096 + x * 64 + y;
    assert c / 4096 == (a - 0xF0) * 64 + x;
  }

  lemma TwoAreScalar(s: Bytes) returns (c: nat)
    requires SequenceLength(s) == 2
    ensures Scalar(c) && Encoded(c) == s[..2]
  {
    TwoBytes(s[0] as int, Low(s[1]));
    c := (s[0] as int - 0xC0) * 64 + Low(s[1]);
  }

  lemma ThreeAreScalar(s: Bytes) returns (c: nat)
    requires SequenceLength(s) == 3
    ensures Scalar(c) && Encoded(c) == s[..3]
  {
    assert Continuation(s[1]);
    ThreeBytes(s[0] as int, Low(s[1]), Low(s[2]));
    c := (s[0] as int - 0xE0) * 4096 + Low(s[1]) * 64 + Low(s[2]);
  }

  lemma FourAreScalar(s: Bytes) returns (c: nat)
    requires SequenceLength(s) == 4
    ensures Scalar(c) && Encoded(c) == s[..4]
  {
    assert Continuation(s[1]);
    FourBytes(s[0] as int, Low(s[1]), Low(s[2]), Low(s[3]));
    c := (s[0] as int - 0xF0) * 262144 + Low(s[1]) * 4096 + Low(s[2]) * 64 + Low(s[3]);
  }

  lemma SequenceIsScalar(s: Bytes) returns (c: nat)
    requires SequenceLength(s) > 0
    ensures Scalar(c) && Encoded(c) == s[..SequenceLength(s)]
  {
    match SequenceLength(s)
    case 2 => c := TwoAreScalar(s);
    case 3 => c := ThreeAreScalar(s);
    case 4 => c := FourAreScalar(s);
    case _ =>
      assert SequenceLength(s) == 1;
      c := s[0] as int;
  }

  lemma {:induction false} EncodedIsUtf8(text: seq<nat>)
    requires Scalars(text)
    ensures Utf8(EncodedAll(text))
    decreases |text|
  {
    if text != [] {
      var rest := EncodedAll(text[1..]);
      EncodedIsUtf8(text[1..]);
      ScalarLeads(text[0], rest);
      assert (Encoded(text[0]) + rest)[|Encoded(text[0])|..] == rest;
    }
  }

  lemma {:induction false} Utf8IsEncoded(s: Bytes) returns (text: seq<nat>)
    requires Utf8(s)
    ensures Scalars(text) && EncodedAll(text) == s
    decreases |s|
  {
    if s == [] {
      text := [];
    } else {
      var n := SequenceLength(s);
      var c := SequenceIsScalar(s);
      var rest := Utf8IsEncoded(s[n..]);
      text := [c] + rest;
      assert text[1..] == rest && s == s[..n] + s[n..];
    }
  }

  /** The accepted texts are exactly the encodings of scalar values: no overlong forms, no
      surrogates, nothing beyond U+10FFFF. */
  lemma TextIsEncoded(s: Bytes)
    ensures Utf8(s) <==> exists text :: Scalars(text) && EncodedAll(text) == s
  {
    if Utf8(s) {
      var text := Utf8IsEncoded(s);
    }
    if text :| Scalars(text) && EncodedAll(text) == s {
      EncodedIsUtf8(text);
    }
  }
}
