/** Streaming delimiter matching (crates/noxide-blobs/src/multipart.rs, `Matcher`).

    Bytes are characters of the same code, so that delimiters read as text. */
module MultipartDelimiter {

  type Bytes = string

  // ----- what a match is -----

  /** The last `k` bytes of `s` are the first `k` bytes of `d`. */
  predicate Matches(d: Bytes, s: Bytes, k: nat) {
    k <= |d| && k <= |s| && s[|s| - k..] == d[..k]
  }

  predicate EndsWith(s: Bytes, d: Bytes) {
    |d| <= |s| && s[|s| - |d|..] == d
  }

  /** The longest match of length at most `k`. */
  function LongestUpTo(d: Bytes, s: Bytes, k: nat): (n: nat)
    requires k <= |d|
    ensures n <= k && n <= |s|
  {
    if k == 0 || Matches(d, s, k) then k else LongestUpTo(d, s, k - 1)
  }

  /** The longest proper prefix of the delimiter that ends the stream. */
  function Longest(d: Bytes, s: Bytes): (n: nat)
    requires d != []
    ensures n < |d| && n <= |s|
  {
    LongestUpTo(d, s, |d| - 1)
  }

  lemma {:induction false} LongestUpToMatches(d: Bytes, s: Bytes, k: nat)
    requires k <= |d|
    ensures Matches(d, s, LongestUpTo(d, s, k))
    ensures forall j :: LongestUpTo(d, s, k) < j <= k ==> !Matches(d, s, j)
  {
    if k > 0 && !Matches(d, s, k) {
      LongestUpToMatches(d, s, k - 1);
    }
  }

  lemma LongestMatches(d: Bytes, s: Bytes)
    requires d != []
    ensures Matches(d, s, Longest(d, s))
    ensures forall j :: Longest(d, s) < j < |d| ==> !Matches(d, s, j)
  {
    LongestUpToMatches(d, s, |d| - 1);
  }

  /** No prefix of the stream ends with the delimiter. */
  predicate Absent(d: Bytes, s: Bytes) {
    forall e :: 0 <= e <= |s| ==> !EndsWith(s[..e], d)
  }

  /** `e` is where the first occurrence of the delimiter ends. */
  predicate FirstEnd(d: Bytes, s: Bytes, e: nat) {
    && e <= |s|
    && EndsWith(s[..e], d)
    && (forall j :: 0 <= j < e ==> !EndsWith(s[..j], d))
  }

  lemma LongestIsUnique(d: Bytes, s: Bytes, k: nat)
    requires d != [] && k < |d| && Matches(d, s, k)
    requires forall j :: k < j < |d| ==> !Matches(d, s, j)
    ensures k == Longest(d, s)
  {
    LongestMatches(d, s);
  }

  /** A match within a match is a border of the delimiter's own prefix. */
  lemma MatchOfMatch(d: Bytes, s: Bytes, k: nat, j: nat)
    requires Matches(d, s, k) && j <= k
    ensures Matches(d, s, j) <==> Matches(d, d[..k], j)
  {
    assert s[|s| - j..] == s[|s| - k..][k - j..];
    assert d[..k][k - j..] == s[|s| - k..][k - j..];
  }

  /** Extending the stream by one byte extends exactly the matches that byte continues. */
  lemma MatchExtends(d: Bytes, s: Bytes, b: char, j: nat)
    requires 0 < j <= |d|
    ensures Matches(d, s + [b], j) <==> Matches(d, s, j - 1) && d[j - 1] == b
  {
    var t := s + [b];
    if j <= |t| {
      assert t[|t| - j..] == s[|s| - (j - 1)..] + [b];
      assert d[..j] == d[..j - 1] + [d[j - 1]];
    }
  }

  lemma AbsentExtends(d: Bytes, s: Bytes, b: char)
    requires Absent(d, s) && !EndsWith(s + [b], d)
    ensures Absent(d, s + [b])
  {
    forall e | 0 <= e <= |s| + 1
      ensures !EndsWith((s + [b])[..e], d)
    {
      if e <= |s| {
        assert (s + [b])[..e] == s[..e];
      } else {
        assert (s + [b])[..e] == s + [b];
      }
    }
  }

  lemma FirstEndHere(d: Bytes, s: Bytes, b: char)
    requires Absent(d, s) && EndsWith(s + [b], d)
    ensures FirstEnd(d, s + [b], |s| + 1)
  {
    assert (s + [b])[..|s| + 1] == s + [b];
    forall j | 0 <= j < |s| + 1
      ensures !EndsWith((s + [b])[..j], d)
    {
      assert (s + [b])[..j] == s[..j];
    }
  }

  lemma EmptyStream(d: Bytes)
    requires d != []
    ensures Absent(d, []) && Longest(d, []) == 0
  {
  }

  // ----- the matcher -----

  /** `failure[i]` is the longest proper border of the first `i + 1` delimiter bytes. */
  predicate IsFailureTable(d: Bytes, failure: seq<nat>, n: nat) {
    && n <= |d| && n <= |failure|
    && (forall i :: 0 <= i < n ==> IsLongestBorder(d, d[..i + 1], failure[i]))
  }

  /** `k` is the longest match of `s` shorter than `s` itself. */
  predicate IsLongestBorder(d: Bytes, s: Bytes, k: nat) {
    k < |s| && Matches(d, s, k) && (forall j :: k < j < |s| ==> !Matches(d, s, j))
  }

  /** Falling back skips no match: the next shorter match after `k` is `failure[k - 1]`. */
  lemma FallbackIsNext(d: Bytes, failure: seq<nat>, n: nat, s: Bytes, k: nat, j: nat)
    requires IsFailureTable(d, failure, n) && 0 < k <= n
    requires Matches(d, s, k)
    requires failure[k - 1] < j < k
    ensures !Matches(d, s, j)
    ensures Matches(d, s, failure[k - 1])
  {
    assert IsLongestBorder(d, d[..k - 1 + 1], failure[k - 1]);
    MatchOfMatch(d, s, k, j);
    MatchOfMatch(d, s, k, failure[k - 1]);
  }

  /** After falling back as far as needed, one comparison settles the new longest match. */
  lemma Settles(d: Bytes, s: Bytes, b: char, k: nat)
    requires k < |d| && Matches(d, s, k)
    requires forall j :: k < j < |d| && Matches(d, s, j) ==> d[j] != b
    requires k == 0 || d[k] == b
    ensures var n := if d[k] == b then k + 1 else 0;
            && Matches(d, s + [b], n)
            && (EndsWith(s + [b], d) <==> n == |d|)
            && (n < |d| ==> n == Longest(d, s + [b]))
  {
    var n := if d[k] == b then k + 1 else 0;
    forall j | 0 < j <= |d|
      ensures Matches(d, s + [b], j) <==> Matches(d, s, j - 1) && d[j - 1] == b
    {
      MatchExtends(d, s, b, j);
    }
    assert EndsWith(s + [b], d) <==> Matches(d, s + [b], |d|);
    if n < |d| {
      LongestIsUnique(d, s + [b], n);
    }
  }

  /** The failure table of `Matcher::new`. */
  method BuildTable(d: Bytes) returns (table: seq<nat>)
    requires d != []
    ensures |table| == |d| && IsFailureTable(d, table, |d|)
  {
    table := [0];
    var k: nat := 0;
    for index := 1 to |d|
      invariant |table| == index
      invariant IsFailureTable(d, table, index)
      invariant k == table[index - 1]
    {
      assert d[..index + 1] == d[..index] + [d[index]];
      k := NextBorder(d, table, d[..index], k, d[index]);
      table := table + [k];
    }
  }

  /** Its inner loop: the longest proper border once `s` is extended by `b`. */
  method NextBorder(d: Bytes, table: seq<nat>, ghost s: Bytes, start: nat, b: char) returns (k: nat)
    requires 0 < |s| < |d| && |table| == |s| && IsFailureTable(d, table, |s|)
    requires s == d[..|s|] && d[|s|] == b
    requires start == table[|s| - 1]
    ensures IsLongestBorder(d, s + [b], k)
  {
    k := start;
    assert d[..|s| - 1 + 1] == s;
    while k > 0 && b != d[k]
      invariant k < |s| && Matches(d, s, k)
      invariant forall j :: k < j < |s| && Matches(d, s, j) ==> d[j] != b
    {
      forall j | table[k - 1] < j < k
        ensures !Matches(d, s, j)
      {
        FallbackIsNext(d, table, |s|, s, k, j);
      }
      assert IsLongestBorder(d, d[..k - 1 + 1], table[k - 1]);
      MatchOfMatch(d, s, k, table[k - 1]);
      k := table[k - 1];
    }
    forall j | 0 < j <= |s|
      ensures Matches(d, s + [b], j) <==> Matches(d, s, j - 1) && d[j - 1] == b
    {
      MatchExtends(d, s, b, j);
    }
    if d[k] == b {
      k := k + 1;
    }
  }

  /** What falls off the match and what the byte adds, put together. */
  lemma Released(was: Bytes, released: Bytes, held: Bytes, b: char, rest: Bytes, tail: Bytes)
    requires was == released + held && held + [b] == rest + tail
    ensures was + [b] == (released + rest) + tail
  {
    assert was + [b] == released + (held + [b]);
  }

  class Matcher {
    const delimiter: Bytes
    const failure: seq<nat>
    var matched: nat
    /** Everything fed since construction or since the last complete match. */
    ghost var stream: Bytes
    /** How many times the table was consulted for that stream. */
    ghost var fallbacks: nat

    ghost predicate Valid()
      reads this
    {
      && delimiter != []
      && |failure| == |delimiter|
      && IsFailureTable(delimiter, failure, |delimiter|)
      && matched == Longest(delimiter, stream)
      && Absent(delimiter, stream)
      && fallbacks + matched <= |stream|
    }

    constructor (d: Bytes)
      requires d != []
      ensures Valid() && delimiter == d && stream == [] && matched == 0 && fallbacks == 0
    {
      var table := BuildTable(d);
      delimiter := d;
      failure := table;
      matched := 0;
      stream := [];
      fallbacks := 0;
    }

    /** One byte. `out` is what `emit` receives, `ended` whether the delimiter is complete. */
    method Byte(b: char) returns (out: Bytes, ended: bool)
      requires Valid()
      modifies this
      ensures ended <==> EndsWith(old(stream) + [b], delimiter)
      ensures Valid() && stream == if ended then [] else old(stream) + [b]
      ensures ended ==> fallbacks == 0 && FirstEnd(delimiter, old(stream) + [b], |old(stream)| + 1)
      ensures delimiter[..old(matched)] + [b] == out + delimiter[..if ended then |delimiter| else matched]
    {
      ghost var was := delimiter[..matched];
      LongestMatches(delimiter, stream);
      var released := FallBack(b);
      ghost var held := delimiter[..matched];
      var rest;
      rest, ended := Compare(b);
      out := released + rest;
      Released(was, released, held, b, rest, delimiter[..if ended then |delimiter| else matched]);
    }

    /** The comparison after the loop: extend the match, complete it, or pass the byte on. */
    method Compare(b: char) returns (out: Bytes, ended: bool)
      requires delimiter != [] && |failure| == |delimiter| && IsFailureTable(delimiter, failure, |delimiter|)
      requires Absent(delimiter, stream) && fallbacks + matched <= |stream|
      requires matched < |delimiter| && Matches(delimiter, stream, matched)
      requires forall j :: matched < j < |delimiter| && Matches(delimiter, stream, j) ==> delimiter[j] != b
      requires matched == 0 || delimiter[matched] == b
      modifies this
      ensures ended <==> EndsWith(old(stream) + [b], delimiter)
      ensures Valid() && stream == if ended then [] else old(stream) + [b]
      ensures ended ==> fallbacks == 0 && FirstEnd(delimiter, old(stream) + [b], |old(stream)| + 1)
      ensures delimiter[..old(matched)] + [b] == out + delimiter[..if ended then |delimiter| else matched]
    {
      Settles(delimiter, stream, b, matched);
      out, ended := [], false;
      if delimiter[matched] == b {
        assert delimiter[..matched + 1] == delimiter[..matched] + [b];
        matched := matched + 1;
        if matched == |delimiter| {
          FirstEndHere(delimiter, stream, b);
          EmptyStream(delimiter);
          matched, ended, stream, fallbacks := 0, true, [], 0;
          return;
        }
      } else {
        out := [b];
      }
      AbsentExtends(delimiter, stream, b);
      stream := stream + [b];
    }

    /** The loop of `byte`: shorten the match until `b` continues it, releasing what falls off. */
    method FallBack(b: char) returns (out: Bytes)
      requires delimiter != [] && |failure| == |delimiter| && IsFailureTable(delimiter, failure, |delimiter|)
      requires fallbacks + matched <= |stream| && matched < |delimiter| && Matches(delimiter, stream, matched)
      requires forall j :: matched < j < |delimiter| ==> !Matches(delimiter, stream, j)
      modifies this`matched, this`fallbacks
      ensures matched < |delimiter| && Matches(delimiter, stream, matched)
      ensures forall j :: matched < j < |delimiter| && Matches(delimiter, stream, j) ==> delimiter[j] != b
      ensures matched == 0 || delimiter[matched] == b
      ensures delimiter[..old(matched)] == out + delimiter[..matched]
      ensures fallbacks + matched <= |stream|
    {
      out := [];
      while matched > 0 && delimiter[matched] != b
        invariant matched < |delimiter| && Matches(delimiter, stream, matched)
        invariant forall j :: matched < j < |delimiter| && Matches(delimiter, stream, j) ==> delimiter[j] != b
        invariant delimiter[..old(matched)] == out + delimiter[..matched]
        invariant fallbacks + matched <= |stream|
        decreases matched
      {
        var fallback := failure[matched - 1];
        var release := matched - fallback;
        assert IsLongestBorder(delimiter, delimiter[..matched - 1 + 1], fallback);
        forall j | fallback < j < matched
          ensures !Matches(delimiter, stream, j)
        {
          FallbackIsNext(delimiter, failure, |delimiter|, stream, matched, j);
        }
        MatchOfMatch(delimiter, stream, matched, fallback);
        Overlap(delimiter, matched, fallback);
        out := out + delimiter[..release];
        matched := fallback;
        fallbacks := fallbacks + 1;
      }
    }
  }

  /** A border of a prefix splits that prefix into what is released and what is kept. */
  lemma Overlap(d: Bytes, k: nat, j: nat)
    requires j <= k <= |d| && Matches(d, d[..k], j)
    ensures d[..k] == d[..k - j] + d[..j]
  {
    assert d[..k] == d[..k][..k - j] + d[..k][k - j..];
  }
}
