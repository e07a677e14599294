/** Byte texts: where a byte first occurs, and data that arrives in pieces. */
module Chunks {
  import opened Prelude

  /** The first index of `c`, as `find`, `split_once` and `position` look for it. */
  function IndexOf(s: string, c: char): (r: Option<nat>)
    ensures r.Some? ==> r.value < |s| && s[r.value] == c && c !in s[..r.value]
    ensures r.None? ==> c !in s
  {
    if s == "" then None
    else if s[0] == c then Some(0)
    else
      var r := IndexOf(s[1..], c);
      if r.None? then None else Some(r.value + 1)
  }

  function Concat(chunks: seq<string>): string {
    if chunks == [] then "" else chunks[0] + Concat(chunks[1..])
  }

  lemma ConcatOne(x: string)
    ensures Concat([x]) == x
  {
    assert [x][1..] == [];
    assert Concat([x]) == x + "";
  }

  lemma {:induction false} ConcatJoins(a: seq<string>, b: seq<string>)
    ensures Concat(a + b) == Concat(a) + Concat(b)
  {
    if a == [] {
      assert a + b == b;
    } else {
      ConcatJoins(a[1..], b);
      ConcatTail(a, b);
    }
  }

  lemma ConcatTail(a: seq<string>, b: seq<string>)
    requires a != [] && Concat(a[1..] + b) == Concat(a[1..]) + Concat(b)
    ensures Concat(a + b) == Concat(a) + Concat(b)
  {
    assert (a + b)[1..] == a[1..] + b;
    Assoc(a[0], Concat(a[1..]), Concat(b));
  }

  lemma Assoc(a: string, b: string, c: string)
    ensures a + (b + c) == (a + b) + c
  {
  }

  /** One more chunk. */
  lemma ConcatNext(chunks: seq<string>, i: nat)
    requires i < |chunks|
    ensures Concat(chunks[..i + 1]) == Concat(chunks[..i]) + chunks[i]
  {
    assert chunks[..i + 1] == chunks[..i] + [chunks[i]];
    ConcatJoins(chunks[..i], [chunks[i]]);
    ConcatOne(chunks[i]);
  }

  /** What has arrived and what is still to come. */
  lemma ConcatCut(chunks: seq<string>, i: nat)
    requires i <= |chunks|
    ensures Concat(chunks) == Concat(chunks[..i]) + Concat(chunks[i..])
  {
    assert chunks == chunks[..i] + chunks[i..];
    ConcatJoins(chunks[..i], chunks[i..]);
  }
}
