/** Length-prefixed framing shared by the asset packs. Bytes are characters of the same code. */
module AssetFrames {
  import opened Prelude

  type Bytes = string

  function Power(k: nat): (p: nat)
    ensures p > 0
  {
    if k == 0 then 1 else 256 * Power(k - 1)
  }

  /** `to_le_bytes`, `k` bytes wide. */
  function Le(n: nat, k: nat): (s: Bytes)
    requires n < Power(k)
    ensures |s| == k
  {
    if k == 0 then "" else [(n % 256) as char] + Le(n / 256, k - 1)
  }

  /** `from_le_bytes`. */
  function Unle(s: Bytes): nat {
    if s == "" then 0 else s[0] as int + 256 * Unle(s[1..])
  }

  lemma {:induction false} UnleOfLe(n: nat, k: nat)
    requires n < Power(k)
    ensures Unle(Le(n, k)) == n
  {
    if k > 0 {
      UnleOfLe(n / 256, k - 1);
      assert Le(n, k)[1..] == Le(n / 256, k - 1);
    }
  }

  lemma Widths()
    ensures Power(2) == 0x1_0000 && Power(4) == 0x1_0000_0000
  {
    assert Power(0) == 1 && Power(1) == 256 && Power(2) == 256 * Power(1) && Power(3) == 256 * Power(2);
  }

  /** The next `n` bytes. */
  function Take(data: Bytes, offset: nat, n: nat): (r: Option<Bytes>)
    ensures r.Some? ==> |r.value| == n && offset + n <= |data|
  {
    if offset + n <= |data| then Some(data[offset..offset + n]) else None
  }

  /** The data holds this piece at this offset. */
  predicate Holds(data: Bytes, offset: nat, piece: Bytes) {
    Take(data, offset, |piece|) == Some(piece)
  }

  lemma HoldsParts(data: Bytes, offset: nat, a: Bytes, b: Bytes)
    ensures Holds(data, offset, a + b) <==> Holds(data, offset, a) && Holds(data, offset + |a|, b)
  {
    if Holds(data, offset, a + b) {
      var piece := data[offset..offset + |a| + |b|];
      assert piece[..|a|] == data[offset..offset + |a|] && piece[|a|..] == data[offset + |a|..offset + |a| + |b|];
      assert (a + b)[..|a|] == a && (a + b)[|a|..] == b;
    }
    if Holds(data, offset, a) && Holds(data, offset + |a|, b) {
      assert data[offset..offset + |a| + |b|] == data[offset..offset + |a|] + data[offset + |a|..offset + |a| + |b|];
    }
  }

  lemma HoldsSelf(data: Bytes)
    ensures Holds(data, 0, data)
  {
    assert data[0..|data|] == data;
  }

  /** A number of `k` bytes at an offset. */
  function Number(data: Bytes, offset: nat, k: nat): Option<nat> {
    var bytes := Take(data, offset, k);
    if bytes.None? then None else Some(Unle(bytes.value))
  }

  lemma NumberReads(data: Bytes, offset: nat, n: nat, k: nat)
    requires n < Power(k) && Holds(data, offset, Le(n, k))
    ensures Number(data, offset, k) == Some(n)
  {
    UnleOfLe(n, k);
  }
}
