/** Byte strings as the Python scripts see them: `bytes` values, big-endian
    `int.to_bytes` / `int.from_bytes`, slicing that clamps instead of failing,
    and `b''.join`. */
module Bytes {
  import opened Wrappers

  type byte = x: int | 0 <= x < 256
  type Bytes = seq<byte>

  function Pow256(k: nat): (p: nat)
    ensures p >= 1
  {
    if k == 0 then 1 else 256 * Pow256(k - 1)
  }

  /** The `k`-byte big-endian encoding of `n` (Python's `n.to_bytes(k, 'big')`
      when it does not overflow). */
  function Be(n: nat, k: nat): (b: Bytes)
    requires n < Pow256(k)
    ensures |b| == k
  {
    if k == 0 then [] else Be(n / 256, k - 1) + [n % 256]
  }

  /** Python's `int.from_bytes(b, 'big')`. */
  function FromBe(b: Bytes): (n: nat)
    ensures n < Pow256(|b|)
  {
    if b == [] then 0 else FromBe(b[..|b| - 1]) * 256 + b[|b| - 1]
  }

  lemma {:induction false} FromBeBe(n: nat, k: nat)
    requires n < Pow256(k)
    ensures FromBe(Be(n, k)) == n
  {
    if k > 0 {
      var b := Be(n, k);
      assert b[..k - 1] == Be(n / 256, k - 1);
      FromBeBe(n / 256, k - 1);
    }
  }

  /** Python's `n.to_bytes(k, 'big')`: `None` stands for the OverflowError it
      raises for a negative `n` or one that needs more than `k` bytes. */
  function ToBytesBig(n: int, k: nat): (r: Option<Bytes>)
    ensures r.Some? <==> 0 <= n < Pow256(k)
    ensures r.Some? ==> |r.value| == k && FromBe(r.value) == n
  {
    if 0 <= n < Pow256(k) then FromBeBe(n, k); Some(Be(n, k)) else None
  }

  /** Python's `s[a:b]` for non-negative bounds: out-of-range bounds clamp to
      the length and an empty range gives an empty slice. */
  function Slice(s: Bytes, a: nat, b: nat): (r: Bytes)
    ensures |r| == if a < b && a < |s| then (if b < |s| then b else |s|) - a else 0
    ensures a <= b <= |s| ==> r == s[a..b]
  {
    if a >= |s| || b <= a then [] else s[a..if b < |s| then b else |s|]
  }

  /** Python's `s[a:]`. */
  function From(s: Bytes, a: nat): (r: Bytes)
    ensures a <= |s| ==> r == s[a..]
    ensures a > |s| ==> r == []
  {
    if a >= |s| then [] else s[a..]
  }

  /** Python's `data.startswith(prefix)`. */
  predicate StartsWith(data: Bytes, prefix: Bytes) {
    |prefix| <= |data| && data[..|prefix|] == prefix
  }

  /** A `b"..."` literal written with ASCII characters. */
  function Ascii(s: string): (b: Bytes)
    requires forall i :: 0 <= i < |s| ==> s[i] as int < 128
    ensures |b| == |s|
    ensures forall i :: 0 <= i < |s| ==> b[i] == s[i] as int
  {
    if s == [] then [] else [s[0] as int] + Ascii(s[1..])
  }

  /** `b''.join(parts)`. */
  function Concat(parts: seq<Bytes>): Bytes {
    if parts == [] then [] else Concat(parts[..|parts| - 1]) + parts[|parts| - 1]
  }

  lemma {:induction false} ConcatAppend(parts: seq<Bytes>, more: seq<Bytes>)
    ensures Concat(parts + more) == Concat(parts) + Concat(more)
    decreases |more|
  {
    if more == [] {
      assert parts + more == parts;
    } else {
      var init := more[..|more| - 1];
      var last := more[|more| - 1];
      assert more == init + [last];
      assert (parts + more)[..|parts + more| - 1] == parts + init;
      assert (parts + more)[|parts + more| - 1] == last;
      ConcatAppend(parts, init);
      assert Concat(more) == Concat(init) + last;
    }
  }

  lemma ConcatOne(b: Bytes)
    ensures Concat([b]) == b
  {
    assert [b][..0] == [];
  }

  lemma ConcatCons(b: Bytes, rest: seq<Bytes>)
    ensures Concat([b] + rest) == b + Concat(rest)
  {
    ConcatAppend([b], rest);
    ConcatOne(b);
  }
}
