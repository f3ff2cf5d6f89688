/**
 * Byte encodings of field elements: `into_bigint().to_bytes_be()` /
 * `to_bytes_le()` write the canonical residue in a fixed 32-byte width,
 * and `from_be_bytes_mod_order` / `from_le_bytes_mod_order` read an
 * arbitrary byte string as an unsigned integer reduced modulo P.
 */
module Encoding {
  import opened Field

  type byte = x: int | 0 <= x < 256

  type Bytes = seq<byte>

  /** The width of one encoded element. */
  const ElementWidth: nat := 32

  function Pow256(n: nat): nat
  {
    if n == 0 then 1 else 256 * Pow256(n - 1)
  }

  lemma {:induction false} Pow256Grows(n: nat)
    requires n >= 3
    ensures Pow256(n) > P
    decreases n
  {
    if n > 3 {
      Pow256Grows(n - 1);
    }
  }

  /** The unsigned integer a big-endian byte string denotes. */
  function BeValue(bs: Bytes): nat
  {
    if |bs| == 0 then 0 else BeValue(bs[..|bs| - 1]) * 256 + bs[|bs| - 1]
  }

  /** The unsigned integer a little-endian byte string denotes. */
  function LeValue(bs: Bytes): nat
  {
    if |bs| == 0 then 0 else bs[0] + 256 * LeValue(bs[1..])
  }

  /** The n-byte big-endian encoding of x. */
  function BeBytes(x: nat, n: nat): (r: Bytes)
    requires x < Pow256(n)
    ensures |r| == n && BeValue(r) == x
  {
    if n == 0 then []
    else
      var r := BeBytes(x / 256, n - 1) + [x % 256];
      assert r[..n - 1] == BeBytes(x / 256, n - 1);
      r
  }

  /** The n-byte little-endian encoding of x. */
  function LeBytes(x: nat, n: nat): (r: Bytes)
    requires x < Pow256(n)
    ensures |r| == n && LeValue(r) == x
  {
    if n == 0 then []
    else
      var r := [x % 256] + LeBytes(x / 256, n - 1);
      assert r[1..] == LeBytes(x / 256, n - 1);
      r
  }

  function ToBytesBe(a: Fe): (r: Bytes)
    ensures |r| == ElementWidth
  {
    Pow256Grows(ElementWidth);
    Canonical(a);
    BeBytes(a, ElementWidth)
  }

  function ToBytesLe(a: Fe): (r: Bytes)
    ensures |r| == ElementWidth
  {
    Pow256Grows(ElementWidth);
    Canonical(a);
    LeBytes(a, ElementWidth)
  }

  function FromBeBytesModOrder(bs: Bytes): Fe
  {
    BeValue(bs) % P
  }

  function FromLeBytesModOrder(bs: Bytes): Fe
  {
    LeValue(bs) % P
  }

  /** Reading the big-endian encoding of an element back modulo P gives the element. */
  lemma ToBytesBeDecodes(a: Fe)
    ensures FromBeBytesModOrder(ToBytesBe(a)) == a
  {
    Pow256Grows(ElementWidth);
    Canonical(a);
  }

  /** Reading the little-endian encoding of an element back modulo P gives the element. */
  lemma ToBytesLeDecodes(a: Fe)
    ensures FromLeBytesModOrder(ToBytesLe(a)) == a
  {
    Pow256Grows(ElementWidth);
    Canonical(a);
  }

  /** Distinct elements have distinct encodings. */
  lemma ToBytesInjective(a: Fe, b: Fe)
    ensures ToBytesBe(a) == ToBytesBe(b) ==> a == b
    ensures ToBytesLe(a) == ToBytesLe(b) ==> a == b
  {
    ToBytesBeDecodes(a);
    ToBytesBeDecodes(b);
    ToBytesLeDecodes(a);
    ToBytesLeDecodes(b);
  }
}
