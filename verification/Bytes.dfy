/** Big-endian fixed-width integers: write_u16/u32/u64 and read_u16/u32/u64 of src/persist.cpp. */
module Bytes {

  type byte = x: int | 0 <= x < 256

  function Pow256(n: nat): (p: nat)
    ensures p > 0
  {
    if n == 0 then 1 else 256 * Pow256(n - 1)
  }

  /** Byte i of an n-byte field is the value shifted right by 8 * (n - 1 - i) bits. */
  function EncodeBE(value: nat, n: nat): (bytes: seq<byte>)
    ensures |bytes| == n
  {
    seq(n, i requires 0 <= i < n => (value / Pow256(n - 1 - i)) % 256)
  }

  /** value = (value << 8) | byte, for each byte in turn. */
  function DecodeBE(bytes: seq<byte>): nat {
    if bytes == [] then 0 else DecodeBE(bytes[..|bytes| - 1]) * 256 + bytes[|bytes| - 1]
  }

  lemma Mono(a: nat, x: int, y: int)
    requires x <= y
    ensures a * x <= a * y
  {
  }

  lemma Distribute(a: int, x: int, y: int)
    ensures a * (x + y) == a * x + a * y
  {
  }

  lemma QuotientUnique(v: nat, a: nat, q: nat, r: nat)
    requires a > 0 && v == a * q + r && r < a
    ensures v / a == q
  {
    QuotientBetween(v, a, q, r, v / a, v % a);
  }

  /** Two divisions with remainder of the same number have the same quotient. */
  lemma QuotientBetween(v: nat, a: nat, q: nat, r: nat, p: nat, s: nat)
    requires a > 0 && v == a * q + r && r < a && v == a * p + s && s < a
    ensures p == q
  {
    Distribute(a, p, 1);
    Distribute(a, q, 1);
    if p < q { Mono(a, p + 1, q); }
    if q < p { Mono(a, q + 1, p); }
  }

  lemma Rearrange(a: int, y: int, s: int)
    ensures a * (256 * y + s) == (256 * a) * y + a * s
  {
    Distribute(a, 256 * y, s);
  }

  lemma DivideTwice(v: nat, a: nat)
    requires a > 0
    ensures (v / a) / 256 == v / (256 * a)
  {
    var x, t := v / a, v % a;
    DivideByParts(v, a, x, t, x / 256, x % 256);
  }

  lemma DivideByParts(v: nat, a: nat, x: nat, t: nat, y: nat, s: nat)
    requires a > 0 && v == a * x + t && t < a && x == 256 * y + s && s <= 255
    ensures v / (256 * a) == y
  {
    Rearrange(a, y, s);
    Mono(a, s, 255);
    Mono(a, 0, s);
    QuotientUnique(v, 256 * a, y, a * s + t);
  }

  /** The first k bytes of an encoding decode to the value shifted right by the remaining bytes. */
  lemma {:induction false} DecodePrefix(value: nat, n: nat, k: nat)
    requires k <= n && value < Pow256(n)
    ensures DecodeBE(EncodeBE(value, n)[..k]) == value / Pow256(n - k)
  {
    var bytes := EncodeBE(value, n);
    if k == 0 {
      QuotientUnique(value, Pow256(n), 0, value);
    } else {
      DecodePrefix(value, n, k - 1);
      assert bytes[..k][..k - 1] == bytes[..k - 1];
      DivideTwice(value, Pow256(n - k));
    }
  }

  /** Decoding undoes encoding for every value that fits in the field. */
  lemma DecodeEncode(value: nat, n: nat)
    requires value < Pow256(n)
    ensures DecodeBE(EncodeBE(value, n)) == value
  {
    DecodePrefix(value, n, n);
    assert EncodeBE(value, n)[..n] == EncodeBE(value, n);
  }

  lemma {:induction false} DecodeBound(bytes: seq<byte>)
    ensures DecodeBE(bytes) < Pow256(|bytes|)
  {
    if bytes != [] { DecodeBound(bytes[..|bytes| - 1]); }
  }

  lemma {:induction false} DecodeInjective(a: seq<byte>, b: seq<byte>)
    requires |a| == |b| && DecodeBE(a) == DecodeBE(b)
    ensures a == b
  {
    if a != [] {
      var m := |a| - 1;
      DecodeInjective(a[..m], b[..m]);
      assert a == a[..m] + [a[m]] && b == b[..m] + [b[m]];
    }
  }

  /** Encoding undoes decoding: every field of n bytes is the encoding of its value. */
  lemma EncodeDecode(bytes: seq<byte>)
    ensures DecodeBE(bytes) < Pow256(|bytes|) && EncodeBE(DecodeBE(bytes), |bytes|) == bytes
  {
    DecodeBound(bytes);
    DecodeEncode(DecodeBE(bytes), |bytes|);
    DecodeInjective(EncodeBE(DecodeBE(bytes), |bytes|), bytes);
  }

  lemma FieldBounds()
    ensures Pow256(2) == 0x1_0000 && Pow256(4) == 0x1_0000_0000 && Pow256(8) == 0x1_0000_0000_0000_0000
  {
    assert Pow256(1) == 256 && Pow256(3) == 0x100_0000;
    assert Pow256(5) == 0x100_0000_0000 && Pow256(6) == 0x1_0000_0000_0000 && Pow256(7) == 0x100_0000_0000_0000;
  }
}
