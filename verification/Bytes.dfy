// Fixed-width integers on the wire.
module Bytes {
  type byte = n: nat | n < 256

  ghost function Pow256(n: nat): (p: nat)
    ensures p >= 1
  {
    if n == 0 then 1 else 256 * Pow256(n - 1)
  }

  // Little endian, low byte first.
  function ToLE(n: nat, len: nat): (b: seq<byte>)
    ensures |b| == len
    decreases len, n
  {
    if len == 0 then [] else [n % 256] + ToLE(n / 256, len - 1)
  }

  function FromLE(b: seq<byte>): nat {
    if |b| == 0 then 0 else b[0] + 256 * FromLE(b[1..])
  }

  // Big endian, high byte first.
  function ToBE(n: nat, len: nat): (b: seq<byte>)
    ensures |b| == len
    decreases len, n
  {
    if len == 0 then [] else ToBE(n / 256, len - 1) + [n % 256]
  }

  function FromBE(b: seq<byte>): nat {
    if |b| == 0 then 0 else 256 * FromBE(b[..|b| - 1]) + b[|b| - 1]
  }

  lemma NatOfByte(b: bv8)
    ensures (b as nat) < 256 && (b as nat) as bv8 == b && (b != 0 ==> b as nat != 0)
  {}

  lemma NextByte(b: bv8)
    requires b != 255
    ensures (b + 1) as nat == b as nat + 1
  {}

  lemma {:induction false} ByteAt(n: nat) returns (b: bv8)
    requires n < 256
    ensures b as nat == n
  {
    if n == 0 {
      b := 0;
    } else {
      var c := ByteAt(n - 1);
      NatOfByte(255);
      NextByte(c);
      b := c + 1;
    }
  }

  lemma ByteOfNat(n: nat)
    requires n < 256
    ensures (n as bv8) as nat == n
  {
    var b := ByteAt(n);
    NatOfByte(b);
  }

  // Octets as bit-vectors, as numbers, and back.
  function ToWire(s: seq<bv8>): (b: seq<byte>)
    ensures |b| == |s|
  {
    seq(|s|, i requires 0 <= i < |s| => NatOfByte(s[i]); s[i] as nat)
  }

  function FromWire(b: seq<byte>): (s: seq<bv8>)
    ensures |s| == |b|
  {
    seq(|b|, i requires 0 <= i < |b| => b[i] as bv8)
  }

  lemma WireNumbers(b: seq<byte>)
    ensures ToWire(FromWire(b)) == b
  {
    forall i | 0 <= i < |b| ensures ToWire(FromWire(b))[i] == b[i] { ByteOfNat(b[i]); }
  }

  lemma {:induction false} LERoundTrip(n: nat, len: nat)
    requires n < Pow256(len)
    ensures FromLE(ToLE(n, len)) == n
    decreases len
  {
    if len > 0 {
      LERoundTrip(n / 256, len - 1);
      assert ToLE(n, len)[1..] == ToLE(n / 256, len - 1);
    }
  }

  lemma {:induction false} BERoundTrip(n: nat, len: nat)
    requires n < Pow256(len)
    ensures FromBE(ToBE(n, len)) == n
    decreases len
  {
    if len > 0 {
      BERoundTrip(n / 256, len - 1);
      assert ToBE(n, len)[..len - 1] == ToBE(n / 256, len - 1);
    }
  }

  lemma {:induction false} LEBound(b: seq<byte>)
    ensures FromLE(b) < Pow256(|b|)
  {
    if |b| > 0 { LEBound(b[1..]); }
  }

  // Each byte counts 256 times the one before it.
  lemma {:induction false} LEWeights(a: seq<byte>, b: seq<byte>)
    ensures FromLE(a + b) == FromLE(a) + Pow256(|a|) * FromLE(b)
  {
    if a == [] {
      assert a + b == b;
    } else {
      LEWeights(a[1..], b);
      assert (a + b)[1..] == a[1..] + b;
      Scaled(Pow256(|a| - 1), FromLE(b));
    }
  }

  // Each byte counts 256 times the one after it.
  lemma {:induction false} BEWeights(a: seq<byte>, b: seq<byte>)
    ensures FromBE(a + b) == Pow256(|b|) * FromBE(a) + FromBE(b)
  {
    if b == [] {
      assert a + b == a;
    } else {
      var front := b[..|b| - 1];
      BEWeights(a, front);
      assert (a + b)[..|a + b| - 1] == a + front;
      Scaled(Pow256(|front|), FromBE(a));
    }
  }

  lemma Scaled(x: nat, y: nat)
    ensures (256 * x) * y == 256 * (x * y)
  {}

  function SaturatingSub(a: nat, b: nat): nat { if a < b then 0 else a - b }

  const U16: nat := 0x1_0000
  const U32: nat := 0x1_0000_0000
  const U64: nat := 0x1_0000_0000_0000_0000

  lemma Widths()
    ensures Pow256(2) == U16 && Pow256(4) == U32 && Pow256(8) == U64
  {
    assert Pow256(1) == 256;
    assert Pow256(3) == 256 * U16;
    assert Pow256(5) == 256 * U32;
    assert Pow256(6) == 256 * 256 * U32;
    assert Pow256(7) == 256 * 256 * 256 * U32;
  }
}
