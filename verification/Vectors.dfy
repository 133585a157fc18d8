// Byte vectors over GF(2^8) and the unrolled slice kernel.
module Vectors {
  import opened GaloisField
  import opened LinearAlgebra

  // The slice with its first n elements already updated.
  ghost predicate DoneBelow(now: seq<bv8>, was: seq<bv8>, src: seq<bv8>, c: bv8, n: nat)
  {
    && |now| == |was| == |src|
    && n <= |was|
    && (forall j | 0 <= j < n :: now[j] == was[j] ^ Mul(c, src[j]))
    && (forall j | n <= j < |was| :: now[j] == was[j])
  }

  // One term of the general path: EXP[log_s + LOG[s]], or 0 when s is 0.
  function Product(t: Tables, logS: nat, s: bv8): bv8
    requires t.Correct() && logS < 255
  {
    if s != 0 then t.exp[logS + t.LogOf(s)] else 0
  }

  lemma ProductIsMul(t: Tables, c: bv8, s: bv8)
    requires t.Correct() && c != 0
    ensures Product(t, Log(c), s) == Mul(c, s)
  {}

  // dst[j] ^= src[j]
  method XorAt(dst: array<bv8>, src: seq<bv8>, j: nat, ghost was: seq<bv8>)
    requires j < |src| && DoneBelow(dst[..], was, src, 1, j)
    modifies dst
    ensures DoneBelow(dst[..], was, src, 1, j + 1)
  {
    MulOne(src[j]);
    dst[j] := dst[j] ^ src[j];
  }

  // dst[j] ^= EXP[log_s + LOG[src[j]]]
  method MulAddAt(t: Tables, dst: array<bv8>, src: seq<bv8>, j: nat, logS: nat, ghost c: bv8, ghost was: seq<bv8>)
    requires t.Correct() && c != 0 && logS == Log(c)
    requires j < |src| && DoneBelow(dst[..], was, src, c, j)
    modifies dst
    ensures DoneBelow(dst[..], was, src, c, j + 1)
  {
    ProductIsMul(t, c, src[j]);
    dst[j] := dst[j] ^ Product(t, logS, src[j]);
  }

  // The hot path for scalar 1, unrolled eight times.
  method XorSlice(dst: array<bv8>, src: seq<bv8>)
    requires dst.Length == |src|
    modifies dst
    ensures DoneBelow(dst[..], old(dst[..]), src, 1, |src|)
  {
    ghost var was := dst[..];
    var chunks, rem := dst.Length / 8, dst.Length % 8;
    for i := 0 to chunks
      invariant DoneBelow(dst[..], was, src, 1, i * 8)
    {
      var b := i * 8;
      XorAt(dst, src, b, was);
      XorAt(dst, src, b + 1, was);
      XorAt(dst, src, b + 2, was);
      XorAt(dst, src, b + 3, was);
      XorAt(dst, src, b + 4, was);
      XorAt(dst, src, b + 5, was);
      XorAt(dst, src, b + 6, was);
      XorAt(dst, src, b + 7, was);
    }
    var base := chunks * 8;
    for i := 0 to rem
      invariant DoneBelow(dst[..], was, src, 1, base + i)
    {
      XorAt(dst, src, base + i, was);
    }
  }

  // The general path, unrolled eight times.
  method MulAddGeneral(t: Tables, dst: array<bv8>, src: seq<bv8>, c: bv8)
    requires t.Correct() && c != 0
    requires dst.Length == |src|
    modifies dst
    ensures DoneBelow(dst[..], old(dst[..]), src, c, |src|)
  {
    ghost var was := dst[..];
    var chunks, rem := dst.Length / 8, dst.Length % 8;
    var logS := t.LogOf(c);
    for i := 0 to chunks
      invariant DoneBelow(dst[..], was, src, c, i * 8)
    {
      var b := i * 8;
      MulAddAt(t, dst, src, b, logS, c, was);
      MulAddAt(t, dst, src, b + 1, logS, c, was);
      MulAddAt(t, dst, src, b + 2, logS, c, was);
      MulAddAt(t, dst, src, b + 3, logS, c, was);
      MulAddAt(t, dst, src, b + 4, logS, c, was);
      MulAddAt(t, dst, src, b + 5, logS, c, was);
      MulAddAt(t, dst, src, b + 6, logS, c, was);
      MulAddAt(t, dst, src, b + 7, logS, c, was);
    }
    var base := chunks * 8;
    for i := 0 to rem
      invariant DoneBelow(dst[..], was, src, c, base + i)
    {
      MulAddAt(t, dst, src, base + i, logS, c, was);
    }
  }

  method MulAddSlice(t: Tables, dst: array<bv8>, src: seq<bv8>, scalar: bv8)
    requires t.Correct()
    requires dst.Length == |src|
    modifies dst
    ensures dst[..] == AddScaled(GF(), old(dst[..]), src, scalar)
  {
    if scalar == 0 {
      return;
    } else if scalar == 1 {
      XorSlice(dst, src);
    } else {
      MulAddGeneral(t, dst, src, scalar);
    }
  }
}
