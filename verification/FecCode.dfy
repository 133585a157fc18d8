// The systematic code [I | C] as the encoder and the decoder use it.
module FecCode {
  import opened Options
  import opened GaloisField
  import opened LinearAlgebra
  import opened LinearSystems
  import opened Cauchy
  import opened Bytes

  // The field point of an 8-bit index, with wrap-around.
  function Point(n: nat): bv8 { (n % 256) as bv8 }

  lemma PointInjective(a: nat, b: nat)
    ensures Point(a) == Point(b) <==> a % 256 == b % 256
  {
    ByteOfNat(a % 256);
    ByteOfNat(b % 256);
  }

  // i XOR (r + j) is zero in 8-bit arithmetic.
  predicate ZeroDenominator(i: nat, j: nat, r: nat) { i % 256 == (r + j) % 256 }

  function Denominator(i: nat, j: nat, r: nat): bv8 { Point(i) ^ Point(r + j) }

  lemma XorZero(a: bv8, b: bv8)
    ensures a ^ b == 0 <==> a == b
  {}

  lemma DenominatorZero(i: nat, j: nat, r: nat)
    ensures Denominator(i, j, r) == 0 <==> ZeroDenominator(i, j, r)
  {
    XorZero(Point(i), Point(r + j));
    PointInjective(i, r + j);
  }

  // cauchy(i, j, r) = 1 / (i XOR (r + j)), or None when the denominator is zero.
  function CauchyEntry(t: Tables, i: nat, j: nat, r: nat): (c: Option<bv8>)
    requires t.Correct()
    ensures c.None? <==> ZeroDenominator(i, j, r)
    ensures c.Some? ==> Denominator(i, j, r) != 0 && c.value == Inverse(Denominator(i, j, r))
  {
    DenominatorZero(i, j, r);
    t.Invert(Denominator(i, j, r))
  }

  // The entry is the one of the field's Cauchy row.
  lemma EntryOfRow(t: Tables, i: nat, j: nat, k: nat, r: nat)
    requires t.Correct() && j < k && !ZeroDenominator(i, j, r)
    ensures CauchyEntry(t, i, j, r).Some?
    ensures CauchyEntry(t, i, j, r).value == CauchyRow(GF(), Point(i), Columns(k, r))[j]
  {}

  // The column points r, r + 1, ..., r + k - 1.
  ghost function Columns(k: nat, r: nat): (ys: seq<bv8>)
    ensures |ys| == k
  {
    seq(k, j requires 0 <= j < k => Point(r + j))
  }

  ghost function Points(idx: seq<nat>): (xs: seq<bv8>)
    ensures |xs| == |idx|
  {
    seq(|idx|, i requires 0 <= i < |idx| => Point(idx[i]))
  }

  // The encoder meets no zero denominator exactly when k + r <= 256.
  lemma DenominatorsNonZero(k: nat, r: nat)
    requires 1 <= k <= 255 && r <= 255
    ensures (forall i: nat, j: nat | i < r && j < k :: !ZeroDenominator(i, j, r)) <==> r == 0 || k + r <= 256
  {
    if r > 0 && k + r > 256 {
      assert ZeroDenominator(0, 256 - r, r);
    }
  }

  lemma ColumnsDistinct(k: nat, r: nat)
    requires k + r <= 256
    ensures Distinct(Columns(k, r))
  {
    hide Point;
    forall i, j | 0 <= i < j < k ensures Columns(k, r)[i] != Columns(k, r)[j] { PointInjective(r + i, r + j); }
  }

  lemma PointsSeparate(idx: seq<nat>, k: nat, r: nat)
    requires k + r <= 256 && forall i | 0 <= i < |idx| :: idx[i] < r
    ensures Separate(Points(idx), Columns(k, r))
  {
    hide Point;
    forall i, j | 0 <= i < |idx| && 0 <= j < k ensures Points(idx)[i] != Columns(k, r)[j] {
      PointInjective(idx[i], r + j);
    }
  }

  lemma PointsDistinct(idx: seq<nat>)
    requires forall i, j | 0 <= i < j < |idx| :: idx[i] < idx[j] < 256
    ensures Distinct(Points(idx))
  {
    hide Point;
    forall i, j | 0 <= i < j < |idx| ensures Points(idx)[i] != Points(idx)[j] { PointInjective(idx[i], idx[j]); }
  }

  function Pad(s: seq<bv8>, n: nat): (p: seq<bv8>)
    ensures |p| == n
  {
    if |s| <= n then s + seq(n - |s|, _ => 0) else s[..n]
  }

  // Repair symbol i: the product of Cauchy row i with the padded sources.
  ghost function RepairSymbol(P: Rows<bv8>, w: nat, i: nat, r: nat): (s: seq<bv8>)
    requires Rect(P, w)
    ensures |s| == w
  {
    seq(w, t requires 0 <= t < w => Dot(GF(), CauchyRow(GF(), Point(i), Columns(|P|, r)), Column(P, w, t)))
  }

  // The elements of s below n, in ascending order.
  function Ascending(s: set<nat>, n: nat): (m: seq<nat>)
    ensures forall i | 0 <= i < |m| :: m[i] < n
  {
    if n == 0 then [] else if n - 1 in s then Ascending(s, n - 1) + [n - 1] else Ascending(s, n - 1)
  }

  lemma {:induction false} AscendingFacts(s: set<nat>, n: nat)
    ensures forall i, j | 0 <= i < j < |Ascending(s, n)| :: Ascending(s, n)[i] < Ascending(s, n)[j]
    ensures forall i | 0 <= i < |Ascending(s, n)| :: Ascending(s, n)[i] in s
    ensures |Ascending(s, n)| == |Below(s, n)|
  {
    hide Below;
    BelowNext(s, n);
    if n > 0 { AscendingFacts(s, n - 1); }
  }

  lemma BelowNext(s: set<nat>, n: nat)
    ensures n == 0 ==> |Below(s, n)| == 0
    ensures n > 0 ==> |Below(s, n)| == |Below(s, n - 1)| + (if n - 1 in s then 1 else 0)
  {
    if n == 0 {
      assert Below(s, n) == {};
    } else {
      assert Below(s, n) == if n - 1 in s then Below(s, n - 1) + {n - 1} else Below(s, n - 1);
    }
  }

  ghost function Below(s: set<nat>, n: nat): set<nat> { set x | x in s && x < n }

  lemma {:induction false} MissingCount(s: set<nat>, k: nat)
    ensures |Missing(s, k)| == k - |Below(s, k)|
  {
    if k > 0 {
      MissingCount(s, k - 1);
      assert Below(s, k) == if k - 1 in s then Below(s, k - 1) + {k - 1} else Below(s, k - 1);
    } else {
      assert Below(s, 0) == {};
    }
  }
}
