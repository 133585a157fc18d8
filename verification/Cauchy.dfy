// Cauchy matrices have no kernel, and neither has any mix of unit rows and Cauchy rows.
module Cauchy {
  import opened Fields
  import opened LinearAlgebra
  import opened LinearSystems

  ghost function CauchyRow<E(!new)>(F: Field<E>, x: E, ys: seq<E>): (u: seq<E>)
    ensures |u| == |ys|
  {
    seq(|ys|, j requires 0 <= j < |ys| => F.inv(F.add(x, ys[j])))
  }

  ghost predicate Distinct<E>(s: seq<E>) { forall i, j | 0 <= i < j < |s| :: s[i] != s[j] }

  ghost predicate Separate<E>(xs: seq<E>, ys: seq<E>) {
    forall i, j | 0 <= i < |xs| && 0 <= j < |ys| :: xs[i] != ys[j]
  }

  ghost predicate AllZero<E(!new)>(F: Field<E>, v: seq<E>) { forall j | 0 <= j < |v| :: v[j] == F.zero }

  lemma {:induction false} DotTermwise<E(!new)>(F: Field<E>, u: seq<E>, v: seq<E>, c: E, r: seq<E>, w: seq<E>)
    requires F.Laws() && |u| == |v| == |r| == |w|
    requires forall j | 0 <= j < |u| :: F.mul(u[j], v[j]) == F.mul(c, F.mul(r[j], w[j]))
    ensures Dot(F, u, v) == F.mul(c, Dot(F, r, w))
  {
    if |u| == 0 {
      F.MulZero(c);
    } else {
      var n := |u| - 1;
      DotTermwise(F, u[..n], v[..n], c, r[..n], w[..n]);
      assert F.Distributes(c, Dot(F, r[..n], w[..n]), F.mul(r[n], w[n]));
    }
  }

  // (p + d) / p + (q + d) / q == (p + q) * d / (p * q)
  lemma FractionIdentity<E(!new)>(F: Field<E>, p: E, q: E, d: E)
    requires F.Laws() && p != F.zero && q != F.zero
    ensures F.add(F.mul(F.inv(p), F.add(p, d)), F.mul(F.add(q, d), F.inv(q))) ==
            F.mul(F.add(p, q), F.mul(F.inv(p), F.mul(d, F.inv(q))))
  {
    var ip, iq := F.inv(p), F.inv(q);
    F.MulInverse(p);
    F.MulInverse(q);
    var a, b := F.mul(ip, d), F.mul(d, iq);
    assert F.mul(ip, F.add(p, d)) == F.add(F.one, a) by { assert F.Distributes(ip, p, d); }
    assert F.mul(F.add(q, d), iq) == F.add(F.one, b) by { F.MulAddRight(q, d, iq); }
    F.AddShuffle(F.one, a, F.one, b);
    F.AddZero(F.one);
    F.AddZero(F.add(a, b));
    var t := F.mul(ip, b);
    F.MulAddRight(p, q, t);
    assert F.mul(p, t) == b by { assert F.MulAssociates(p, ip, b) && F.MulNeutral(b); }
    assert F.mul(q, t) == a by {
      assert F.MulAssociates(ip, d, iq) && F.MulCommutes(q, t) && F.MulAssociates(a, iq, q);
      F.MulOne(a);
    }
    assert F.AddCommutes(a, b);
  }

  // x + y == (x + m) + (y + m): sums telescope in characteristic two.
  lemma Telescope<E(!new)>(F: Field<E>, x: E, m: E, y: E)
    requires F.Laws()
    ensures F.add(F.add(x, m), F.add(y, m)) == F.add(x, y)
  {
    F.AddShuffle(x, m, y, m);
    F.AddZero(m);
    F.AddZero(F.add(x, y));
  }

  // One coefficient of (row i) * (xi + yn) + (row m) * (xm + yn).
  lemma CombinedEntry<E(!new)>(F: Field<E>, xi: E, xm: E, yj: E, yn: E)
    requires F.Laws() && xi != yj && xm != yj
    ensures F.add(F.mul(F.inv(F.add(xi, yj)), F.add(xi, yn)), F.mul(F.add(xm, yn), F.inv(F.add(xm, yj)))) ==
            F.mul(F.add(xi, xm), F.mul(F.inv(F.add(xi, yj)), F.mul(F.add(yj, yn), F.inv(F.add(xm, yj)))))
  {
    var p, q, d := F.add(xi, yj), F.add(xm, yj), F.add(yj, yn);
    F.AddCancels(xi, yj);
    F.AddCancels(xm, yj);
    FractionIdentity(F, p, q, d);
    assert F.add(p, d) == F.add(xi, yn) by { assert F.AddCommutes(yj, yn); Telescope(F, xi, yj, yn); }
    assert F.add(q, d) == F.add(xm, yn) by { assert F.AddCommutes(yj, yn); Telescope(F, xm, yj, yn); }
    Telescope(F, xi, yj, xm);
  }

  // The kernel vector of the smaller system.
  ghost function Shrunk<E(!new)>(F: Field<E>, xm: E, yn: E, ys: seq<E>, v: seq<E>): (w: seq<E>)
    requires |ys| == |v|
    ensures |w| == |v|
  {
    seq(|v|, j requires 0 <= j < |v| => F.mul(F.mul(F.add(ys[j], yn), F.inv(F.add(xm, ys[j]))), v[j]))
  }

  ghost function Combined<E(!new)>(F: Field<E>, xi: E, xm: E, yn: E, ys: seq<E>): (u: seq<E>)
    ensures |u| == |ys|
  {
    AddScaled(F, Scale(F, CauchyRow(F, xi, ys), F.add(xi, yn)), CauchyRow(F, xm, ys), F.add(xm, yn))
  }

  lemma CombinedTerm<E(!new)>(F: Field<E>, xi: E, xm: E, yn: E, ys: seq<E>, v: seq<E>, j: nat)
    requires F.Laws() && |ys| == |v| && j < |v| && xi != ys[j] && xm != ys[j]
    ensures F.mul(Combined(F, xi, xm, yn, ys)[j], v[j]) ==
            F.mul(F.add(xi, xm), F.mul(CauchyRow(F, xi, ys)[j], Shrunk(F, xm, yn, ys, v)[j]))
  {
    CombinedEntry(F, xi, xm, ys[j], yn);
    var c, r := F.add(xi, xm), F.inv(F.add(xi, ys[j]));
    var e := F.mul(F.add(ys[j], yn), F.inv(F.add(xm, ys[j])));
    assert F.MulAssociates(c, F.mul(r, e), v[j]) && F.MulAssociates(r, e, v[j]);
  }

  lemma CombinedIsZero<E(!new)>(F: Field<E>, xi: E, xm: E, yn: E, ys: seq<E>, v: seq<E>)
    requires F.Laws() && |ys| == |v|
    requires Dot(F, CauchyRow(F, xi, ys), v) == F.zero && Dot(F, CauchyRow(F, xm, ys), v) == F.zero
    ensures Dot(F, Combined(F, xi, xm, yn, ys), v) == F.zero
  {
    DotScale(F, CauchyRow(F, xi, ys), F.add(xi, yn), v);
    DotAddScaled(F, Scale(F, CauchyRow(F, xi, ys), F.add(xi, yn)), CauchyRow(F, xm, ys), F.add(xm, yn), v);
    F.MulZero(F.add(xi, yn));
    F.MulZero(F.add(xm, yn));
    F.AddZero(F.zero);
  }

  // Row i of the smaller Cauchy system annihilates the shrunk vector.
  lemma ShrunkRow<E(!new)>(F: Field<E>, xi: E, xm: E, ys: seq<E>, v: seq<E>)
    requires F.Laws() && |ys| == |v| > 0 && xi != xm
    requires forall j | 0 <= j < |ys| :: xi != ys[j] && xm != ys[j]
    requires Dot(F, CauchyRow(F, xi, ys), v) == F.zero && Dot(F, CauchyRow(F, xm, ys), v) == F.zero
    ensures var n := |ys| - 1;
      Dot(F, CauchyRow(F, xi, ys[..n]), Shrunk(F, xm, ys[n], ys[..n], v[..n])) == F.zero
  {
    var n := |ys| - 1;
    var yn := ys[n];
    var r, w := CauchyRow(F, xi, ys), Shrunk(F, xm, yn, ys, v);
    CombinedIsZero(F, xi, xm, yn, ys, v);
    forall j | 0 <= j < |ys|
      ensures F.mul(Combined(F, xi, xm, yn, ys)[j], v[j]) == F.mul(F.add(xi, xm), F.mul(r[j], w[j]))
    {
      CombinedTerm(F, xi, xm, yn, ys, v, j);
    }
    DotTermwise(F, Combined(F, xi, xm, yn, ys), v, F.add(xi, xm), r, w);
    F.AddCancels(xi, xm);
    F.NoZeroDivisors(F.add(xi, xm), Dot(F, r, w));
    ShrunkLast(F, xm, ys, v);
    F.MulZero(r[n]);
    F.AddZero(Dot(F, r[..n], w[..n]));
    assert r[..n] == CauchyRow(F, xi, ys[..n]);
    assert w[..n] == Shrunk(F, xm, yn, ys[..n], v[..n]);
  }

  lemma ShrunkLast<E(!new)>(F: Field<E>, xm: E, ys: seq<E>, v: seq<E>)
    requires F.Laws() && |ys| == |v| > 0
    ensures Shrunk(F, xm, ys[|ys| - 1], ys, v)[|ys| - 1] == F.zero
  {
    var y := ys[|ys| - 1];
    F.AddZero(y);
    F.MulZero(F.inv(F.add(xm, y)));
    F.MulZero(v[|ys| - 1]);
  }

  // A zero entry of the shrunk vector comes from a zero entry of v.
  lemma ShrunkZero<E(!new)>(F: Field<E>, xm: E, yn: E, ys: seq<E>, v: seq<E>, j: nat)
    requires F.Laws() && |ys| == |v| && j < |v| && ys[j] != yn && xm != ys[j]
    requires Shrunk(F, xm, yn, ys, v)[j] == F.zero
    ensures v[j] == F.zero
  {
    F.AddCancels(ys[j], yn);
    F.AddCancels(xm, ys[j]);
    F.MulInverse(F.add(xm, ys[j]));
    var e := F.mul(F.add(ys[j], yn), F.inv(F.add(xm, ys[j])));
    F.NoZeroDivisors(F.add(ys[j], yn), F.inv(F.add(xm, ys[j])));
    F.NoZeroDivisors(e, v[j]);
  }

  // A square Cauchy matrix has a trivial kernel.
  lemma {:induction false} CauchyKernel<E(!new)>(F: Field<E>, xs: seq<E>, ys: seq<E>, v: seq<E>)
    requires F.Laws() && |xs| == |ys| == |v|
    requires Distinct(xs) && Distinct(ys) && Separate(xs, ys)
    requires forall i | 0 <= i < |xs| :: Dot(F, CauchyRow(F, xs[i], ys), v) == F.zero
    ensures AllZero(F, v)
  {
    if |xs| > 0 {
      var n := |xs| - 1;
      var w := Shrunk(F, xs[n], ys[n], ys[..n], v[..n]);
      forall i | 0 <= i < n ensures Dot(F, CauchyRow(F, xs[..n][i], ys[..n]), w) == F.zero {
        ShrunkRow(F, xs[i], xs[n], ys, v);
      }
      CauchyKernel(F, xs[..n], ys[..n], w);
      forall j | 0 <= j < n ensures v[j] == F.zero {
        ShrunkZero(F, xs[n], ys[n], ys[..n], v[..n], j);
      }
      LastEntryZero(F, xs[n], ys, v);
    }
  }

  lemma LastEntryZero<E(!new)>(F: Field<E>, x: E, ys: seq<E>, v: seq<E>)
    requires F.Laws() && |ys| == |v| > 0 && x != ys[|ys| - 1]
    requires Dot(F, CauchyRow(F, x, ys), v) == F.zero
    requires AllZero(F, v[..|v| - 1])
    ensures v[|v| - 1] == F.zero
  {
    var n := |v| - 1;
    DotSingle(F, CauchyRow(F, x, ys), v, n);
    F.AddCancels(x, ys[n]);
    F.MulInverse(F.add(x, ys[n]));
    F.NoZeroDivisors(F.inv(F.add(x, ys[n])), v[n]);
  }

  // The indices below k that are not in s, in ascending order.
  function Missing(s: set<nat>, k: nat): (m: seq<nat>)
    ensures forall i | 0 <= i < |m| :: m[i] < k
  {
    if k == 0 then [] else if k - 1 in s then Missing(s, k - 1) else Missing(s, k - 1) + [k - 1]
  }

  lemma {:induction false} MissingSound(s: set<nat>, k: nat)
    ensures |Missing(s, k)| <= k
    ensures forall i | 0 <= i < |Missing(s, k)| :: Missing(s, k)[i] !in s
    ensures forall i, j | 0 <= i < j < |Missing(s, k)| :: Missing(s, k)[i] < Missing(s, k)[j]
  {
    if k > 0 { MissingSound(s, k - 1); }
  }

  // Column c, when missing, is entry number |Missing(s, c)| of the list.
  lemma {:induction false} MissingPosition(s: set<nat>, c: nat, k: nat)
    requires c < k
    ensures |Missing(s, c)| <= |Missing(s, k)|
    ensures c !in s ==> |Missing(s, c)| < |Missing(s, k)| && Missing(s, k)[|Missing(s, c)|] == c
  {
    if c < k - 1 { MissingPosition(s, c, k - 1); }
  }

  ghost function Select<E>(u: seq<E>, at: seq<nat>): (w: seq<E>)
    requires forall i | 0 <= i < |at| :: at[i] < |u|
    ensures |w| == |at|
  {
    seq(|at|, i requires 0 <= i < |at| => u[at[i]])
  }

  lemma DotSnoc<E(!new)>(F: Field<E>, u: seq<E>, v: seq<E>, a: E, b: E)
    requires |u| == |v|
    ensures Dot(F, u + [a], v + [b]) == F.add(Dot(F, u, v), F.mul(a, b))
  {
    assert (u + [a])[..|u|] == u && (v + [b])[..|v|] == v;
  }

  lemma DotLast<E(!new)>(F: Field<E>, u: seq<E>, v: seq<E>)
    requires |u| == |v| > 0
    ensures var n := |u| - 1;
      Dot(F, u, v) == F.add(Dot(F, u[..n], v[..n]), F.mul(u[n], v[n]))
  {}

  lemma MissingNext(s: set<nat>, n: nat)
    ensures Missing(s, n + 1) == if n in s then Missing(s, n) else Missing(s, n) + [n]
  {}

  lemma SelectPrefix<E>(u: seq<E>, n: nat, at: seq<nat>)
    requires n < |u| && forall i | 0 <= i < |at| :: at[i] < n
    ensures Select(u[..n], at) == Select(u, at) && Select(u, at + [n]) == Select(u, at) + [u[n]]
  {}

  // Entries that meet a zero can be dropped from a product.
  lemma {:induction false} DotSelect<E(!new)>(F: Field<E>, u: seq<E>, v: seq<E>, s: set<nat>)
    requires F.Laws() && |u| == |v|
    requires forall c: nat | c < |u| && c in s :: v[c] == F.zero
    ensures Dot(F, u, v) == Dot(F, Select(u, Missing(s, |u|)), Select(v, Missing(s, |u|)))
  {
    if |u| > 0 {
      DotSelect(F, u[..|u| - 1], v[..|u| - 1], s);
      DotSelectNext(F, u, v, s, |u| - 1, Missing(s, |u| - 1));
    }
  }

  lemma DotSelectNext<E(!new)>(F: Field<E>, u: seq<E>, v: seq<E>, s: set<nat>, n: nat, m: seq<nat>)
    requires F.Laws() && |u| == |v| == n + 1 && m == Missing(s, n) && (n in s ==> v[n] == F.zero)
    requires Dot(F, u[..n], v[..n]) == Dot(F, Select(u[..n], m), Select(v[..n], m))
    ensures Dot(F, u, v) == Dot(F, Select(u, Missing(s, n + 1)), Select(v, Missing(s, n + 1)))
  {
    hide Dot, Missing, Select;
    DotLast(F, u, v);
    MissingNext(s, n);
    SelectPrefix(u, n, m);
    SelectPrefix(v, n, m);
    if n in s {
      F.MulZero(u[n]);
      F.AddZero(Dot(F, u[..n], v[..n]));
    } else {
      DotSnoc(F, Select(u, m), Select(v, m), u[n], v[n]);
    }
  }

  // Row c of the decoding matrix: unit for a received source, otherwise the
  // Cauchy row of the repair symbol assigned to the missing column c.
  ghost function DecodeRow<E(!new)>(F: Field<E>, s: set<nat>, xs: seq<E>, ys: seq<E>, c: nat): (u: seq<E>)
    requires c < |ys| && |Missing(s, |ys|)| == |xs|
    ensures |u| == |ys|
  {
    MissingPosition(s, c, |ys|);
    if c in s then Unit(F, |ys|, c) else CauchyRow(F, xs[|Missing(s, c)|], ys)
  }

  ghost function DecodeMatrix<E(!new)>(F: Field<E>, s: set<nat>, xs: seq<E>, ys: seq<E>): (m: Rows<E>)
    requires |Missing(s, |ys|)| == |xs|
    ensures |m| == |ys| && Rect(m, |ys|)
  {
    seq(|ys|, c requires 0 <= c < |ys| => DecodeRow(F, s, xs, ys, c))
  }

  // Any k of the k + r rows of [I | C] are independent.
  lemma DecodeKernel<E(!new)>(F: Field<E>, s: set<nat>, xs: seq<E>, ys: seq<E>, v: seq<E>)
    requires F.Laws() && |v| == |ys| && |Missing(s, |ys|)| == |xs|
    requires Distinct(xs) && Distinct(ys) && Separate(xs, ys)
    requires Annihilates(F, DecodeMatrix(F, s, xs, ys), v)
    ensures AllZero(F, v)
  {
    var k, m := |ys|, DecodeMatrix(F, s, xs, ys);
    var miss := Missing(s, k);
    forall c: nat | c < k && c in s ensures v[c] == F.zero {
      assert Dot(F, m[c], v) == F.zero;
      DotSingle(F, Unit(F, k, c), v, c);
      F.MulOne(v[c]);
    }
    var ym, vm := Select(ys, miss), Select(v, miss);
    forall i | 0 <= i < |xs| ensures Dot(F, CauchyRow(F, xs[i], ym), vm) == F.zero {
      MissingRow(F, s, xs, ys, v, i);
    }
    MissingSound(s, k);
    CauchyKernel(F, xs, ym, vm);
    forall c: nat | c < k ensures v[c] == F.zero {
      if c !in s {
        MissingPosition(s, c, k);
        assert vm[|Missing(s, c)|] == F.zero;
      }
    }
  }

  lemma MissingRow<E(!new)>(F: Field<E>, s: set<nat>, xs: seq<E>, ys: seq<E>, v: seq<E>, i: nat)
    requires F.Laws() && |v| == |ys| && |Missing(s, |ys|)| == |xs| && i < |xs|
    requires forall c: nat | c < |ys| && c in s :: v[c] == F.zero
    requires Annihilates(F, DecodeMatrix(F, s, xs, ys), v)
    ensures Dot(F, CauchyRow(F, xs[i], Select(ys, Missing(s, |ys|))), Select(v, Missing(s, |ys|))) == F.zero
  {
    var k := |ys|;
    var miss := Missing(s, k);
    var c := miss[i];
    MissingSound(s, k);
    MissingPosition(s, c, k);
    assert |Missing(s, c)| == i;
    assert Dot(F, DecodeMatrix(F, s, xs, ys)[c], v) == F.zero;
    DotSelect(F, CauchyRow(F, xs[i], ys), v, s);
    assert Select(CauchyRow(F, xs[i], ys), miss) == CauchyRow(F, xs[i], Select(ys, miss));
  }
}
