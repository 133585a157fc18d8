// Row vectors, matrices and the vectors they annihilate.
module LinearAlgebra {
  import opened Fields

  type Rows<E> = seq<seq<E>>

  ghost predicate Rect<E>(m: Rows<E>, w: nat) { forall i | 0 <= i < |m| :: |m[i]| == w }

  ghost function Dot<E(!new)>(F: Field<E>, u: seq<E>, z: seq<E>): E
    requires |u| == |z|
  {
    if |u| == 0 then F.zero
    else F.add(Dot(F, u[..|u| - 1], z[..|u| - 1]), F.mul(u[|u| - 1], z[|u| - 1]))
  }

  ghost function Scale<E(!new)>(F: Field<E>, u: seq<E>, c: E): (w: seq<E>)
    ensures |w| == |u|
  {
    seq(|u|, i requires 0 <= i < |u| => F.mul(u[i], c))
  }

  // dst + c * src.
  ghost function AddScaled<E(!new)>(F: Field<E>, dst: seq<E>, src: seq<E>, c: E): (w: seq<E>)
    requires |dst| == |src|
    ensures |w| == |dst|
  {
    seq(|dst|, i requires 0 <= i < |dst| => F.add(dst[i], F.mul(c, src[i])))
  }

  lemma {:induction false} DotScale<E(!new)>(F: Field<E>, u: seq<E>, c: E, z: seq<E>)
    requires F.Laws() && |u| == |z|
    ensures Dot(F, Scale(F, u, c), z) == F.mul(c, Dot(F, u, z))
  {
    if |u| == 0 {
      F.MulZero(c);
    } else {
      var n := |u| - 1;
      DotScale(F, u[..n], c, z[..n]);
      assert Scale(F, u, c)[..n] == Scale(F, u[..n], c);
      assert F.MulCommutes(u[n], c) && F.MulAssociates(c, u[n], z[n]);
      assert F.Distributes(c, Dot(F, u[..n], z[..n]), F.mul(u[n], z[n]));
    }
  }

  lemma {:induction false} DotAddScaled<E(!new)>(F: Field<E>, u: seq<E>, v: seq<E>, c: E, z: seq<E>)
    requires F.Laws() && |u| == |v| == |z|
    ensures Dot(F, AddScaled(F, u, v, c), z) == F.add(Dot(F, u, z), F.mul(c, Dot(F, v, z)))
  {
    if |u| == 0 {
      F.MulZero(c);
      F.AddZero(F.zero);
    } else {
      var n := |u| - 1;
      DotAddScaled(F, u[..n], v[..n], c, z[..n]);
      assert AddScaled(F, u, v, c)[..n] == AddScaled(F, u[..n], v[..n], c);
      var a, b := Dot(F, u[..n], z[..n]), Dot(F, v[..n], z[..n]);
      F.MulAddRight(u[n], F.mul(c, v[n]), z[n]);
      assert F.MulAssociates(c, v[n], z[n]);
      assert F.Distributes(c, b, F.mul(v[n], z[n]));
      F.AddShuffle(a, F.mul(c, b), F.mul(u[n], z[n]), F.mul(c, F.mul(v[n], z[n])));
    }
  }

  // Only position i contributes.
  lemma {:induction false} DotZeros<E(!new)>(F: Field<E>, u: seq<E>, z: seq<E>)
    requires F.Laws() && |u| == |z|
    requires forall j | 0 <= j < |u| :: u[j] == F.zero || z[j] == F.zero
    ensures Dot(F, u, z) == F.zero
  {
    if |u| > 0 {
      var n := |u| - 1;
      DotZeros(F, u[..n], z[..n]);
      F.NoZeroDivisors(u[n], z[n]);
      F.AddZero(F.zero);
    }
  }

  lemma {:induction false} DotSingle<E(!new)>(F: Field<E>, u: seq<E>, z: seq<E>, i: nat)
    requires F.Laws() && |u| == |z| && i < |u|
    requires forall j | 0 <= j < |u| && j != i :: u[j] == F.zero || z[j] == F.zero
    ensures Dot(F, u, z) == F.mul(u[i], z[i])
  {
    var n := |u| - 1;
    if i == n {
      DotZeros(F, u[..n], z[..n]);
      F.AddZero(F.mul(u[n], z[n]));
    } else {
      DotSingle(F, u[..n], z[..n], i);
      F.NoZeroDivisors(u[n], z[n]);
      F.AddZero(F.mul(u[i], z[i]));
    }
  }

  lemma {:induction false} DotConcat<E(!new)>(F: Field<E>, u: seq<E>, v: seq<E>, y: seq<E>, z: seq<E>)
    requires F.Laws() && |u| == |y| && |v| == |z|
    ensures Dot(F, u + v, y + z) == F.add(Dot(F, u, y), Dot(F, v, z))
  {
    if |v| == 0 {
      assert u + v == u && y + z == y;
      F.AddZero(Dot(F, u, y));
    } else {
      var n := |v| - 1;
      DotConcat(F, u, v[..n], y, z[..n]);
      assert (u + v)[..|u| + n] == u + v[..n];
      assert (y + z)[..|u| + n] == y + z[..n];
      assert F.AddAssociates(Dot(F, u, y), Dot(F, v[..n], z[..n]), F.mul(v[n], z[n]));
    }
  }

  // z is orthogonal to every row.
  ghost predicate Annihilates<E(!new)>(F: Field<E>, m: Rows<E>, z: seq<E>)
    requires Rect(m, |z|)
  {
    forall i | 0 <= i < |m| :: Dot(F, m[i], z) == F.zero
  }
}
