// Gauss-Jordan elimination as a function, and what it preserves.
module Elimination {
  import opened Options
  import opened Fields
  import opened LinearAlgebra

  // The first row at or below `from` with a non-zero entry in column `col`.
  ghost function FindPivot<E(!new)>(F: Field<E>, m: Rows<E>, w: nat, col: nat, from: nat): (p: Option<nat>)
    requires Rect(m, w) && col < w && from <= |m|
    ensures p.Some? ==> from <= p.value < |m| && m[p.value][col] != F.zero
    ensures p.Some? ==> forall i | from <= i < p.value :: m[i][col] == F.zero
    ensures p.None? ==> forall i | from <= i < |m| :: m[i][col] == F.zero
    decreases |m| - from
  {
    if from == |m| then None
    else if m[from][col] != F.zero then Some(from)
    else FindPivot(F, m, w, col, from + 1)
  }

  ghost function Swap<E>(m: Rows<E>, i: nat, j: nat): Rows<E>
    requires i < |m| && j < |m|
  {
    m[i := m[j]][j := m[i]]
  }

  // Scale row `col` to a leading one and clear its column in every other row.
  ghost function Clear<E(!new)>(F: Field<E>, m: Rows<E>, w: nat, col: nat): (n: Rows<E>)
    requires Rect(m, w) && col < |m| && col < w
    ensures |n| == |m| && Rect(n, w)
  {
    var pivotRow := Scale(F, m[col], F.inv(m[col][col]));
    seq(|m|, r requires 0 <= r < |m| => if r == col then pivotRow else AddScaled(F, m[r], pivotRow, m[r][col]))
  }

  ghost function GaussJordan<E(!new)>(F: Field<E>, m: Rows<E>, w: nat, col: nat): (r: Option<Rows<E>>)
    requires Rect(m, w) && col <= |m| <= w
    ensures r.Some? ==> |r.value| == |m| && Rect(r.value, w)
    decreases |m| - col
  {
    if col == |m| then Some(m)
    else
      var p := FindPivot(F, m, w, col, col);
      if p.None? then None else GaussJordan(F, Clear(F, Swap(m, col, p.value), w, col), w, col + 1)
  }

  // The first n columns are those of the identity matrix.
  ghost predicate IdentityColumns<E(!new)>(F: Field<E>, m: Rows<E>, w: nat, n: nat)
    requires Rect(m, w) && n <= w
  {
    forall i, j | 0 <= i < |m| && 0 <= j < n :: m[i][j] == if i == j then F.one else F.zero
  }

  lemma SwapAnnihilates<E(!new)>(F: Field<E>, m: Rows<E>, i: nat, j: nat, z: seq<E>)
    requires Rect(m, |z|) && i < |m| && j < |m|
    ensures Rect(Swap(m, i, j), |z|)
    ensures Annihilates(F, Swap(m, i, j), z) <==> Annihilates(F, m, z)
  {
    var s := Swap(m, i, j);
    assert forall r | 0 <= r < |m| :: m[r] == if r == i then s[j] else if r == j then s[i] else s[r];
  }

  lemma ClearAnnihilates<E(!new)>(F: Field<E>, m: Rows<E>, col: nat, z: seq<E>)
    requires F.Laws() && Rect(m, |z|) && col < |m| && col < |z|
    requires m[col][col] != F.zero
    ensures Annihilates(F, Clear(F, m, |z|, col), z) <==> Annihilates(F, m, z)
  {
    var n := Clear(F, m, |z|, col);
    var c := F.inv(m[col][col]);
    F.MulInverse(m[col][col]);
    DotScale(F, m[col], c, z);
    F.NoZeroDivisors(c, Dot(F, m[col], z));
    assert n[col] == Scale(F, m[col], c);
    if Dot(F, m[col], z) == F.zero {
      forall r | 0 <= r < |m| && r != col ensures Dot(F, n[r], z) == Dot(F, m[r], z) {
        DotAddScaled(F, m[r], n[col], m[r][col], z);
        F.MulZero(m[r][col]);
        F.AddZero(Dot(F, m[r], z));
      }
    } else {
      assert Dot(F, n[col], z) != F.zero;
    }
  }

  lemma ClearIdentity<E(!new)>(F: Field<E>, m: Rows<E>, w: nat, col: nat)
    requires F.Laws() && Rect(m, w) && col < |m| && col < w
    requires IdentityColumns(F, m, w, col) && m[col][col] != F.zero
    ensures IdentityColumns(F, Clear(F, m, w, col), w, col + 1)
  {
    var n := Clear(F, m, w, col);
    var c := F.inv(m[col][col]);
    F.MulInverse(m[col][col]);
    forall i, j | 0 <= i < |m| && 0 <= j <= col ensures n[i][j] == if i == j then F.one else F.zero {
      F.MulZero(c);
      if i != col {
        F.MulZero(m[i][col]);
        F.MulOne(m[i][col]);
        F.AddZero(m[i][j]);
      }
    }
  }

  lemma {:induction false} GaussAnnihilates<E(!new)>(F: Field<E>, m: Rows<E>, col: nat, z: seq<E>)
    requires F.Laws() && Rect(m, |z|) && col <= |m| <= |z|
    requires GaussJordan(F, m, |z|, col).Some?
    ensures Annihilates(F, GaussJordan(F, m, |z|, col).value, z) <==> Annihilates(F, m, z)
    decreases |m| - col
  {
    if col < |m| {
      var p := FindPivot(F, m, |z|, col, col).value;
      SwapAnnihilates(F, m, col, p, z);
      ClearAnnihilates(F, Swap(m, col, p), col, z);
      GaussAnnihilates(F, Clear(F, Swap(m, col, p), |z|, col), col + 1, z);
    }
  }

  lemma {:induction false} GaussIdentity<E(!new)>(F: Field<E>, m: Rows<E>, w: nat, col: nat)
    requires F.Laws() && Rect(m, w) && col <= |m| <= w
    requires IdentityColumns(F, m, w, col)
    requires GaussJordan(F, m, w, col).Some?
    ensures IdentityColumns(F, GaussJordan(F, m, w, col).value, w, |m|)
    decreases |m| - col
  {
    if col < |m| {
      var p := FindPivot(F, m, w, col, col).value;
      ClearIdentity(F, Swap(m, col, p), w, col);
      GaussIdentity(F, Clear(F, Swap(m, col, p), w, col), w, col + 1);
    }
  }

  // A vector that is not zero on its first n entries and zero on the others.
  ghost predicate IsKernelShape<E(!new)>(F: Field<E>, z: seq<E>, n: nat)
    requires n <= |z|
  {
    && (exists j | 0 <= j < n :: z[j] != F.zero)
    && (forall j | n <= j < |z| :: z[j] == F.zero)
  }

  // The column without a pivot yields a kernel vector.
  ghost function KernelVector<E(!new)>(F: Field<E>, m: Rows<E>, w: nat, col: nat): (z: seq<E>)
    requires Rect(m, w) && col < |m| <= w
    ensures |z| == w
  {
    seq(w, j requires 0 <= j < w => if j < col then m[j][col] else if j == col then F.one else F.zero)
  }

  lemma NoPivotKernel<E(!new)>(F: Field<E>, m: Rows<E>, w: nat, col: nat)
    requires F.Laws() && Rect(m, w) && col < |m| <= w
    requires IdentityColumns(F, m, w, col)
    requires forall i | col <= i < |m| :: m[i][col] == F.zero
    ensures Annihilates(F, m, KernelVector(F, m, w, col))
    ensures IsKernelShape(F, KernelVector(F, m, w, col), |m|)
  {
    var z := KernelVector(F, m, w, col);
    assert z[col] != F.zero;
    forall i | 0 <= i < |m| ensures Dot(F, m[i], z) == F.zero {
      NoPivotRow(F, m, w, col, i);
    }
  }

  lemma NoPivotRow<E(!new)>(F: Field<E>, m: Rows<E>, w: nat, col: nat, i: nat)
    requires F.Laws() && Rect(m, w) && col < |m| <= w && i < |m|
    requires IdentityColumns(F, m, w, col)
    requires forall i | col <= i < |m| :: m[i][col] == F.zero
    ensures Dot(F, m[i], KernelVector(F, m, w, col)) == F.zero
  {
    hide Dot;
    var z := KernelVector(F, m, w, col);
    if i >= col {
      DotZeros(F, m[i], z);
    } else {
      // Split the row at column i + 1: one entry survives on each side.
      var u, v := m[i][..i + 1], m[i][i + 1..];
      var y, x := z[..i + 1], z[i + 1..];
      assert m[i] == u + v && z == y + x;
      DotConcat(F, u, v, y, x);
      DotSingle(F, u, y, i);
      DotSingle(F, v, x, col - i - 1);
      F.MulOne(m[i][col]);
      F.AddZero(m[i][col]);
    }
  }

  lemma {:induction false} GaussSingular<E(!new)>(F: Field<E>, m: Rows<E>, w: nat, col: nat)
    returns (z: seq<E>)
    requires F.Laws() && Rect(m, w) && col <= |m| <= w
    requires IdentityColumns(F, m, w, col)
    requires GaussJordan(F, m, w, col).None?
    ensures |z| == w && IsKernelShape(F, z, |m|) && Annihilates(F, m, z)
    decreases |m| - col
  {
    var p := FindPivot(F, m, w, col, col);
    if p.None? {
      z := KernelVector(F, m, w, col);
      NoPivotKernel(F, m, w, col);
    } else {
      var s := Swap(m, col, p.value);
      ClearIdentity(F, s, w, col);
      z := GaussSingular(F, Clear(F, s, w, col), w, col + 1);
      ClearAnnihilates(F, s, col, z);
      SwapAnnihilates(F, m, col, p.value, z);
    }
  }
}
