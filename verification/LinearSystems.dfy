// Elimination on [a | b] solves a * X = b, or exposes a kernel vector of a.
module LinearSystems {
  import opened Options
  import opened Fields
  import opened LinearAlgebra
  import opened Elimination

  ghost function Column<E>(m: Rows<E>, w: nat, t: nat): (c: seq<E>)
    requires Rect(m, w) && t < w
    ensures |c| == |m|
  {
    seq(|m|, i requires 0 <= i < |m| => m[i][t])
  }

  ghost function Augment<E>(a: Rows<E>, b: Rows<E>, n: nat, w: nat): (m: Rows<E>)
    requires |a| == |b| && Rect(a, n) && Rect(b, w)
    ensures |m| == |a| && Rect(m, n + w)
  {
    seq(|a|, i requires 0 <= i < |a| => a[i] + b[i])
  }

  ghost function Zeros<E(!new)>(F: Field<E>, n: nat): (z: seq<E>)
    ensures |z| == n
  {
    seq(n, _ => F.zero)
  }

  ghost function Unit<E(!new)>(F: Field<E>, n: nat, i: nat): (z: seq<E>)
    requires i < n
    ensures |z| == n
  {
    Zeros(F, n)[i := F.one]
  }

  // a is square, X and b have rows of length w: a * X == b.
  ghost predicate Solves<E(!new)>(F: Field<E>, a: Rows<E>, b: Rows<E>, w: nat, X: Rows<E>)
    requires |a| == |b| == |X| && Rect(a, |a|) && Rect(b, w) && Rect(X, w)
  {
    forall i, t | 0 <= i < |a| && 0 <= t < w :: Dot(F, a[i], Column(X, w, t)) == b[i][t]
  }

  // v is not zero and a * v == 0.
  ghost predicate IsKernelVector<E(!new)>(F: Field<E>, a: Rows<E>, v: seq<E>)
    requires Rect(a, |v|)
  {
    (exists j | 0 <= j < |v| :: v[j] != F.zero) && Annihilates(F, a, v)
  }

  lemma DotProbe<E(!new)>(F: Field<E>, u: seq<E>, v: seq<E>, y: seq<E>, t: nat)
    requires F.Laws() && |u| == |y| && t < |v|
    ensures Dot(F, u + v, y + Unit(F, |v|, t)) == F.add(Dot(F, u, y), v[t])
  {
    DotConcat(F, u, v, y, Unit(F, |v|, t));
    DotSingle(F, v, Unit(F, |v|, t), t);
    F.MulOne(v[t]);
  }

  lemma DotPadded<E(!new)>(F: Field<E>, u: seq<E>, v: seq<E>, y: seq<E>)
    requires F.Laws() && |u| == |y|
    ensures Dot(F, u + v, y + Zeros(F, |v|)) == Dot(F, u, y)
  {
    DotConcat(F, u, v, y, Zeros(F, |v|));
    DotZeros(F, v, Zeros(F, |v|));
    F.AddZero(Dot(F, u, y));
  }

  // y is a solution for column t of the right-hand side.
  ghost predicate ColumnHolds<E(!new)>(F: Field<E>, a: Rows<E>, b: Rows<E>, w: nat, y: seq<E>, t: nat)
    requires |a| == |b| && Rect(a, |y|) && Rect(b, w) && t < w
  {
    forall i | 0 <= i < |a| :: Dot(F, a[i], y) == b[i][t]
  }

  // y is column t of m.
  ghost predicate ColumnIs<E>(m: Rows<E>, w: nat, t: nat, y: seq<E>)
    requires |m| == |y| && Rect(m, w) && t < w
  {
    forall i | 0 <= i < |m| :: y[i] == m[i][t]
  }

  // Column t of X solves column t of the system iff the probe vector is annihilated.
  lemma ProbeMeaning<E(!new)>(F: Field<E>, a: Rows<E>, b: Rows<E>, w: nat, y: seq<E>, t: nat)
    requires F.Laws() && |a| == |b| && Rect(a, |y|) && Rect(b, w) && t < w
    ensures Annihilates(F, Augment(a, b, |y|, w), y + Unit(F, w, t)) <==> ColumnHolds(F, a, b, w, y, t)
  {
    var m, z := Augment(a, b, |y|, w), y + Unit(F, w, t);
    forall i | 0 <= i < |a| ensures Dot(F, m[i], z) == F.zero <==> Dot(F, a[i], y) == b[i][t] {
      DotProbe(F, a[i], b[i], y, t);
      F.AddCancels(Dot(F, a[i], y), b[i][t]);
    }
  }

  // Row i of a reduced matrix picks out entry i of y.
  lemma DotReduced<E(!new)>(F: Field<E>, m: Rows<E>, i: nat, y: seq<E>, z: seq<E>)
    requires F.Laws() && Rect(m, |y| + |z|) && i < |m| == |y|
    requires IdentityColumns(F, m, |y| + |z|, |y|)
    ensures Dot(F, m[i], y + z) == F.add(y[i], Dot(F, m[i][|y|..], z))
  {
    var n := |y|;
    assert m[i] == m[i][..n] + m[i][n..];
    DotConcat(F, m[i][..n], m[i][n..], y, z);
    DotSingle(F, m[i][..n], y, i);
    F.MulOne(y[i]);
  }

  // The right block after elimination.
  ghost function RightBlock<E>(m: Rows<E>, n: nat, w: nat): (b: Rows<E>)
    requires Rect(m, n + w)
    ensures |b| == |m| && Rect(b, w)
  {
    seq(|m|, i requires 0 <= i < |m| => m[i][n..])
  }

  lemma ReducedProbe<E(!new)>(F: Field<E>, m: Rows<E>, w: nat, y: seq<E>, t: nat)
    requires F.Laws() && |m| == |y| && Rect(m, |y| + w) && t < w
    requires IdentityColumns(F, m, |y| + w, |y|)
    ensures Annihilates(F, m, y + Unit(F, w, t)) <==> ColumnIs(m, |y| + w, |y| + t, y)
  {
    forall i | 0 <= i < |m| ensures Dot(F, m[i], y + Unit(F, w, t)) == F.zero <==> y[i] == m[i][|y| + t] {
      DotReduced(F, m, i, y, Unit(F, w, t));
      DotSingle(F, m[i][|y|..], Unit(F, w, t), t);
      F.MulOne(m[i][|y| + t]);
      F.AddCancels(y[i], m[i][|y| + t]);
    }
  }

  // What elimination of [a | b] returns.
  ghost function Solve<E(!new)>(F: Field<E>, a: Rows<E>, b: Rows<E>, w: nat): (r: Option<Rows<E>>)
    requires |a| == |b| && Rect(a, |a|) && Rect(b, w)
    ensures r.Some? ==> |r.value| == |a| && Rect(r.value, |a| + w)
  {
    GaussJordan(F, Augment(a, b, |a|, w), |a| + w, 0)
  }

  lemma SolveFacts<E(!new)>(F: Field<E>, a: Rows<E>, b: Rows<E>, w: nat, z: seq<E>)
    requires F.Laws() && |a| == |b| && Rect(a, |a|) && Rect(b, w) && |z| == |a| + w
    requires Solve(F, a, b, w).Some?
    ensures IdentityColumns(F, Solve(F, a, b, w).value, |a| + w, |a|)
    ensures Annihilates(F, Solve(F, a, b, w).value, z) <==> Annihilates(F, Augment(a, b, |a|, w), z)
  {
    GaussIdentity(F, Augment(a, b, |a|, w), |a| + w, 0);
    GaussAnnihilates(F, Augment(a, b, |a|, w), 0, z);
  }

  lemma SolveColumn<E(!new)>(F: Field<E>, a: Rows<E>, b: Rows<E>, w: nat, y: seq<E>, t: nat)
    requires F.Laws() && |a| == |b| == |y| && Rect(a, |a|) && Rect(b, w) && t < w
    requires Solve(F, a, b, w).Some?
    ensures ColumnHolds(F, a, b, w, y, t) <==> ColumnIs(Solve(F, a, b, w).value, |a| + w, |a| + t, y)
  {
    SolveFacts(F, a, b, w, y + Unit(F, w, t));
    ProbeMeaning(F, a, b, w, y, t);
    ReducedProbe(F, Solve(F, a, b, w).value, w, y, t);
  }

  lemma EqualByColumns<E>(X: Rows<E>, Y: Rows<E>, w: nat)
    requires |X| == |Y| && Rect(X, w) && Rect(Y, w)
    ensures X == Y <==> forall t | 0 <= t < w :: ColumnIs(Y, w, t, Column(X, w, t))
  {
    if forall t | 0 <= t < w :: ColumnIs(Y, w, t, Column(X, w, t)) {
      forall i | 0 <= i < |X| ensures X[i] == Y[i] {
        forall t | 0 <= t < w ensures X[i][t] == Y[i][t] {
          assert ColumnIs(Y, w, t, Column(X, w, t));
          assert Column(X, w, t)[i] == X[i][t];
        }
      }
    }
  }

  lemma SolvesByColumns<E(!new)>(F: Field<E>, a: Rows<E>, b: Rows<E>, w: nat, X: Rows<E>)
    requires |a| == |b| == |X| && Rect(a, |a|) && Rect(b, w) && Rect(X, w)
    ensures Solves(F, a, b, w, X) <==> forall t | 0 <= t < w :: ColumnHolds(F, a, b, w, Column(X, w, t), t)
  {
    if forall t | 0 <= t < w :: ColumnHolds(F, a, b, w, Column(X, w, t), t) {
      forall i, t | 0 <= i < |a| && 0 <= t < w ensures Dot(F, a[i], Column(X, w, t)) == b[i][t] {
        assert ColumnHolds(F, a, b, w, Column(X, w, t), t);
      }
    }
  }

  // On success the right block is the one and only solution.
  lemma SolveUnique<E(!new)>(F: Field<E>, a: Rows<E>, b: Rows<E>, w: nat, X: Rows<E>)
    requires F.Laws() && |a| == |b| == |X| && Rect(a, |a|) && Rect(b, w) && Rect(X, w)
    requires Solve(F, a, b, w).Some?
    ensures Solves(F, a, b, w, X) <==> X == RightBlock(Solve(F, a, b, w).value, |a|, w)
  {
    var r := Solve(F, a, b, w).value;
    var Y := RightBlock(r, |a|, w);
    forall t | 0 <= t < w
      ensures ColumnHolds(F, a, b, w, Column(X, w, t), t) <==> ColumnIs(Y, w, t, Column(X, w, t))
    {
      SolveColumn(F, a, b, w, Column(X, w, t), t);
      assert forall i | 0 <= i < |a| :: Y[i][t] == r[i][|a| + t];
    }
    EqualByColumns(X, Y, w);
    SolvesByColumns(F, a, b, w, X);
  }

  lemma SolveFailsSingular<E(!new)>(F: Field<E>, a: Rows<E>, b: Rows<E>, w: nat) returns (v: seq<E>)
    requires F.Laws() && |a| == |b| && Rect(a, |a|) && Rect(b, w)
    requires Solve(F, a, b, w).None?
    ensures |v| == |a| && IsKernelVector(F, a, v)
  {
    var m := Augment(a, b, |a|, w);
    var z := GaussSingular(F, m, |a| + w, 0);
    v := z[..|a|];
    assert z == v + Zeros(F, w);
    PaddedKernel(F, a, b, w, v);
  }

  lemma SolveTrivialKernel<E(!new)>(F: Field<E>, a: Rows<E>, b: Rows<E>, w: nat, v: seq<E>, j: nat)
    requires F.Laws() && |a| == |b| == |v| && Rect(a, |a|) && Rect(b, w) && j < |v|
    requires Solve(F, a, b, w).Some? && Annihilates(F, a, v)
    ensures v[j] == F.zero
  {
    SolveFacts(F, a, b, w, v + Zeros(F, w));
    PaddedKernel(F, a, b, w, v);
    ReducedKernel(F, Solve(F, a, b, w).value, w, v, j);
  }

  lemma PaddedKernel<E(!new)>(F: Field<E>, a: Rows<E>, b: Rows<E>, w: nat, v: seq<E>)
    requires F.Laws() && |a| == |b| == |v| && Rect(a, |a|) && Rect(b, w)
    ensures Annihilates(F, Augment(a, b, |a|, w), v + Zeros(F, w)) <==> Annihilates(F, a, v)
  {
    var m, z := Augment(a, b, |a|, w), v + Zeros(F, w);
    forall i | 0 <= i < |a| ensures Dot(F, m[i], z) == Dot(F, a[i], v) {
      DotPadded(F, a[i], b[i], v);
      assert m[i] == a[i] + b[i];
    }
  }

  lemma ReducedKernel<E(!new)>(F: Field<E>, r: Rows<E>, w: nat, v: seq<E>, j: nat)
    requires F.Laws() && |r| == |v| && Rect(r, |v| + w) && j < |v|
    requires IdentityColumns(F, r, |v| + w, |v|) && Annihilates(F, r, v + Zeros(F, w))
    ensures v[j] == F.zero
  {
    DotReduced(F, r, j, v, Zeros(F, w));
    DotZeros(F, r[j][|v|..], Zeros(F, w));
    F.AddZero(v[j]);
  }

  // Elimination fails exactly when a has a kernel vector.
  lemma SolveFailsIffSingular<E(!new)>(F: Field<E>, a: Rows<E>, b: Rows<E>, w: nat)
    requires F.Laws() && |a| == |b| && Rect(a, |a|) && Rect(b, w)
    ensures Solve(F, a, b, w).None? <==> exists v: seq<E> :: |v| == |a| && IsKernelVector(F, a, v)
  {
    if Solve(F, a, b, w).None? {
      var v := SolveFailsSingular(F, a, b, w);
    } else {
      forall v: seq<E>, j | |v| == |a| && Annihilates(F, a, v) && 0 <= j < |v| ensures v[j] == F.zero {
        SolveTrivialKernel(F, a, b, w, v, j);
      }
    }
  }
}
