// Elimination whose right-hand rows may have different lengths.
module Ragged {
  import opened Options
  import opened Fields
  import opened LinearAlgebra
  import opened Elimination
  import opened LinearSystems

  // Overrun: a row was longer than the pivot row added to it, so an index left the pivot row.
  datatype Reduction<E> = Overrun | Singular | Reduced(mat: Rows<E>, rhs: Rows<E>)

  ghost predicate Overruns<E(!new)>(F: Field<E>, a: Rows<E>, b: Rows<E>, col: nat)
    requires |a| == |b| && Rect(a, |a|) && col < |a|
  {
    exists r | 0 <= r < |a| && r != col :: a[r][col] != F.zero && |b[r]| > |b[col]|
  }

  // Right-hand row r once column col is cleared with the scaled pivot row q.
  ghost function ClearedRhs<E(!new)>(F: Field<E>, a: Rows<E>, b: Rows<E>, q: seq<E>, col: nat, r: nat): (s: seq<E>)
    requires |a| == |b| && Rect(a, |a|) && col < |a| && r < |a|
    requires r != col && a[r][col] != F.zero ==> |b[r]| <= |q|
    ensures |s| == if r == col then |q| else |b[r]|
  {
    if r == col then q
    else if a[r][col] == F.zero then b[r]
    else AddScaled(F, b[r], q[..|b[r]|], a[r][col])
  }

  ghost function ClearRhs<E(!new)>(F: Field<E>, a: Rows<E>, b: Rows<E>, col: nat): (c: Rows<E>)
    requires |a| == |b| && Rect(a, |a|) && col < |a| && !Overruns(F, a, b, col)
    ensures |c| == |b| && forall r | 0 <= r < |b| :: |c[r]| == |b[r]|
  {
    var q := Scale(F, b[col], F.inv(a[col][col]));
    seq(|b|, r requires 0 <= r < |b| => ClearedRhs(F, a, b, q, col, r))
  }

  ghost function Eliminate<E(!new)>(F: Field<E>, a: Rows<E>, b: Rows<E>, col: nat): (e: Reduction<E>)
    requires |a| == |b| && Rect(a, |a|) && col <= |a|
    ensures e.Reduced? ==> |e.mat| == |e.rhs| == |a|
    decreases |a| - col
  {
    if col == |a| then Reduced(a, b)
    else
      var p := FindPivot(F, a, |a|, col, col);
      if p.None? then Singular
      else
        var s, t := Swap(a, col, p.value), Swap(b, col, p.value);
        if Overruns(F, s, t, col) then Overrun
        else Eliminate(F, Clear(F, s, |a|, col), ClearRhs(F, s, t, col), col + 1)
  }

  // ---- Rows of one length ----

  lemma AddNothing<E(!new)>(F: Field<E>, u: seq<E>, v: seq<E>)
    requires F.Laws() && |u| == |v|
    ensures AddScaled(F, u, v, F.zero) == u
  {
    forall i | 0 <= i < |u| ensures AddScaled(F, u, v, F.zero)[i] == u[i] {
      F.MulZero(v[i]);
      F.AddZero(u[i]);
    }
  }

  lemma ScaleBoth<E(!new)>(F: Field<E>, u: seq<E>, v: seq<E>, c: E)
    ensures Scale(F, u + v, c) == Scale(F, u, c) + Scale(F, v, c)
  {}

  lemma AddBoth<E(!new)>(F: Field<E>, u: seq<E>, v: seq<E>, p: seq<E>, q: seq<E>, c: E)
    requires |u| == |p| && |v| == |q|
    ensures AddScaled(F, u + v, p + q, c) == AddScaled(F, u, p, c) + AddScaled(F, v, q, c)
  {}

  lemma ClearEvenRow<E(!new)>(F: Field<E>, a: Rows<E>, b: Rows<E>, w: nat, col: nat, r: nat)
    requires F.Laws() && |a| == |b| && Rect(a, |a|) && Rect(b, w) && col < |a| && r < |a|
    ensures var q := Scale(F, b[col], F.inv(a[col][col]));
      Clear(F, Augment(a, b, |a|, w), |a| + w, col)[r] == Clear(F, a, |a|, col)[r] + ClearedRhs(F, a, b, q, col, r)
  {
    var c := F.inv(a[col][col]);
    var p, q := Scale(F, a[col], c), Scale(F, b[col], c);
    ScaleBoth(F, a[col], b[col], c);
    if r != col {
      AddBoth(F, a[r], b[r], p, q, a[r][col]);
      AddNothing(F, b[r], q);
      assert q[..w] == q;
    }
  }

  lemma ClearEven<E(!new)>(F: Field<E>, a: Rows<E>, b: Rows<E>, w: nat, col: nat)
    requires F.Laws() && |a| == |b| && Rect(a, |a|) && Rect(b, w) && col < |a|
    ensures !Overruns(F, a, b, col) && Rect(ClearRhs(F, a, b, col), w)
    ensures Augment(Clear(F, a, |a|, col), ClearRhs(F, a, b, col), |a|, w) ==
      Clear(F, Augment(a, b, |a|, w), |a| + w, col)
  {
    forall r | 0 <= r < |a|
      ensures Augment(Clear(F, a, |a|, col), ClearRhs(F, a, b, col), |a|, w)[r] ==
        Clear(F, Augment(a, b, |a|, w), |a| + w, col)[r]
    {
      ClearEvenRow(F, a, b, w, col, r);
    }
  }

  lemma {:induction false} PivotEven<E(!new)>(F: Field<E>, a: Rows<E>, b: Rows<E>, k: nat, w: nat, col: nat, from: nat)
    requires |a| == |b| && Rect(a, k) && Rect(b, w) && col < k && from <= |a|
    ensures FindPivot(F, Augment(a, b, k, w), k + w, col, from) == FindPivot(F, a, k, col, from)
    decreases |a| - from
  {
    if from < |a| {
      PivotEven(F, a, b, k, w, col, from + 1);
      assert Augment(a, b, k, w)[from][col] == a[from][col];
    }
  }

  lemma SwapEven<E(!new)>(a: Rows<E>, b: Rows<E>, k: nat, w: nat, i: nat, j: nat)
    requires |a| == |b| && Rect(a, k) && Rect(b, w) && i < |a| && j < |a|
    ensures Rect(Swap(a, i, j), k) && Rect(Swap(b, i, j), w)
    ensures Augment(Swap(a, i, j), Swap(b, i, j), k, w) == Swap(Augment(a, b, k, w), i, j)
  {}

  // The reduction of even rows is the elimination of the augmented matrix.
  ghost predicate SameAs<E(!new)>(e: Reduction<E>, g: Option<Rows<E>>, k: nat, w: nat) {
    && !e.Overrun? && (e.Singular? <==> g.None?)
    && (e.Reduced? ==> |e.mat| == |e.rhs| && Rect(e.mat, k) && Rect(e.rhs, w) && g == Some(Augment(e.mat, e.rhs, k, w)))
  }

  // One round of the reduction, with its pivot p.
  lemma EliminateRound<E(!new)>(F: Field<E>, a: Rows<E>, b: Rows<E>, col: nat, p: nat)
    requires |a| == |b| && Rect(a, |a|) && col < |a| && FindPivot(F, a, |a|, col, col) == Some(p)
    ensures var s, t := Swap(a, col, p), Swap(b, col, p);
      Eliminate(F, a, b, col) ==
      if Overruns(F, s, t, col) then Overrun else Eliminate(F, Clear(F, s, |a|, col), ClearRhs(F, s, t, col), col + 1)
  {}

  lemma EliminateEnd<E(!new)>(F: Field<E>, a: Rows<E>, b: Rows<E>)
    requires |a| == |b| && Rect(a, |a|)
    ensures Eliminate(F, a, b, |a|) == Reduced(a, b)
  {}

  lemma GaussRound<E(!new)>(F: Field<E>, m: Rows<E>, w: nat, col: nat, p: nat)
    requires Rect(m, w) && col < |m| <= w && FindPivot(F, m, w, col, col) == Some(p)
    ensures GaussJordan(F, m, w, col) == GaussJordan(F, Clear(F, Swap(m, col, p), w, col), w, col + 1)
  {}

  // The even rows that one round leaves.
  lemma RowsEven<E(!new)>(F: Field<E>, a: Rows<E>, b: Rows<E>, w: nat, col: nat, p: nat)
    returns (c: Rows<E>, d: Rows<E>)
    requires F.Laws() && |a| == |b| && Rect(a, |a|) && Rect(b, w) && col <= p < |a|
    ensures var s, t := Swap(a, col, p), Swap(b, col, p);
      && Rect(s, |a|) && !Overruns(F, s, t, col) && c == Clear(F, s, |a|, col) && d == ClearRhs(F, s, t, col)
    ensures |c| == |d| == |a| && Rect(c, |a|) && Rect(d, w)
    ensures Augment(c, d, |a|, w) == Clear(F, Swap(Augment(a, b, |a|, w), col, p), |a| + w, col)
  {
    var s, t := Swap(a, col, p), Swap(b, col, p);
    SwapEven(a, b, |a|, w, col, p);
    ClearEven(F, s, t, w, col);
    c, d := Clear(F, s, |a|, col), ClearRhs(F, s, t, col);
  }

  lemma RoundEven<E(!new)>(F: Field<E>, a: Rows<E>, b: Rows<E>, w: nat, col: nat, p: nat)
    returns (c: Rows<E>, d: Rows<E>)
    requires F.Laws() && |a| == |b| && Rect(a, |a|) && Rect(b, w) && col < |a|
    requires FindPivot(F, a, |a|, col, col) == Some(p)
    ensures |c| == |d| == |a| && Rect(c, |a|) && Rect(d, w)
    ensures Eliminate(F, a, b, col) == Eliminate(F, c, d, col + 1)
    ensures GaussJordan(F, Augment(a, b, |a|, w), |a| + w, col) ==
      GaussJordan(F, Augment(c, d, |a|, w), |a| + w, col + 1)
  {
    hide Eliminate, GaussJordan;
    c, d := RowsEven(F, a, b, w, col, p);
    EliminateRound(F, a, b, col, p);
    PivotEven(F, a, b, |a|, w, col, col);
    GaussRound(F, Augment(a, b, |a|, w), |a| + w, col, p);
  }

  lemma LastEven<E(!new)>(F: Field<E>, a: Rows<E>, b: Rows<E>, w: nat)
    requires |a| == |b| && Rect(a, |a|) && Rect(b, w)
    ensures SameAs(Eliminate(F, a, b, |a|), GaussJordan(F, Augment(a, b, |a|, w), |a| + w, |a|), |a|, w)
  {}

  lemma NoPivotEven<E(!new)>(F: Field<E>, a: Rows<E>, b: Rows<E>, w: nat, col: nat)
    requires |a| == |b| && Rect(a, |a|) && Rect(b, w) && col < |a| && FindPivot(F, a, |a|, col, col).None?
    ensures SameAs(Eliminate(F, a, b, col), GaussJordan(F, Augment(a, b, |a|, w), |a| + w, col), |a|, w)
  {
    PivotEven(F, a, b, |a|, w, col, col);
  }

  ghost predicate Stops<E(!new)>(F: Field<E>, a: Rows<E>, col: nat)
    requires Rect(a, |a|) && col <= |a|
  {
    col == |a| || FindPivot(F, a, |a|, col, col).None?
  }

  // The reduction e and the elimination g are those of a and b from column col on.
  ghost predicate Meets<E(!new)>(F: Field<E>, a: Rows<E>, b: Rows<E>, k: nat, w: nat, col: nat, e: Reduction<E>,
          g: Option<Rows<E>>) {
    && |a| == |b| == k && Rect(a, k) && Rect(b, w) && col <= k
    && e == Eliminate(F, a, b, col) && g == GaussJordan(F, Augment(a, b, k, w), k + w, col)
  }

  lemma EvenStop<E(!new)>(F: Field<E>, a: Rows<E>, b: Rows<E>, k: nat, w: nat, col: nat, e: Reduction<E>,
          g: Option<Rows<E>>)
    requires Meets(F, a, b, k, w, col, e, g) && Stops(F, a, col)
    ensures SameAs(e, g, k, w)
  {
    if col == k { LastEven(F, a, b, w); } else { NoPivotEven(F, a, b, w, col); }
  }

  lemma EvenStep<E(!new)>(F: Field<E>, a: Rows<E>, b: Rows<E>, k: nat, w: nat, col: nat, e: Reduction<E>,
          g: Option<Rows<E>>)
    returns (c: Rows<E>, d: Rows<E>)
    requires F.Laws() && Meets(F, a, b, k, w, col, e, g) && !Stops(F, a, col)
    ensures col < k && Meets(F, c, d, k, w, col + 1, e, g)
  {
    hide Eliminate, GaussJordan;
    c, d := RoundEven(F, a, b, w, col, FindPivot(F, a, k, col, col).value);
  }

  lemma {:induction false} EvenFrom<E(!new)>(F: Field<E>, a: Rows<E>, b: Rows<E>, k: nat, w: nat, col: nat,
          e: Reduction<E>, g: Option<Rows<E>>)
    requires F.Laws() && Meets(F, a, b, k, w, col, e, g)
    ensures SameAs(e, g, k, w)
    decreases k - col
  {
    hide Eliminate, GaussJordan;
    if Stops(F, a, col) {
      EvenStop(F, a, b, k, w, col, e, g);
    } else {
      var c, d := EvenStep(F, a, b, k, w, col, e, g);
      EvenFrom(F, c, d, k, w, col + 1, e, g);
    }
  }

  // Rows of one length never overrun, and elimination is that of the augmented matrix.
  lemma EliminateEven<E(!new)>(F: Field<E>, a: Rows<E>, b: Rows<E>, w: nat)
    requires F.Laws() && |a| == |b| && Rect(a, |a|) && Rect(b, w)
    ensures SameAs(Eliminate(F, a, b, 0), Solve(F, a, b, w), |a|, w)
  {
    EvenFrom(F, a, b, |a|, w, 0, Eliminate(F, a, b, 0), Solve(F, a, b, w));
  }

  lemma KernelOf<E(!new)>(F: Field<E>, a: Rows<E>) returns (z: seq<E>)
    requires F.Laws() && Rect(a, |a|) && GaussJordan(F, a, |a|, 0).None?
    ensures |z| == |a| && IsKernelVector(F, a, z)
  {
    hide GaussJordan;
    z := GaussSingular(F, a, |a|, 0);
  }

  // A matrix without kernel vectors reduces.
  lemma ReducesWithoutKernel<E(!new)>(F: Field<E>, a: Rows<E>)
    requires F.Laws() && Rect(a, |a|) && forall v: seq<E> | |v| == |a| :: !IsKernelVector(F, a, v)
    ensures GaussJordan(F, a, |a|, 0).Some?
  {
    hide GaussJordan;
    if GaussJordan(F, a, |a|, 0).None? { var z := KernelOf(F, a); }
  }

  // ---- Unit rows shorter than the others ----

  // Some row outside s has a non-zero entry in column c.
  ghost predicate Reached<E(!new)>(F: Field<E>, a: Rows<E>, s: set<nat>, c: nat)
    requires Rect(a, |a|) && c < |a|
  {
    exists r: nat | r < |a| && r !in s :: a[r][c] != F.zero
  }

  ghost predicate UnitFrom<E(!new)>(F: Field<E>, a: Rows<E>, s: set<nat>, col: nat)
    requires Rect(a, |a|)
  {
    forall c: nat | c in s && col <= c < |a| :: a[c] == Unit(F, |a|, c) && Reached(F, a, s, c)
  }

  // Rows outside s have length w.
  ghost predicate FullOutside<E>(b: Rows<E>, s: set<nat>, w: nat) { forall r: nat | r < |b| && r !in s :: |b[r]| == w }

  ghost predicate ShortFrom<E>(b: Rows<E>, s: set<nat>, w: nat, col: nat) {
    exists c: nat | c in s && col <= c < |b| :: |b[c]| < w
  }

  lemma UnitEntry<E(!new)>(F: Field<E>, n: nat, c: nat, j: nat)
    requires c < n && j < n
    ensures Unit(F, n, c)[j] == if j == c then F.one else F.zero
  {}

  // The pivot of a column outside s is a row outside s; the pivot of a column in s is its own unit row.
  lemma PivotPlace<E(!new)>(F: Field<E>, a: Rows<E>, s: set<nat>, col: nat)
    requires F.Laws() && Rect(a, |a|) && col < |a| && UnitFrom(F, a, s, col) && FindPivot(F, a, |a|, col, col).Some?
    ensures var p := FindPivot(F, a, |a|, col, col).value; if col in s then p == col else p !in s
  {
    var p := FindPivot(F, a, |a|, col, col).value;
    if col in s {
      UnitEntry(F, |a|, col, col);
    } else if p in s {
      UnitEntry(F, |a|, p, col);
    }
  }

  lemma SwapKeeps<E(!new)>(F: Field<E>, a: Rows<E>, s: set<nat>, col: nat, p: nat)
    requires Rect(a, |a|) && UnitFrom(F, a, s, col) && col <= p < |a| && (p == col || (col !in s && p !in s))
    ensures Rect(Swap(a, col, p), |a|) && UnitFrom(F, Swap(a, col, p), s, col)
  {
    var t := Swap(a, col, p);
    forall c: nat | c in s && col <= c < |a| ensures t[c] == Unit(F, |a|, c) && Reached(F, t, s, c) {
      assert Reached(F, a, s, c);
      var r: nat :| r < |a| && r !in s && a[r][c] != F.zero;
      var r' := if r == col then p else if r == p then col else r;
      assert t[r'] == a[r];
    }
  }

  // Clearing keeps an entry of a later column when the pivot row has a zero there.
  lemma ClearEntry<E(!new)>(F: Field<E>, a: Rows<E>, col: nat, r: nat, c: nat)
    requires F.Laws() && Rect(a, |a|) && col < |a| && r < |a| && c < |a| && a[col][col] != F.zero
    ensures a[col][c] == F.zero && r != col ==> Clear(F, a, |a|, col)[r][c] == a[r][c]
    ensures a[col][c] != F.zero ==> Clear(F, a, |a|, col)[col][c] != F.zero
    ensures a[r][col] == F.zero && r != col ==> Clear(F, a, |a|, col)[r] == a[r]
  {
    var i := F.inv(a[col][col]);
    var q := Scale(F, a[col], i);
    F.MulInverse(a[col][col]);
    F.NoZeroDivisors(a[col][c], i);
    F.MulZero(i);
    F.MulZero(a[r][col]);
    F.AddZero(a[r][c]);
    if a[r][col] == F.zero { AddNothing(F, a[r], q); }
  }

  lemma ClearReaches<E(!new)>(F: Field<E>, a: Rows<E>, s: set<nat>, col: nat, c: nat)
    requires F.Laws() && Rect(a, |a|) && col < c < |a| && a[col][col] != F.zero && Reached(F, a, s, c)
    requires col in s ==> a[col][c] == F.zero
    ensures Reached(F, Clear(F, a, |a|, col), s, c)
  {
    var r: nat :| r < |a| && r !in s && a[r][c] != F.zero;
    ClearEntry(F, a, col, r, c);
    if a[col][c] != F.zero { assert Clear(F, a, |a|, col)[col][c] != F.zero; }
    else { assert Clear(F, a, |a|, col)[r][c] != F.zero; }
  }

  lemma ClearKeeps<E(!new)>(F: Field<E>, a: Rows<E>, s: set<nat>, col: nat)
    requires F.Laws() && Rect(a, |a|) && col < |a| && a[col][col] != F.zero && UnitFrom(F, a, s, col)
    ensures UnitFrom(F, Clear(F, a, |a|, col), s, col + 1)
  {
    var t := Clear(F, a, |a|, col);
    forall c: nat | c in s && col + 1 <= c < |a| ensures t[c] == Unit(F, |a|, c) && Reached(F, t, s, c) {
      UnitEntry(F, |a|, c, col);
      ClearEntry(F, a, col, c, c);
      if col in s { UnitEntry(F, |a|, col, c); }
      ClearReaches(F, a, s, col, c);
    }
  }

  lemma ShortPivotOverruns<E(!new)>(F: Field<E>, a: Rows<E>, b: Rows<E>, s: set<nat>, w: nat, col: nat)
    requires |a| == |b| && Rect(a, |a|) && col < |a| && col in s && Reached(F, a, s, col)
    requires FullOutside(b, s, w) && |b[col]| < w
    ensures Overruns(F, a, b, col)
  {
    var r: nat :| r < |a| && r !in s && a[r][col] != F.zero;
    assert |b[r]| > |b[col]|;
  }

  lemma SwapLengths<E>(b: Rows<E>, s: set<nat>, w: nat, col: nat, p: nat)
    requires FullOutside(b, s, w) && ShortFrom(b, s, w, col) && col <= p < |b| && (p == col || (col !in s && p !in s))
    ensures FullOutside(Swap(b, col, p), s, w) && ShortFrom(Swap(b, col, p), s, w, col)
  {
    var c: nat :| c in s && col <= c < |b| && |b[c]| < w;
    assert Swap(b, col, p)[c] == b[c];
  }

  lemma LaterShort<E>(b: Rows<E>, c: Rows<E>, s: set<nat>, w: nat, col: nat)
    requires |c| == |b| && (forall r | 0 <= r < |b| :: |c[r]| == |b[r]|)
    requires FullOutside(b, s, w) && ShortFrom(b, s, w, col) && !(col < |b| && col in s && |b[col]| < w)
    ensures FullOutside(c, s, w) && ShortFrom(c, s, w, col + 1)
  {
    var i: nat :| i in s && col <= i < |b| && |b[i]| < w;
    assert |c[i]| < w;
  }

  // What elimination with a short unit row carries from column to column.
  ghost predicate Doomed<E(!new)>(F: Field<E>, a: Rows<E>, b: Rows<E>, s: set<nat>, w: nat, col: nat) {
    && |a| == |b| && Rect(a, |a|) && col <= |a| && UnitFrom(F, a, s, col)
    && FullOutside(b, s, w) && ShortFrom(b, s, w, col) && GaussJordan(F, a, |a|, col).Some?
  }

  lemma DoomedSwap<E(!new)>(F: Field<E>, a: Rows<E>, b: Rows<E>, s: set<nat>, w: nat, col: nat) returns (p: nat)
    requires F.Laws() && Doomed(F, a, b, s, w, col)
    ensures col < |a| && FindPivot(F, a, |a|, col, col) == Some(p) && (p == col || (col !in s && p !in s))
  {
    p := FindPivot(F, a, |a|, col, col).value;
    PivotPlace(F, a, s, col);
  }

  lemma DoomedClear<E(!new)>(F: Field<E>, a: Rows<E>, b: Rows<E>, s: set<nat>, w: nat, col: nat, p: nat)
    requires F.Laws() && Doomed(F, a, b, s, w, col) && col < |a|
    requires FindPivot(F, a, |a|, col, col) == Some(p) && (p == col || (col !in s && p !in s))
    ensures var x, y := Swap(a, col, p), Swap(b, col, p);
      Overruns(F, x, y, col) || Doomed(F, Clear(F, x, |a|, col), ClearRhs(F, x, y, col), s, w, col + 1)
  {
    var x, y := Swap(a, col, p), Swap(b, col, p);
    SwapKeeps(F, a, s, col, p);
    SwapLengths(b, s, w, col, p);
    GaussRound(F, a, |a|, col, p);
    hide GaussJordan;
    if col in s && |y[col]| < w {
      ShortPivotOverruns(F, x, y, s, w, col);
    } else if !Overruns(F, x, y, col) {
      ClearKeeps(F, x, s, col);
      LaterShort(y, ClearRhs(F, x, y, col), s, w, col);
    }
  }

  // A round overruns, or leaves the same prospect for the next column.
  lemma DoomedRound<E(!new)>(F: Field<E>, a: Rows<E>, b: Rows<E>, s: set<nat>, w: nat, col: nat)
    returns (c: Rows<E>, d: Rows<E>)
    requires F.Laws() && Doomed(F, a, b, s, w, col)
    ensures Eliminate(F, a, b, col) == Overrun || (
      && |c| == |a| && col < |a| && Doomed(F, c, d, s, w, col + 1)
      && Eliminate(F, a, b, col) == Eliminate(F, c, d, col + 1))
  {
    hide Eliminate, GaussJordan;
    var p := DoomedSwap(F, a, b, s, w, col);
    var x, y := Swap(a, col, p), Swap(b, col, p);
    c, d := a, b;
    DoomedClear(F, a, b, s, w, col, p);
    EliminateRound(F, a, b, col, p);
    if !Overruns(F, x, y, col) { c, d := Clear(F, x, |a|, col), ClearRhs(F, x, y, col); }
  }

  lemma {:induction false} DoomedFrom<E(!new)>(F: Field<E>, a: Rows<E>, b: Rows<E>, s: set<nat>, w: nat, col: nat,
          e: Reduction<E>)
    requires F.Laws() && Doomed(F, a, b, s, w, col) && e == Eliminate(F, a, b, col)
    ensures e == Overrun
    decreases |a| - col
  {
    hide Eliminate;
    var c, d := DoomedRound(F, a, b, s, w, col);
    if e != Overrun { DoomedFrom(F, c, d, s, w, col + 1, e); }
  }

  // One short unit row is enough: the column of that row overruns the full rows that reach it.
  lemma ShortOverruns<E(!new)>(F: Field<E>, a: Rows<E>, b: Rows<E>, s: set<nat>, w: nat)
    requires F.Laws() && Doomed(F, a, b, s, w, 0)
    ensures Eliminate(F, a, b, 0) == Overrun
  {
    DoomedFrom(F, a, b, s, w, 0, Eliminate(F, a, b, 0));
  }
}
