// The elimination loops of the codec and of matrix inversion, in place on rows.
module GaussInPlace {
  import opened Options
  import opened GaloisField
  import opened LinearAlgebra
  import opened Elimination
  import opened LinearSystems
  import opened Ragged
  import opened Vectors

  // for v in row { *v = mul(*v, c) }
  method ScaleRow(t: Tables, row: seq<bv8>, c: bv8) returns (out: seq<bv8>)
    requires t.Correct()
    ensures out == Scale(GF(), row, c)
  {
    out := [];
    for i := 0 to |row|
      invariant |out| == i
      invariant forall j | 0 <= j < i :: out[j] == Mul(row[j], c)
    {
      out := out + [t.Multiply(row[i], c)];
    }
  }

  // for (dst, src) { *dst ^= mul(c, src) }
  method AddScaledRow(t: Tables, dst: seq<bv8>, src: seq<bv8>, c: bv8) returns (out: seq<bv8>)
    requires t.Correct() && |dst| == |src|
    ensures out == AddScaled(GF(), dst, src, c)
  {
    out := [];
    for i := 0 to |dst|
      invariant |out| == i
      invariant forall j | 0 <= j < i :: out[j] == dst[j] ^ Mul(c, src[j])
    {
      out := out + [dst[i] ^ t.Multiply(c, src[i])];
    }
  }

  // The slice kernel applied to a row held as a value.
  method MulAddRow(t: Tables, dst: seq<bv8>, src: seq<bv8>, c: bv8) returns (out: seq<bv8>)
    requires t.Correct() && |dst| == |src|
    ensures out == AddScaled(GF(), dst, src, c)
  {
    var buf := new bv8[|dst|](i requires 0 <= i < |dst| => dst[i]);
    assert buf[..] == dst;
    MulAddSlice(t, buf, src, c);
    out := buf[..];
  }

  lemma AddScaledZero(u: seq<bv8>, v: seq<bv8>)
    requires |u| == |v|
    ensures AddScaled(GF(), u, v, 0) == u
  {}

  method FindPivotRow(mat: array<seq<bv8>>, k: nat, w: nat, col: nat) returns (p: nat)
    requires mat.Length == k && Rect(mat[..], w) && col < w && col <= k
    ensures col <= p <= k
    ensures FindPivot(GF(), mat[..], w, col, col) == if p < k then Some(p) else None
  {
    p := col;
    while p < k && mat[p][col] == 0
      invariant col <= p <= k
      invariant FindPivot(GF(), mat[..], w, col, col) == FindPivot(GF(), mat[..], w, col, p)
    {
      p := p + 1;
    }
  }

  // Row i of a block after its column has been cleared with the factor found in `lead`.
  ghost function ClearedRow(lead: Rows<bv8>, m: Rows<bv8>, pivotRow: seq<bv8>, col: nat, i: nat): seq<bv8>
    requires |lead| == |m| && i < |m| && col < |lead[i]| && |m[i]| == |pivotRow|
  {
    if i == col then pivotRow else AddScaled(GF(), m[i], pivotRow, lead[i][col])
  }

  // Rows below n are done, the pivot row is in place, the others are untouched.
  ghost predicate ClearedBelow(now: Rows<bv8>, lead: Rows<bv8>, m: Rows<bv8>, w: nat, pivotRow: seq<bv8>, col: nat,
          n: nat)
    requires |lead| == |m| && Rect(m, w) && |pivotRow| == w && col < |m|
    requires forall i | 0 <= i < |lead| :: col < |lead[i]|
  {
    && |now| == |m|
    && (forall i | 0 <= i < |m| ::
      now[i] == if i < n || i == col then ClearedRow(lead, m, pivotRow, col, i) else m[i])
  }

  lemma ClearedStep(now: Rows<bv8>, lead: Rows<bv8>, m: Rows<bv8>, w: nat, pivotRow: seq<bv8>, col: nat, n: nat)
    requires |lead| == |m| && Rect(m, w) && |pivotRow| == w && col < |m|
    requires forall i | 0 <= i < |lead| :: col < |lead[i]|
    requires n < |m| && n != col && ClearedBelow(now, lead, m, w, pivotRow, col, n)
    ensures now[n] == m[n] && now[col] == pivotRow
    ensures ClearedBelow(now[n := ClearedRow(lead, m, pivotRow, col, n)], lead, m, w, pivotRow, col, n + 1)
  {}

  // Right-hand rows below n are done, the pivot row is in place, the others are untouched.
  ghost predicate RhsBelow(now: Rows<bv8>, a: Rows<bv8>, b: Rows<bv8>, q: seq<bv8>, col: nat, n: nat)
    requires |a| == |b| && Rect(a, |a|) && col < |a|
  {
    && |now| == |b| && n <= |b| && (forall i | 0 <= i < n && i != col :: a[i][col] != 0 ==> |b[i]| <= |q|)
    && (forall i | 0 <= i < |b| :: now[i] == if i < n || i == col then ClearedRhs(GF(), a, b, q, col, i) else b[i])
  }

  lemma RhsStep(now: Rows<bv8>, a: Rows<bv8>, b: Rows<bv8>, q: seq<bv8>, col: nat, n: nat)
    requires |a| == |b| && Rect(a, |a|) && col < |a| && n < |a| && RhsBelow(now, a, b, q, col, n)
    ensures now[col] == q && (n != col ==> now[n] == b[n])
    ensures n == col ==> RhsBelow(now, a, b, q, col, n + 1)
    ensures n != col && (a[n][col] == 0 || |b[n]| <= |q|) ==>
      RhsBelow(now[n := ClearedRhs(GF(), a, b, q, col, n)], a, b, q, col, n + 1)
  {}

  // Eliminate the pivot column from row r; false when the kernel would index past the pivot row.
  method ClearRow(t: Tables, mat: array<seq<bv8>>, rhs: array<seq<bv8>>, k: nat, col: nat, r: nat,
                  ghost a: Rows<bv8>, ghost b: Rows<bv8>, ghost p: seq<bv8>, ghost q: seq<bv8>) returns (ok: bool)
    requires t.Correct() && mat != rhs && mat.Length == rhs.Length == k && col < k && r < k && r != col
    requires |a| == |b| == k && Rect(a, k) && |p| == k
    requires ClearedBelow(mat[..], a, a, k, p, col, r)
    requires RhsBelow(rhs[..], a, b, q, col, r)
    modifies mat, rhs
    ensures ok <==> a[r][col] == 0 || |b[r]| <= |q|
    ensures ok ==> ClearedBelow(mat[..], a, a, k, p, col, r + 1)
    ensures ok ==> RhsBelow(rhs[..], a, b, q, col, r + 1)
  {
    ghost var m, n := mat[..], rhs[..];
    ClearedStep(m, a, a, k, p, col, r);
    RhsStep(n, a, b, q, col, r);
    var factor := mat[r][col];
    if factor == 0 {
      AddScaledZero(a[r], p);
      assert m == m[r := a[r]] && n == n[r := b[r]];
      return true;
    }
    var newRow := AddScaledRow(t, mat[r], mat[col], factor);
    mat[r] := newRow;
    assert mat[..] == m[r := newRow];
    if |rhs[r]| > |rhs[col]| {
      return false;
    }
    var newRhs := MulAddRow(t, rhs[r], rhs[col][..|rhs[r]|], factor);
    rhs[r] := newRhs;
    assert rhs[..] == n[r := newRhs];
    return true;
  }

  lemma RhsDone(now: Rows<bv8>, a: Rows<bv8>, b: Rows<bv8>, col: nat)
    requires |a| == |b| && Rect(a, |a|) && col < |a| && a[col][col] != 0
    requires RhsBelow(now, a, b, Scale(GF(), b[col], Inverse(a[col][col])), col, |a|)
    ensures !Overruns(GF(), a, b, col) && now == ClearRhs(GF(), a, b, col)
  {}

  // Clear one column; false when some row is longer than the pivot row added to it.
  method ClearColumn(t: Tables, mat: array<seq<bv8>>, rhs: array<seq<bv8>>, k: nat, col: nat) returns (ok: bool)
    requires t.Correct() && mat != rhs && mat.Length == rhs.Length == k && col < k
    requires Rect(mat[..], k) && mat[col][col] != 0
    modifies mat, rhs
    ensures ok <==> !old(Overruns(GF(), mat[..], rhs[..], col))
    ensures ok ==>
      mat[..] == Clear(GF(), old(mat[..]), k, col) && rhs[..] == ClearRhs(GF(), old(mat[..]), old(rhs[..]), col)
  {
    ghost var a, b := mat[..], rhs[..];
    var pivInv := t.Invert(mat[col][col]).value;
    var p := ScaleRow(t, mat[col], pivInv);
    mat[col] := p;
    var q := ScaleRow(t, rhs[col], pivInv);
    rhs[col] := q;
    for r := 0 to k
      invariant ClearedBelow(mat[..], a, a, k, p, col, r)
      invariant RhsBelow(rhs[..], a, b, q, col, r)
    {
      if r == col {
        RhsStep(rhs[..], a, b, q, col, r);
      } else {
        var went := ClearRow(t, mat, rhs, k, col, r, a, b, p, q);
        if !went {
          return false;
        }
      }
    }
    ClearOneBlock(mat[..], a, k, col);
    RhsDone(rhs[..], a, b, col);
    return true;
  }

  datatype Ending = Solved | Unsolvable | OutOfRange

  // One round: bring a pivot to the diagonal and clear its column.
  method PivotRound(t: Tables, mat: array<seq<bv8>>, rhs: array<seq<bv8>>, k: nat, col: nat) returns (v: Ending)
    requires t.Correct() && mat != rhs && mat.Length == rhs.Length == k && col < k && Rect(mat[..], k)
    modifies mat, rhs
    ensures v == Solved ==> Rect(mat[..], k)
    ensures old(Eliminate(GF(), mat[..], rhs[..], col)) ==
      match v
      case Solved => Eliminate(GF(), mat[..], rhs[..], col + 1)
      case Unsolvable => Singular
      case OutOfRange => Overrun
  {
    ghost var a, b := mat[..], rhs[..];
    var pivot := FindPivotRow(mat, k, k, col);
    if pivot == k {
      return Unsolvable;
    }
    EliminateRound(GF(), a, b, col, pivot);
    mat[col], mat[pivot] := mat[pivot], mat[col];
    rhs[col], rhs[pivot] := rhs[pivot], rhs[col];
    assert mat[..] == Swap(a, col, pivot) && rhs[..] == Swap(b, col, pivot);
    var cleared := ClearColumn(t, mat, rhs, k, col);
    return if cleared then Solved else OutOfRange;
  }

  // The elimination loop, on right-hand rows of any lengths.
  method GaussRhs(t: Tables, mat: array<seq<bv8>>, rhs: array<seq<bv8>>, k: nat) returns (v: Ending)
    requires t.Correct() && mat != rhs && mat.Length == rhs.Length == k && Rect(mat[..], k)
    modifies mat, rhs
    ensures old(Eliminate(GF(), mat[..], rhs[..], 0)) ==
      match v
      case Solved => Reduced(mat[..], rhs[..])
      case Unsolvable => Singular
      case OutOfRange => Overrun
  {
    hide Eliminate;
    ghost var goal := Eliminate(GF(), mat[..], rhs[..], 0);
    for col := 0 to k
      invariant Rect(mat[..], k)
      invariant Eliminate(GF(), mat[..], rhs[..], col) == goal
    {
      v := PivotRound(t, mat, rhs, k, col);
      if v != Solved {
        return;
      }
    }
    EliminateEnd(GF(), mat[..], rhs[..]);
    return Solved;
  }

  ghost function Identity(k: nat): (m: Rows<bv8>)
    ensures |m| == k && Rect(m, k)
  {
    seq(k, i requires 0 <= i < k => Unit(GF(), k, i))
  }

  lemma ClearOneBlock(now: Rows<bv8>, m: Rows<bv8>, w: nat, col: nat)
    requires Rect(m, w) && col < |m| && col < w && m[col][col] != 0
    requires ClearedBelow(now, m, m, w, Scale(GF(), m[col], Inverse(m[col][col])), col, |m|)
    ensures now == Clear(GF(), m, w, col)
  {}

  // One round of the elimination loop of invert_matrix.
  method EliminateColumn(t: Tables, aug: array<seq<bv8>>, k: nat, w: nat, col: nat)
    requires t.Correct() && aug.Length == k && col < k <= w && Rect(aug[..], w) && aug[col][col] != 0
    modifies aug
    ensures aug[..] == Clear(GF(), old(aug[..]), w, col)
  {
    ghost var m := aug[..];
    var pivotInv := t.Invert(aug[col][col]).value;
    var p := ScaleRow(t, aug[col], pivotInv);
    aug[col] := p;
    for r := 0 to k
      invariant ClearedBelow(aug[..], m, m, w, p, col, r)
    {
      if r != col {
        ghost var n := aug[..];
        ClearedStep(n, m, m, w, p, col, r);
        var factor := aug[r][col];
        if factor == 0 {
          AddScaledZero(m[r], p);
          assert n == n[r := m[r]];
        } else {
          var newRow := AddScaledRow(t, aug[r], aug[col], factor);
          aug[r] := newRow;
          assert aug[..] == n[r := newRow];
        }
      }
    }
    ClearOneBlock(aug[..], m, w, col);
  }

  method EliminateAll(t: Tables, aug: array<seq<bv8>>, k: nat, w: nat) returns (ok: bool)
    requires t.Correct() && aug.Length == k <= w && Rect(aug[..], w)
    modifies aug
    ensures ok <==> old(GaussJordan(GF(), aug[..], w, 0)).Some?
    ensures ok ==> aug[..] == old(GaussJordan(GF(), aug[..], w, 0)).value
  {
    ghost var goal := GaussJordan(GF(), aug[..], w, 0);
    for col := 0 to k
      invariant Rect(aug[..], w)
      invariant GaussJordan(GF(), aug[..], w, col) == goal
    {
      var pivot := FindPivotRow(aug, k, w, col);
      if pivot == k {
        return false;
      }
      ghost var m := aug[..];
      aug[col], aug[pivot] := aug[pivot], aug[col];
      assert aug[..] == Swap(m, col, pivot);
      EliminateColumn(t, aug, k, w, col);
    }
    return true;
  }

  method WithIdentity(mat: array<seq<bv8>>, k: nat) returns (aug: array<seq<bv8>>)
    requires mat.Length == k && Rect(mat[..], k)
    ensures fresh(aug) && aug.Length == k
    ensures aug[..] == Augment(mat[..], Identity(k), k, k)
  {
    aug := new seq<bv8>[k](_ => []);
    for i := 0 to k
      invariant forall j | 0 <= j < i :: aug[j] == mat[j] + Identity(k)[j]
    {
      aug[i] := mat[i] + seq(k, _ => 0)[i := 1];
    }
  }

  method CopyRightBlock(aug: array<seq<bv8>>, mat: array<seq<bv8>>, k: nat)
    requires mat != aug && aug.Length == mat.Length == k && Rect(aug[..], k + k)
    modifies mat
    ensures mat[..] == RightBlock(aug[..], k, k)
  {
    for i := 0 to k
      invariant forall j | 0 <= j < i :: mat[j] == aug[j][k..]
    {
      mat[i] := aug[i][k..];
    }
  }

  method InvertMatrix(t: Tables, mat: array<seq<bv8>>, k: nat) returns (ok: bool)
    requires t.Correct() && mat.Length == k && Rect(mat[..], k)
    modifies mat
    ensures Rect(mat[..], k)
    ensures ok <==> old(Solve(GF(), mat[..], Identity(k), k)).Some?
    ensures ok ==> mat[..] == RightBlock(old(Solve(GF(), mat[..], Identity(k), k)).value, k, k)
    ensures !ok ==> mat[..] == old(mat[..])
  {
    hide GaussJordan;
    ghost var goal := Solve(GF(), mat[..], Identity(k), k);
    var aug := WithIdentity(mat, k);
    ok := EliminateAll(t, aug, k, k + k);
    assert ok <==> goal.Some?;
    if ok {
      CopyRightBlock(aug, mat, k);
    }
  }

  // v has a one in column j exactly in row i == j of a product: the two products of an inverse pair.
  ghost predicate IsProductIdentity(a: Rows<bv8>, b: Rows<bv8>, k: nat)
    requires |a| == |b| == k && Rect(a, k) && Rect(b, k)
  {
    forall i, t | 0 <= i < k && 0 <= t < k :: Dot(GF(), a[i], Column(b, k, t)) == if i == t then 1 else 0
  }

  lemma InverseOnTheRight(a: Rows<bv8>, k: nat)
    requires |a| == k && Rect(a, k) && Solve(GF(), a, Identity(k), k).Some?
    ensures IsProductIdentity(a, RightBlock(Solve(GF(), a, Identity(k), k).value, k, k), k)
  {
    FieldLaws();
    var X := RightBlock(Solve(GF(), a, Identity(k), k).value, k, k);
    SolveUnique(GF(), a, Identity(k), k, X);
  }

  // a * y, as a vector.
  ghost function Apply(a: Rows<bv8>, y: seq<bv8>): (z: seq<bv8>)
    requires Rect(a, |y|)
    ensures |z| == |a|
  {
    seq(|a|, i requires 0 <= i < |a| => Dot(GF(), a[i], y))
  }

  lemma GraphIsAnnihilated(a: Rows<bv8>, k: nat, y: seq<bv8>)
    requires |a| == k == |y| && Rect(a, k)
    ensures Annihilates(GF(), Augment(a, Identity(k), k, k), y + Apply(a, y))
  {
    FieldLaws();
    var z := Apply(a, y);
    forall i | 0 <= i < k ensures Dot(GF(), Augment(a, Identity(k), k, k)[i], y + z) == 0 {
      DotConcat(GF(), a[i], Identity(k)[i], y, z);
      DotSingle(GF(), Identity(k)[i], z, i);
      GF().MulOne(z[i]);
      GF().AddCancels(z[i], z[i]);
    }
  }

  lemma InverseUndoes(a: Rows<bv8>, k: nat, y: seq<bv8>, i: nat)
    requires |a| == k == |y| && Rect(a, k) && i < k && Solve(GF(), a, Identity(k), k).Some?
    ensures Dot(GF(), RightBlock(Solve(GF(), a, Identity(k), k).value, k, k)[i], Apply(a, y)) == y[i]
  {
    FieldLaws();
    var r := Solve(GF(), a, Identity(k), k).value;
    var z := Apply(a, y);
    GraphIsAnnihilated(a, k, y);
    SolveFacts(GF(), a, Identity(k), k, y + z);
    DotReduced(GF(), r, i, y, z);
    GF().AddCancels(y[i], Dot(GF(), r[i][k..], z));
  }

  lemma InverseOnTheLeft(a: Rows<bv8>, k: nat)
    requires |a| == k && Rect(a, k) && Solve(GF(), a, Identity(k), k).Some?
    ensures IsProductIdentity(RightBlock(Solve(GF(), a, Identity(k), k).value, k, k), a, k)
  {
    FieldLaws();
    var X := RightBlock(Solve(GF(), a, Identity(k), k).value, k, k);
    forall i, t | 0 <= i < k && 0 <= t < k ensures Dot(GF(), X[i], Column(a, k, t)) == if i == t then 1 else 0 {
      var e := Unit(GF(), k, t);
      InverseUndoes(a, k, e, i);
      forall j | 0 <= j < k ensures Apply(a, e)[j] == Column(a, k, t)[j] {
        DotSingle(GF(), a[j], e, t);
        GF().MulOne(a[j][t]);
      }
      assert Apply(a, e) == Column(a, k, t);
    }
  }
}
