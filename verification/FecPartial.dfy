// A group flushed before it was full: envelopes carry the configured k, repair symbols the number of sources.
module FecPartial {
  import opened Options
  import opened GaloisField
  import opened LinearAlgebra
  import opened LinearSystems
  import opened Cauchy
  import opened FecCode
  import opened FecDecoder

  // The k a symbol of the flushed group c carries when the encoder was configured with k.
  function Announced(c: Coded, k: nat, sym: Symbol): nat { if sym.Source? then k else c.k }

  // The same symbols read as a group of k: the sources that were never sent are empty.
  ghost function Widened(c: Coded, k: nat): Coded
    requires c.k <= k
  {
    Coded(k, c.r, c.w, c.payloads + seq(k - c.k, _ => []))
  }

  ghost predicate Flushed(c: Coded, k: nat) { c.Valid() && c.k <= k < 256 && k + c.r <= 256 }

  lemma WidenedValid(c: Coded, k: nat)
    requires Flushed(c, k)
    ensures Widened(c, k).Valid()
    ensures Widened(c, k).Padded()[..c.k] == c.Padded()
    ensures forall i: nat | c.k <= i < k :: Widened(c, k).Padded()[i] == Zero(c.w)
  {
    var d := Widened(c, k);
    forall i | 0 <= i < k ensures |d.payloads[i]| <= c.w {
      if i < c.k { assert d.payloads[i] == c.payloads[i]; }
    }
    forall i | 0 <= i < c.k ensures d.Padded()[i] == c.Padded()[i] { assert d.payloads[i] == c.payloads[i]; }
  }

  function Zero(w: nat): seq<bv8> { seq(w, _ => 0) }

  // A row that is zero adds nothing to a dot product.
  lemma {:induction false} DotTail(u: seq<bv8>, v: seq<bv8>, n: nat)
    requires n <= |u| == |v| && forall i | n <= i < |v| :: v[i] == 0
    ensures Dot(GF(), u, v) == Dot(GF(), u[..n], v[..n])
  {
    if |u| == n {
      assert u[..n] == u && v[..n] == v;
    } else {
      var m := |u| - 1;
      DotTail(u[..m], v[..m], n);
      assert u[..m][..n] == u[..n] && v[..m][..n] == v[..n];
      FieldLaws();
      GF().MulZero(u[m]);
      GF().AddZero(Dot(GF(), u[..m], v[..m]));
    }
  }

  lemma WidenedRepair(c: Coded, k: nat, i: nat)
    requires Flushed(c, k)
    ensures Widened(c, k).Valid()
    ensures RepairSymbol(Widened(c, k).Padded(), c.w, i, c.r) == RepairSymbol(c.Padded(), c.w, i, c.r)
  {
    WidenedValid(c, k);
    var P, Q := c.Padded(), Widened(c, k).Padded();
    var u, v := CauchyRow(GF(), Point(i), Columns(c.k, c.r)), CauchyRow(GF(), Point(i), Columns(k, c.r));
    assert v[..c.k] == u;
    forall t | 0 <= t < c.w ensures RepairSymbol(Q, c.w, i, c.r)[t] == RepairSymbol(P, c.w, i, c.r)[t] {
      var x, y := Column(P, c.w, t), Column(Q, c.w, t);
      forall j | 0 <= j < c.k ensures y[j] == x[j] { assert Q[..c.k][j] == Q[j]; }
      assert y[..c.k] == x;
      DotTail(v, y, c.k);
    }
  }

  // Every symbol of the flushed group is a symbol of the widened one.
  lemma WidenedSends(c: Coded, k: nat, sym: Symbol)
    requires Flushed(c, k) && c.Sends(sym)
    ensures Widened(c, k).Valid() && Widened(c, k).Sends(sym)
  {
    WidenedValid(c, k);
    if sym.Source? {
      assert Widened(c, k).payloads[sym.idx] == c.payloads[sym.idx];
    } else {
      WidenedRepair(c, k, sym.idx);
    }
  }

  // The first arrival fixes the k of the group: the flushed group itself, or the widened one.
  ghost function Seen(c: Coded, k: nat, first: Symbol): Coded
    requires c.k <= k
  {
    if first.Source? then Widened(c, k) else c
  }

  lemma SeenDelivers(c: Coded, k: nat, a: seq<Symbol>, first: Symbol)
    requires Flushed(c, k) && c.Delivers(a)
    ensures Seen(c, k, first).Valid() && Seen(c, k, first).Delivers(a)
  {
    WidenedValid(c, k);
    forall n | 0 <= n < |a| ensures Seen(c, k, first).Sends(a[n]) { WidenedSends(c, k, a[n]); }
  }

  // The group after the arrivals a, each carrying the k it was sent with.
  ghost function AfterFlushed(c: Coded, k: nat, a: seq<Symbol>): (st: Option<Group>)
    requires Flushed(c, k) && c.Delivers(a)
    ensures a != [] ==> st.Some? && Seen(c, k, a[0]).Valid() && Tracks(st, Seen(c, k, a[0]), a)
    ensures a == [] ==> st.None?
  {
    if |a| == 0 then None
    else
      var n := |a| - 1;
      assert a == a[..n] + [a[n]];
      var st := AfterFlushed(c, k, a[..n]);
      StepFlushed(c, k, a[..n], a[n], st);
      Some(AfterRecovery(Insert(st, Announced(c, k, a[n]), c.r, a[n])))
  }

  lemma StepFlushed(c: Coded, k: nat, a: seq<Symbol>, sym: Symbol, st: Option<Group>)
    requires Flushed(c, k) && c.Delivers(a) && c.Sends(sym)
    requires a != [] ==> Seen(c, k, a[0]).Valid() && Tracks(st, Seen(c, k, a[0]), a)
    requires a == [] ==> st.None?
    ensures var d, g := Seen(c, k, (a + [sym])[0]), Insert(st, Announced(c, k, sym), c.r, sym);
      d.Valid() && g.Valid() && Tracks(Some(AfterRecovery(g)), d, a + [sym]) && Recovery(g) == Expected(d, a, sym)
  {
    hide Recovery, Expected, AfterRecovery;
    var d := Seen(c, k, (a + [sym])[0]);
    SeenDelivers(c, k, a + [sym], (a + [sym])[0]);
    assert (a + [sym])[|a|] == sym;
    assert d.Delivers(a) by { forall n | 0 <= n < |a| ensures d.Sends(a[n]) { assert (a + [sym])[n] == a[n]; } }
    if a != [] { assert (a + [sym])[0] == a[0]; } else { assert Tracks(st, d, a); }
    assert Insert(st, Announced(c, k, sym), c.r, sym) == Insert(st, d.k, d.r, sym);
    InsertTracks(st, d, a, sym);
    InsertReturns(st, d, a, sym);
  }

  // Every run of a flushed group of a < k sources behaves as the first arrival decides. After a repair symbol any
  // a distinct symbols rebuild it. After a source k distinct symbols are needed, and the sources that were never
  // sent are returned as rows of zeros (WidenedValid).
  lemma FlushedRuns(c: Coded, k: nat, a: seq<Symbol>, sym: Symbol)
    requires Flushed(c, k) && c.Delivers(a) && c.Sends(sym)
    ensures var d, g := Seen(c, k, (a + [sym])[0]), Insert(AfterFlushed(c, k, a), Announced(c, k, sym), c.r, sym);
      d.Valid() && g.Valid() && Recovery(g) == Expected(d, a, sym)
  {
    StepFlushed(c, k, a, sym, AfterFlushed(c, k, a));
  }

  // Repair symbol first: the sources come back at the c.k-th distinct symbol, whatever the order after it.
  lemma RepairFirst(c: Coded, k: nat, a: seq<Symbol>, sym: Symbol)
    requires Flushed(c, k) && c.Delivers(a) && c.Sends(sym) && (a + [sym])[0].Repair?
    ensures Expected(Seen(c, k, (a + [sym])[0]), a, sym) == Return(
      if DistinctCount(a) < c.k <= DistinctCount(a + [sym])
      then Some(PickRows(Missing(SourceIdx(a + [sym]), c.k), c.Padded())) else None)
  {
    if a != [] { assert (a + [sym])[0] == a[0] && c.Sends(a[0]); }
    FullFirstRecovers(c, a, sym);
  }

  // Source first: all c.k sources and fewer than k - c.k repair symbols give nothing at all.
  lemma SourceFirstStarves(c: Coded, k: nat, a: seq<Symbol>, sym: Symbol)
    requires Flushed(c, k) && c.Delivers(a) && c.Sends(sym) && (a + [sym])[0].Source?
    ensures Seen(c, k, (a + [sym])[0]).Valid()
    ensures DistinctCount(a + [sym]) < k ==> Expected(Seen(c, k, (a + [sym])[0]), a, sym) == Return(None)
    ensures c.k + c.r < k ==> DistinctCount(a + [sym]) < k
  {
    WidenedValid(c, k);
    var b := a + [sym];
    assert c.Delivers(b);
    IdxBounds(c, b);
  }

  lemma IdxBounds(c: Coded, a: seq<Symbol>)
    requires c.Valid() && c.Delivers(a)
    ensures DistinctCount(a) <= c.k + c.r
  {
    forall n | 0 <= n < |a| ensures a[n].idx < if a[n].Source? then c.k else c.r { assert c.Sends(a[n]); }
    UpTo(SourceIdx(a), c.k);
    UpTo(RepairIdx(a), c.r);
  }

  lemma {:induction false} UpTo(s: set<nat>, n: nat)
    requires forall x | x in s :: x < n
    ensures |s| <= n
  {
    if n == 0 {
      assert s == {};
    } else {
      UpTo(s - {n - 1}, n - 1);
    }
  }
}
