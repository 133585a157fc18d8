// The incremental decoder: group state, recovery, and every run of arrivals.
module FecDecoder {
  import opened Options
  import opened GaloisField
  import opened LinearAlgebra
  import opened Elimination
  import opened LinearSystems
  import opened Cauchy
  import opened FecCode
  import opened Ragged

  datatype Group = Group(
    k: nat, r: nat, paddedLen: nat,
    sources: map<nat, seq<bv8>>, repairs: map<nat, seq<bv8>>,
    recovered: bool)
  {
    // Indices and counts are bytes. Stored symbols may have different lengths.
    ghost predicate Valid() {
      k < 256 && r < 256 && (forall i | i in sources :: i < 256) && (forall i | i in repairs :: i < 256)
    }
  }

  type Recovered = seq<(nat, seq<bv8>)>

  // The repair indices used: the smallest ones, one for each missing source.
  function Chosen(g: Group): (c: seq<nat>)
  {
    var avail := Ascending(g.repairs.Keys, 256);
    var n := |Missing(g.sources.Keys, g.k)|;
    if n <= |avail| then avail[..n] else avail
  }

  // One row of the received right-hand side.
  ghost function RhsRow(g: Group, c: nat): (s: seq<bv8>)
    requires g.Valid() && c < g.k && |Chosen(g)| == |Missing(g.sources.Keys, g.k)|
  {
    MissingPosition(g.sources.Keys, c, g.k);
    ChosenStored(g);
    if c in g.sources then g.sources[c] else g.repairs[Chosen(g)[|Missing(g.sources.Keys, c)|]]
  }

  lemma ChosenStored(g: Group)
    requires g.Valid()
    ensures forall i | 0 <= i < |Chosen(g)| :: Chosen(g)[i] in g.repairs && Chosen(g)[i] < 256
    ensures forall i, j | 0 <= i < j < |Chosen(g)| :: Chosen(g)[i] < Chosen(g)[j]
  {
    AscendingFacts(g.repairs.Keys, 256);
  }

  ghost function Rhs(g: Group): (b: Rows<bv8>)
    requires g.Valid() && |Chosen(g)| == |Missing(g.sources.Keys, g.k)|
    ensures |b| == g.k
  {
    seq(g.k, c requires 0 <= c < g.k => RhsRow(g, c))
  }

  ghost function Matrix(g: Group): (m: Rows<bv8>)
    requires |Chosen(g)| == |Missing(g.sources.Keys, g.k)|
    ensures |m| == g.k && Rect(m, g.k)
  {
    DecodeMatrix(GF(), g.sources.Keys, Points(Chosen(g)), Columns(g.k, g.r))
  }

  // Some chosen repair row has a zero denominator.
  ghost predicate Degenerate(g: Group) {
    exists i, j: nat | 0 <= i < |Chosen(g)| && j < g.k :: ZeroDenominator(Chosen(g)[i], j, g.r)
  }

  // What try_recover does: return, or index past the end of a shorter row.
  datatype Attempt = Crash | Return(value: Option<Recovered>)

  // Build the matrix, eliminate, and read off the missing rows.
  ghost function RecoverBySolving(g: Group): Attempt
    requires g.Valid() && |Chosen(g)| == |Missing(g.sources.Keys, g.k)|
  {
    if Degenerate(g) then Return(None)
    else
      match Eliminate(GF(), Matrix(g), Rhs(g), 0)
      case Overrun => Crash
      case Singular => Return(None)
      case Reduced(_, b) => Return(Some(PickRows(Missing(g.sources.Keys, g.k), b)))
  }

  // The early exits of try_recover; counts are taken modulo 256 like the u8 casts.
  datatype Verdict = Wait | Complete | Reconstruct

  function Decide(recovered: bool, sources: nat, repairs: nat, k: nat, missing: nat): Verdict
  {
    var haveSrc, haveRep := sources % 256, repairs % 256;
    if recovered then Wait
    else if haveSrc == k then Complete
    else if (haveSrc + haveRep) % 256 < k then Wait
    else if haveRep < missing then Wait
    else Reconstruct
  }

  lemma DecideHonest(recovered: bool, sources: nat, repairs: nat, k: nat, r: nat)
    requires k < 256 && r < 256 && k + r <= 256 && sources <= k && repairs <= r
    ensures Decide(recovered, sources, repairs, k, k - sources) ==
      if recovered || sources + repairs < k then Wait else if sources == k then Complete else Reconstruct
  {
    assert repairs % 256 == repairs && sources % 256 == sources;
    if sources < k { assert (sources + repairs) % 256 == sources + repairs; }
  }

  ghost function Recovery(g: Group): Attempt
    requires g.Valid()
  {
    match Decide(g.recovered, |g.sources|, |g.repairs|, g.k, |Missing(g.sources.Keys, g.k)|)
    case Wait => Return(None)
    case Complete => Return(Some([]))
    case Reconstruct => ChosenCount(g); RecoverBySolving(g)
  }

  // The listed rows with their indices.
  ghost function PickRows(at: seq<nat>, P: Rows<bv8>): Recovered
    requires forall i | 0 <= i < |at| :: at[i] < |P|
  {
    seq(|at|, i requires 0 <= i < |at| => (at[i], P[at[i]]))
  }

  lemma ChosenCount(g: Group)
    requires g.Valid() && |g.repairs| % 256 >= |Missing(g.sources.Keys, g.k)|
    ensures |Chosen(g)| == |Missing(g.sources.Keys, g.k)|
  {
    AscendingFacts(g.repairs.Keys, 256);
    assert Below(g.repairs.Keys, 256) == g.repairs.Keys;
  }

  predicate Succeeds(t: Attempt) { t.Return? && t.value.Some? }

  ghost function AfterRecovery(g: Group): Group
    requires g.Valid()
  {
    if Succeeds(Recovery(g)) then g.(recovered := true) else g
  }

  // Every stored symbol is one the encoder produced for the sources P of length w, a source perhaps cut short.
  ghost predicate Honest(g: Group, P: Rows<bv8>, w: nat) {
    && g.Valid() && 1 <= g.k && g.k + g.r <= 256
    && |P| == g.k && Rect(P, w)
    && (forall i | i in g.sources :: i < g.k && g.sources[i] <= P[i])
    && (forall i | i in g.repairs :: i < g.r && g.repairs[i] == RepairSymbol(P, w, i, g.r))
  }

  ghost predicate Full(g: Group, w: nat) { forall i | i in g.sources :: |g.sources[i]| == w }

  lemma RepairRowHolds(P: Rows<bv8>, w: nat, i: nat, r: nat, t: nat)
    requires Rect(P, w) && t < w
    ensures Dot(GF(), CauchyRow(GF(), Point(i), Columns(|P|, r)), Column(P, w, t)) == RepairSymbol(P, w, i, r)[t]
  {}

  lemma UnitRowHolds(P: Rows<bv8>, w: nat, c: nat, t: nat)
    requires Rect(P, w) && t < w && c < |P|
    ensures Dot(GF(), Unit(GF(), |P|, c), Column(P, w, t)) == P[c][t]
  {
    FieldLaws();
    DotSingle(GF(), Unit(GF(), |P|, c), Column(P, w, t), c);
    GF().MulOne(P[c][t]);
  }

  ghost predicate Ready(g: Group) { |Chosen(g)| == |Missing(g.sources.Keys, g.k)| }

  lemma RhsLength(g: Group, P: Rows<bv8>, w: nat, c: nat)
    requires Honest(g, P, w) && Ready(g) && c < g.k
    ensures c !in g.sources ==> |Rhs(g)[c]| == w
    ensures c in g.sources ==> Rhs(g)[c] == g.sources[c] && |Rhs(g)[c]| <= w
  {
    if c !in g.sources {
      MissingPosition(g.sources.Keys, c, g.k);
      ChosenStored(g);
    } else {
      assert g.sources[c] <= P[c];
    }
  }

  lemma FullRhs(g: Group, P: Rows<bv8>, w: nat)
    requires Honest(g, P, w) && Ready(g) && Full(g, w)
    ensures Rect(Rhs(g), w)
  {
    forall c | 0 <= c < g.k ensures |Rhs(g)[c]| == w { RhsLength(g, P, w, c); }
  }

  lemma RowHolds(g: Group, P: Rows<bv8>, w: nat, c: nat, t: nat)
    requires Honest(g, P, w) && Ready(g) && Full(g, w) && Rect(Rhs(g), w) && c < g.k && t < w
    ensures Dot(GF(), Matrix(g)[c], Column(P, w, t)) == Rhs(g)[c][t]
  {
    if c in g.sources {
      UnitRowHolds(P, w, c, t);
      assert g.sources[c] == P[c];
    } else {
      MissingPosition(g.sources.Keys, c, g.k);
      var i := Chosen(g)[|Missing(g.sources.Keys, c)|];
      RepairRowHolds(P, w, i, g.r, t);
      ChosenStored(g);
    }
  }

  lemma SourcesSolve(g: Group, P: Rows<bv8>, w: nat)
    requires Honest(g, P, w) && Ready(g) && Full(g, w) && Rect(Rhs(g), w)
    ensures Solves(GF(), Matrix(g), Rhs(g), w, P)
  {
    forall c, t | 0 <= c < g.k && 0 <= t < w ensures Dot(GF(), Matrix(g)[c], Column(P, w, t)) == Rhs(g)[c][t] {
      RowHolds(g, P, w, c, t);
    }
  }

  lemma MatrixHasNoKernel(g: Group, P: Rows<bv8>, w: nat, v: seq<bv8>)
    requires Honest(g, P, w) && Ready(g) && |v| == g.k
    ensures !IsKernelVector(GF(), Matrix(g), v)
  {
    FieldLaws();
    var xs, ys := Points(Chosen(g)), Columns(g.k, g.r);
    ChosenStored(g);
    PointsDistinct(Chosen(g));
    ColumnsDistinct(g.k, g.r);
    PointsSeparate(Chosen(g), g.k, g.r);
    if Annihilates(GF(), Matrix(g), v) {
      DecodeKernel(GF(), g.sources.Keys, xs, ys, v);
    }
  }

  // Elimination of full rows never reports a singular matrix, and returns the sources.
  lemma FullSolve(g: Group, P: Rows<bv8>, w: nat)
    requires Honest(g, P, w) && Ready(g) && Full(g, w)
    ensures Eliminate(GF(), Matrix(g), Rhs(g), 0).Reduced? && Eliminate(GF(), Matrix(g), Rhs(g), 0).rhs == P
  {
    hide Eliminate;
    FieldLaws();
    FullRhs(g, P, w);
    var a, b := Matrix(g), Rhs(g);
    SolveFailsIffSingular(GF(), a, b, w);
    forall v: seq<bv8> | |v| == g.k ensures !IsKernelVector(GF(), a, v) { MatrixHasNoKernel(g, P, w, v); }
    SourcesSolve(g, P, w);
    SolveUnique(GF(), a, b, w, P);
    EliminateEven(GF(), a, b, w);
    var e := Eliminate(GF(), a, b, 0);
    RightIs(e.mat, e.rhs, g.k, w);
  }

  lemma RightIs(a: Rows<bv8>, b: Rows<bv8>, n: nat, w: nat)
    requires |a| == |b| && Rect(a, n) && Rect(b, w)
    ensures RightBlock(Augment(a, b, n, w), n, w) == b
  {}

  // The matrix alone reduces, whatever the right-hand side.
  lemma MatrixReduces(g: Group, P: Rows<bv8>, w: nat)
    requires Honest(g, P, w) && Ready(g)
    ensures GaussJordan(GF(), Matrix(g), g.k, 0).Some?
  {
    FieldLaws();
    forall v: seq<bv8> | |v| == g.k ensures !IsKernelVector(GF(), Matrix(g), v) { MatrixHasNoKernel(g, P, w, v); }
    ReducesWithoutKernel(GF(), Matrix(g));
  }

  lemma CauchyNonZero(x: bv8, ys: seq<bv8>, c: nat)
    requires c < |ys| && x != ys[c]
    ensures CauchyRow(GF(), x, ys)[c] != 0
  {
    FieldLaws();
    GF().AddCancels(x, ys[c]);
    GF().MulInverse(GF().add(x, ys[c]));
  }

  // Every source row is a unit row, and the first repair row reaches its column.
  lemma UnitRows(g: Group, P: Rows<bv8>, w: nat)
    requires Honest(g, P, w) && Ready(g) && Missing(g.sources.Keys, g.k) != []
    ensures UnitFrom(GF(), Matrix(g), g.sources.Keys, 0)
  {
    var s, a := g.sources.Keys, Matrix(g);
    var r := Missing(s, g.k)[0];
    MissingSound(s, g.k);
    MissingPosition(s, r, g.k);
    ChosenStored(g);
    PointsSeparate(Chosen(g), g.k, g.r);
    forall c: nat | c in s && c < g.k ensures a[c] == Unit(GF(), g.k, c) && Reached(GF(), a, s, c) {
      CauchyNonZero(Points(Chosen(g))[|Missing(s, r)|], Columns(g.k, g.r), c);
      assert a[r][c] != 0;
    }
  }

  // One short source row makes elimination run off its end.
  lemma ShortCrashes(g: Group, P: Rows<bv8>, w: nat)
    requires Honest(g, P, w) && Ready(g) && Missing(g.sources.Keys, g.k) != [] && !Full(g, w)
    ensures Eliminate(GF(), Matrix(g), Rhs(g), 0) == Overrun
  {
    hide Eliminate, GaussJordan;
    FieldLaws();
    var s, a, b := g.sources.Keys, Matrix(g), Rhs(g);
    UnitRows(g, P, w);
    MatrixReduces(g, P, w);
    forall c: nat | c < g.k && c !in s ensures |b[c]| == w { RhsLength(g, P, w, c); }
    var i :| i in g.sources && |g.sources[i]| != w;
    RhsLength(g, P, w, i);
    assert |b[i]| < w;
    ShortOverruns(GF(), a, b, s, w);
  }

  // The missing sources with their original bytes.
  ghost function MissingSources(g: Group, P: Rows<bv8>): Recovered
    requires |P| == g.k
  {
    PickRows(Missing(g.sources.Keys, g.k), P)
  }

  lemma HonestCounts(g: Group, P: Rows<bv8>, w: nat)
    requires Honest(g, P, w)
    ensures |g.sources| <= g.k && |g.repairs| <= g.r
    ensures |Missing(g.sources.Keys, g.k)| == g.k - |g.sources|
  {
    assert Below(g.sources.Keys, g.k) == g.sources.Keys;
    MissingCount(g.sources.Keys, g.k);
    assert Below(g.repairs.Keys, g.r) == g.repairs.Keys;
    MissingCount(g.repairs.Keys, g.r);
  }

  lemma NotDegenerate(g: Group, P: Rows<bv8>, w: nat)
    requires Honest(g, P, w)
    ensures !Degenerate(g)
  {
    ChosenStored(g);
  }

  lemma HonestSolving(g: Group, P: Rows<bv8>, w: nat)
    requires Honest(g, P, w) && Ready(g) && Missing(g.sources.Keys, g.k) != []
    ensures RecoverBySolving(g) == if Full(g, w) then Return(Some(MissingSources(g, P))) else Crash
  {
    hide Eliminate;
    NotDegenerate(g, P, w);
    if Full(g, w) { FullSolve(g, P, w); } else { ShortCrashes(g, P, w); }
  }

  // Any k distinct symbols are enough and fewer are not; recovery happens once.
  // With a source missing it needs every stored source row at full length, and crashes otherwise.
  lemma HonestRecovery(g: Group, P: Rows<bv8>, w: nat)
    requires Honest(g, P, w)
    ensures Recovery(g) ==
      if g.recovered || |g.sources| + |g.repairs| < g.k then Return(None)
      else if |g.sources| == g.k || Full(g, w) then Return(Some(MissingSources(g, P)))
      else Crash
  {
    HonestCounts(g, P, w);
    DecideHonest(g.recovered, |g.sources|, |g.repairs|, g.k, g.r);
    if |g.sources| == g.k {
      assert MissingSources(g, P) == [];
    } else if !g.recovered && |g.sources| + |g.repairs| >= g.k {
      ChosenCount(g);
      HonestSolving(g, P, w);
    }
  }

  // ---- Runs of arrivals for one group ----

  datatype Symbol =
    | Source(idx: nat, data: seq<bv8>)
    | Repair(idx: nat, paddedLen: nat, data: seq<bv8>)
  {
    function Len(): nat { if Source? then |data| else paddedLen }
  }

  function Max(a: nat, b: nat): nat { if a < b then b else a }

  // Store a symbol, creating the group on first sight, padded to the length known so far.
  function Insert(st: Option<Group>, k: nat, r: nat, sym: Symbol): Group {
    var g := if st.Some? then st.value else Group(k, r, sym.Len(), map[], map[], false);
    var len := Max(g.paddedLen, sym.Len());
    var padded := Pad(sym.data, len);
    match sym
    case Source(i, _) => g.(paddedLen := len, sources := g.sources[i := padded])
    case Repair(i, _, _) => g.(paddedLen := len, repairs := g.repairs[i := padded])
  }

  // Counts and index are bytes.
  ghost predicate ByteSized(st: Option<Group>, k: nat, r: nat, sym: Symbol) {
    k < 256 && r < 256 && sym.idx < 256 && (st.Some? ==> st.value.Valid())
  }

  lemma InsertValid(st: Option<Group>, k: nat, r: nat, sym: Symbol)
    requires ByteSized(st, k, r, sym)
    ensures Insert(st, k, r, sym).Valid()
  {}

  // A group of k payloads no longer than w, sent with r repair symbols.
  datatype Coded = Coded(k: nat, r: nat, w: nat, payloads: seq<seq<bv8>>)
  {
    ghost predicate Valid() {
      && 1 <= k < 256 && r < 256 && k + r <= 256 && |payloads| == k
      && forall i | 0 <= i < k :: |payloads[i]| <= w
    }

    ghost function Padded(): (P: Rows<bv8>)
      requires Valid()
      ensures |P| == k && Rect(P, w)
    {
      seq(k, i requires 0 <= i < k => Pad(payloads[i], w))
    }

    // The symbol is one of the k + r symbols of this group.
    ghost predicate Sends(sym: Symbol)
      requires Valid()
    {
      match sym
      case Source(i, data) => i < k && data == payloads[i]
      case Repair(i, len, data) => i < r && len == w && data == RepairSymbol(Padded(), w, i, r)
    }

    // Arrivals in any order with any repetition.
    ghost predicate Delivers(a: seq<Symbol>)
      requires Valid()
    {
      forall n | 0 <= n < |a| :: Sends(a[n])
    }
  }

  ghost function SourceIdx(a: seq<Symbol>): set<nat> { set n | 0 <= n < |a| && a[n].Source? :: a[n].idx }

  ghost function RepairIdx(a: seq<Symbol>): set<nat> { set n | 0 <= n < |a| && a[n].Repair? :: a[n].idx }

  ghost function DistinctCount(a: seq<Symbol>): nat { |SourceIdx(a)| + |RepairIdx(a)| }

  // ---- Lengths ----

  // The longest length announced so far.
  ghost function MaxLen(a: seq<Symbol>): nat { if a == [] then 0 else Max(MaxLen(a[..|a| - 1]), a[|a| - 1].Len()) }

  // The length source i was last stored with.
  ghost function StoredLen(a: seq<Symbol>, i: nat): nat {
    if a == [] then 0
    else if a[|a| - 1].Source? && a[|a| - 1].idx == i then MaxLen(a)
    else StoredLen(a[..|a| - 1], i)
  }

  // Source i arrived at or after a symbol of length w.
  ghost predicate SettledAt(a: seq<Symbol>, w: nat, i: nat) {
    exists m, n | 0 <= m <= n < |a| :: a[m].Len() == w && a[n].Source? && a[n].idx == i
  }

  // Every source received so far arrived at or after a symbol of length w.
  ghost predicate Settled(a: seq<Symbol>, w: nat) { forall i | i in SourceIdx(a) :: SettledAt(a, w, i) }

  ghost predicate LensUpTo(a: seq<Symbol>, w: nat) { forall n | 0 <= n < |a| :: a[n].Len() <= w }

  ghost predicate SawLen(a: seq<Symbol>, w: nat) { exists m | 0 <= m < |a| :: a[m].Len() == w }

  lemma {:induction false} MaxLenIs(a: seq<Symbol>, w: nat)
    requires LensUpTo(a, w) && a != []
    ensures MaxLen(a) <= w && (MaxLen(a) == w <==> SawLen(a, w))
  {
    var front, last := a[..|a| - 1], a[|a| - 1];
    assert a == front + [last];
    if front != [] { MaxLenIs(front, w); }
    if SawLen(a, w) && last.Len() != w {
      var m :| 0 <= m < |a| && a[m].Len() == w;
      assert front[m].Len() == w;
    }
    if front != [] && SawLen(front, w) {
      var m :| 0 <= m < |front| && front[m].Len() == w;
      assert a[m].Len() == w;
    }
  }

  lemma SettledSnoc(a: seq<Symbol>, last: Symbol, w: nat, i: nat)
    ensures last.Source? && last.idx == i ==> (SettledAt(a + [last], w, i) <==> SawLen(a + [last], w))
    ensures !(last.Source? && last.idx == i) ==> (SettledAt(a + [last], w, i) <==> SettledAt(a, w, i))
  {
    var b := a + [last];
    if last.Source? && last.idx == i {
      if SawLen(b, w) {
        var m :| 0 <= m < |b| && b[m].Len() == w;
        assert b[|a|].Source? && b[|a|].idx == i;
      }
    } else {
      if SettledAt(b, w, i) {
        var m, n :| 0 <= m <= n < |b| && b[m].Len() == w && b[n].Source? && b[n].idx == i;
        assert a[m].Len() == w && a[n].Source? && a[n].idx == i;
      }
      if SettledAt(a, w, i) {
        var m, n :| 0 <= m <= n < |a| && a[m].Len() == w && a[n].Source? && a[n].idx == i;
        assert b[m].Len() == w && b[n].Source? && b[n].idx == i;
      }
    }
  }

  // A source is stored at full length exactly when it arrived at or after a symbol of full length.
  lemma {:induction false} StoredLenIs(a: seq<Symbol>, w: nat, i: nat)
    requires LensUpTo(a, w) && i in SourceIdx(a)
    ensures StoredLen(a, i) <= w && (StoredLen(a, i) == w <==> SettledAt(a, w, i))
  {
    var front, last := a[..|a| - 1], a[|a| - 1];
    assert a == front + [last];
    SettledSnoc(front, last, w, i);
    IdxStep(front, last);
    if last.Source? && last.idx == i { MaxLenIs(a, w); } else { StoredLenIs(front, w, i); }
  }

  // ---- Every run ----

  // Enough symbols have arrived, in an order that lets the group be rebuilt.
  ghost predicate Enough(c: Coded, a: seq<Symbol>) {
    DistinctCount(a) >= c.k && (|SourceIdx(a)| == c.k || Settled(a, c.w))
  }

  // Some arrival up to now returned the group.
  ghost predicate Rebuilt(c: Coded, a: seq<Symbol>) { a != [] && (Rebuilt(c, a[..|a| - 1]) || Enough(c, a)) }

  // The group holds the source symbols received, each at the length it was stored with, and the repair symbols.
  ghost predicate Holds(g: Group, c: Coded, a: seq<Symbol>)
    requires c.Valid()
  {
    && g.k == c.k && g.r == c.r && g.paddedLen == MaxLen(a)
    && g.sources.Keys == SourceIdx(a) && g.repairs.Keys == RepairIdx(a)
    && (forall i | i in g.sources :: i < c.k && |c.payloads[i]| <= StoredLen(a, i))
    && (forall i | i in g.sources :: g.sources[i] == Pad(c.payloads[i], StoredLen(a, i)))
    && (forall i | i in g.repairs :: i < c.r && g.repairs[i] == RepairSymbol(c.Padded(), c.w, i, c.r))
  }

  ghost predicate Tracks(st: Option<Group>, c: Coded, a: seq<Symbol>)
    requires c.Valid()
  {
    && (st.Some? <==> a != [])
    && (st.Some? ==> Holds(st.value, c, a) && (st.value.recovered <==> Rebuilt(c, a)))
  }

  lemma IdxStep(a: seq<Symbol>, sym: Symbol)
    ensures SourceIdx(a + [sym]) == if sym.Source? then SourceIdx(a) + {sym.idx} else SourceIdx(a)
    ensures RepairIdx(a + [sym]) == if sym.Repair? then RepairIdx(a) + {sym.idx} else RepairIdx(a)
  {
    var b := a + [sym];
    assert b[|a|] == sym;
    forall n | 0 <= n < |a| ensures b[n] == a[n] {}
  }

  // The group a symbol is stored into: the existing one, or a fresh one.
  ghost function Target(st: Option<Group>, c: Coded, sym: Symbol): Group {
    if st.Some? then st.value else Group(c.k, c.r, sym.Len(), map[], map[], false)
  }

  lemma TargetHolds(st: Option<Group>, c: Coded, a: seq<Symbol>, sym: Symbol)
    requires c.Valid() && Tracks(st, c, a)
    ensures var g := Target(st, c, sym);
      && Holds(g.(paddedLen := MaxLen(a)), c, a) && Max(g.paddedLen, sym.Len()) == MaxLen(a + [sym])
      && (g.recovered <==> Rebuilt(c, a))
  {
    assert (a + [sym])[..|a|] == a;
    if a == [] { assert SourceIdx(a) == {} && RepairIdx(a) == {}; }
  }

  lemma StoredSnoc(a: seq<Symbol>, sym: Symbol, i: nat)
    ensures StoredLen(a + [sym], i) == if sym.Source? && sym.idx == i then MaxLen(a + [sym]) else StoredLen(a, i)
  {
    assert (a + [sym])[..|a|] == a;
  }

  lemma LastFits(a: seq<Symbol>, sym: Symbol)
    ensures sym.Len() <= MaxLen(a + [sym])
  {}

  lemma StoreSource(g: Group, c: Coded, a: seq<Symbol>, sym: Symbol)
    requires c.Valid() && Holds(g, c, a) && c.Sends(sym) && sym.Source?
    ensures var len := MaxLen(a + [sym]);
      Holds(g.(paddedLen := len, sources := g.sources[sym.idx := Pad(sym.data, len)]), c, a + [sym])
  {
    hide MaxLen, StoredLen, RepairSymbol, Pad, SourceIdx, RepairIdx;
    IdxStep(a, sym);
    LastFits(a, sym);
    var b, len := a + [sym], MaxLen(a + [sym]);
    var sources := g.sources[sym.idx := Pad(sym.data, len)];
    forall i | i in sources
      ensures i < c.k && |c.payloads[i]| <= StoredLen(b, i) && sources[i] == Pad(c.payloads[i], StoredLen(b, i))
    {
      StoredSnoc(a, sym, i);
    }
  }

  lemma StoreRepair(g: Group, c: Coded, a: seq<Symbol>, sym: Symbol)
    requires c.Valid() && c.Delivers(a) && Holds(g, c, a) && c.Sends(sym) && sym.Repair?
    ensures var len := MaxLen(a + [sym]);
      Holds(g.(paddedLen := len, repairs := g.repairs[sym.idx := Pad(sym.data, len)]), c, a + [sym])
  {
    hide MaxLen, StoredLen, RepairSymbol;
    IdxStep(a, sym);
    RepairIsFull(c, a, sym);
    forall i: nat ensures StoredLen(a + [sym], i) == StoredLen(a, i) { StoredSnoc(a, sym, i); }
  }

  lemma DeliveredLens(c: Coded, a: seq<Symbol>)
    requires c.Valid() && c.Delivers(a)
    ensures LensUpTo(a, c.w)
  {
    forall n | 0 <= n < |a| ensures a[n].Len() <= c.w { assert c.Sends(a[n]); }
  }

  lemma RepairIsFull(c: Coded, a: seq<Symbol>, sym: Symbol)
    requires c.Valid() && c.Delivers(a) && c.Sends(sym) && sym.Repair?
    ensures MaxLen(a + [sym]) == c.w && Pad(sym.data, c.w) == sym.data
  {
    var b := a + [sym];
    DeliveredLens(c, b);
    MaxLenIs(b, c.w);
    assert b[|a|].Len() == c.w;
  }

  lemma InsertHolds(st: Option<Group>, c: Coded, a: seq<Symbol>, sym: Symbol)
    requires c.Valid() && c.Delivers(a) && c.Sends(sym) && Tracks(st, c, a)
    ensures Holds(Insert(st, c.k, c.r, sym), c, a + [sym])
    ensures Insert(st, c.k, c.r, sym).recovered <==> Rebuilt(c, a)
  {
    TargetHolds(st, c, a, sym);
    var g := Target(st, c, sym).(paddedLen := MaxLen(a));
    if sym.Source? { StoreSource(g, c, a, sym); } else { StoreRepair(g, c, a, sym); }
  }

  lemma PadPrefix(s: seq<bv8>, n: nat, w: nat)
    requires |s| <= n <= w
    ensures Pad(s, n) <= Pad(s, w)
  {}

  // A tracked group is honest, and full exactly when the arrivals are settled.
  lemma HoldsHonest(g: Group, c: Coded, a: seq<Symbol>)
    requires c.Valid() && c.Delivers(a) && Holds(g, c, a)
    ensures Honest(g, c.Padded(), c.w) && (Full(g, c.w) <==> Settled(a, c.w))
  {
    DeliveredLens(c, a);
    forall i | i in g.sources
      ensures g.sources[i] <= c.Padded()[i] && (|g.sources[i]| == c.w <==> SettledAt(a, c.w, i))
    {
      StoredLenIs(a, c.w, i);
      PadPrefix(c.payloads[i], StoredLen(a, i), c.w);
    }
  }

  // What the arrival of sym after a returns.
  ghost function Expected(c: Coded, a: seq<Symbol>, sym: Symbol): Attempt
    requires c.Valid()
  {
    var b := a + [sym];
    if Rebuilt(c, a) || DistinctCount(b) < c.k then Return(None)
    else if Enough(c, b) then Return(Some(PickRows(Missing(SourceIdx(b), c.k), c.Padded())))
    else Crash
  }

  lemma DeliversSnoc(c: Coded, a: seq<Symbol>, sym: Symbol)
    requires c.Valid() && c.Delivers(a) && c.Sends(sym)
    ensures c.Delivers(a + [sym])
  {}

  lemma HoldsCounts(g: Group, c: Coded, a: seq<Symbol>)
    requires c.Valid() && Holds(g, c, a)
    ensures g.k == c.k && g.sources.Keys == SourceIdx(a)
    ensures |g.sources| == |SourceIdx(a)| && |g.sources| + |g.repairs| == DistinctCount(a)
  {
    assert |g.sources| == |g.sources.Keys| && |g.repairs| == |g.repairs.Keys|;
  }

  lemma HonestValid(g: Group, P: Rows<bv8>, w: nat)
    requires Honest(g, P, w)
    ensures g.Valid()
  {}

  lemma HoldsReturns(g: Group, c: Coded, a: seq<Symbol>, sym: Symbol)
    requires c.Valid() && c.Delivers(a) && c.Sends(sym) && Holds(g, c, a + [sym]) && (g.recovered <==> Rebuilt(c, a))
    ensures g.Valid() && Recovery(g) == Expected(c, a, sym)
  {
    hide Recovery, Honest, Holds, Settled, Full, Rebuilt, SourceIdx, RepairIdx, DistinctCount;
    var b := a + [sym];
    DeliversSnoc(c, a, sym);
    HoldsHonest(g, c, b);
    HonestValid(g, c.Padded(), c.w);
    HonestRecovery(g, c.Padded(), c.w);
    HoldsCounts(g, c, b);
  }

  lemma InsertReturns(st: Option<Group>, c: Coded, a: seq<Symbol>, sym: Symbol)
    requires c.Valid() && c.Delivers(a) && c.Sends(sym) && Tracks(st, c, a)
    ensures Insert(st, c.k, c.r, sym).Valid() && Recovery(Insert(st, c.k, c.r, sym)) == Expected(c, a, sym)
  {
    hide Insert;
    InsertHolds(st, c, a, sym);
    HoldsReturns(Insert(st, c.k, c.r, sym), c, a, sym);
  }

  lemma HoldsTracks(g: Group, c: Coded, a: seq<Symbol>, sym: Symbol)
    requires c.Valid() && c.Delivers(a) && c.Sends(sym) && Holds(g, c, a + [sym]) && (g.recovered <==> Rebuilt(c, a))
    ensures g.Valid() && Tracks(Some(AfterRecovery(g)), c, a + [sym])
  {
    hide Recovery, Rebuilt, Enough, Holds;
    HoldsReturns(g, c, a, sym);
    RebuiltSnoc(c, a, sym);
    HoldsFlag(g, c, a + [sym]);
  }

  // Whether the group was returned is no part of what it holds.
  lemma HoldsFlag(g: Group, c: Coded, a: seq<Symbol>)
    requires c.Valid() && Holds(g, c, a)
    ensures Holds(g.(recovered := true), c, a)
  {}

  lemma RebuiltSnoc(c: Coded, a: seq<Symbol>, sym: Symbol)
    requires c.Valid()
    ensures Rebuilt(c, a + [sym]) <==> Rebuilt(c, a) || Enough(c, a + [sym])
    ensures Succeeds(Expected(c, a, sym)) <==> !Rebuilt(c, a) && Enough(c, a + [sym])
  {
    assert (a + [sym])[..|a|] == a;
  }

  lemma InsertTracks(st: Option<Group>, c: Coded, a: seq<Symbol>, sym: Symbol)
    requires c.Valid() && c.Delivers(a) && c.Sends(sym) && Tracks(st, c, a)
    ensures Insert(st, c.k, c.r, sym).Valid() && Tracks(Some(AfterRecovery(Insert(st, c.k, c.r, sym))), c, a + [sym])
  {
    hide Insert;
    InsertHolds(st, c, a, sym);
    HoldsTracks(Insert(st, c.k, c.r, sym), c, a, sym);
  }

  // The group after the arrivals a.
  ghost function After(c: Coded, a: seq<Symbol>): (st: Option<Group>)
    requires c.Valid() && c.Delivers(a)
    ensures Tracks(st, c, a)
  {
    if |a| == 0 then None
    else
      var n := |a| - 1;
      assert a == a[..n] + [a[n]];
      InsertTracks(After(c, a[..n]), c, a[..n], a[n]);
      Some(AfterRecovery(Insert(After(c, a[..n]), c.k, c.r, a[n])))
  }

  // The headline, for every run of honest arrivals. Nothing is returned before the k-th distinct symbol nor
  // after the group was rebuilt. At the k-th distinct symbol the missing sources are returned with their
  // original bytes, provided every source received arrived at or after a symbol of full length (or none is
  // missing); otherwise elimination indexes past the end of a short row.
  lemma AnyKSymbolsRecover(c: Coded, a: seq<Symbol>, sym: Symbol)
    requires c.Valid() && c.Delivers(a) && c.Sends(sym)
    ensures Insert(After(c, a), c.k, c.r, sym).Valid()
    ensures Recovery(Insert(After(c, a), c.k, c.r, sym)) == Expected(c, a, sym)
  {
    InsertReturns(After(c, a), c, a, sym);
  }

  // ---- When the first symbol has full length ----

  lemma FullFirstSettles(c: Coded, a: seq<Symbol>)
    requires c.Valid() && c.Delivers(a) && a != [] && a[0].Len() == c.w
    ensures Settled(a, c.w)
  {
    forall i | i in SourceIdx(a) ensures SettledAt(a, c.w, i) {
      var n :| 0 <= n < |a| && a[n].Source? && a[n].idx == i;
      assert a[0].Len() == c.w;
    }
  }

  lemma AddOne(s: set<nat>, x: nat)
    ensures |s| <= |s + {x}| <= |s| + 1
  {
    assert x in s ==> s + {x} == s;
  }

  lemma DistinctGrows(a: seq<Symbol>, sym: Symbol)
    ensures DistinctCount(a) <= DistinctCount(a + [sym]) <= DistinctCount(a) + 1
  {
    IdxStep(a, sym);
    AddOne(SourceIdx(a), sym.idx);
    AddOne(RepairIdx(a), sym.idx);
  }

  lemma {:induction false} FullFirstRebuilds(c: Coded, a: seq<Symbol>)
    requires c.Valid() && c.Delivers(a) && (a != [] ==> a[0].Len() == c.w)
    ensures Rebuilt(c, a) <==> DistinctCount(a) >= c.k
  {
    if a == [] {
      assert SourceIdx(a) == {} && RepairIdx(a) == {};
    } else {
      var front, last := a[..|a| - 1], a[|a| - 1];
      assert a == front + [last];
      FullFirstRebuilds(c, front);
      DistinctGrows(front, last);
      FullFirstSettles(c, a);
    }
  }

  // Then no order and no repetition crashes: silence, the missing sources at the k-th distinct symbol, silence.
  lemma FullFirstRecovers(c: Coded, a: seq<Symbol>, sym: Symbol)
    requires c.Valid() && c.Delivers(a) && c.Sends(sym) && (a + [sym])[0].Len() == c.w
    ensures Expected(c, a, sym) == Return(
      if DistinctCount(a) < c.k <= DistinctCount(a + [sym])
      then Some(PickRows(Missing(SourceIdx(a + [sym]), c.k), c.Padded())) else None)
  {
    if a != [] { assert (a + [sym])[0] == a[0]; }
    FullFirstRebuilds(c, a);
    FullFirstSettles(c, a + [sym]);
    DistinctGrows(a, sym);
  }
}
