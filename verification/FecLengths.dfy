// Symbols of different lengths in one group.
module FecLengths {
  import opened Options
  import opened Cauchy
  import opened FecCode
  import opened FecDecoder

  // Every stored symbol has the group's padded length.
  ghost predicate Even(g: Group) {
    && (forall i | i in g.sources :: |g.sources[i]| == g.paddedLen)
    && (forall i | i in g.repairs :: |g.repairs[i]| == g.paddedLen)
  }

  // The group holds no symbol but the one that sym replaces.
  ghost predicate Replaces(g: Group, sym: Symbol) {
    && (forall i | i in g.sources :: sym.Source? && i == sym.idx)
    && (forall i | i in g.repairs :: sym.Repair? && i == sym.idx)
  }

  // Storing a symbol keeps the rows even exactly when it is no longer than they are, or no other row is stored.
  lemma EvenStep(g: Group, k: nat, r: nat, sym: Symbol)
    requires Even(g)
    ensures Even(Insert(Some(g), k, r, sym)) <==> sym.Len() <= g.paddedLen || Replaces(g, sym)
  {
    var h := Insert(Some(g), k, r, sym);
    if i :| i in g.sources && !(sym.Source? && i == sym.idx) {
      assert h.sources[i] == g.sources[i];
    }
    if i :| i in g.repairs && !(sym.Repair? && i == sym.idx) {
      assert h.repairs[i] == g.repairs[i];
    }
  }

  // A fresh group is even.
  lemma EvenFirst(k: nat, r: nat, sym: Symbol)
    ensures Even(Insert(None, k, r, sym))
  {}

  // ---- Over a whole run ----

  // The rows stored by the arrivals a, in any order, of any lengths.
  function Stored(k: nat, r: nat, a: seq<Symbol>): (st: Option<Group>)
    ensures st.None? <==> a == []
  {
    if a == [] then None else Some(Insert(Stored(k, r, a[..|a| - 1]), k, r, a[|a| - 1]))
  }

  // The group announces the longest length and holds the slots of the arrivals a.
  ghost predicate Shaped(g: Group, a: seq<Symbol>) {
    g.paddedLen == MaxLen(a) && g.sources.Keys == SourceIdx(a) && g.repairs.Keys == RepairIdx(a)
  }

  lemma ShapedNext(g: Group, k: nat, r: nat, a: seq<Symbol>, sym: Symbol)
    requires Shaped(g, a)
    ensures Shaped(Insert(Some(g), k, r, sym), a + [sym])
  {
    hide Pad, SourceIdx, RepairIdx, MaxLen;
    IdxStep(a, sym);
    MaxLenSnoc(a, sym);
  }

  lemma ShapedFirst(k: nat, r: nat, sym: Symbol)
    ensures Shaped(Insert(None, k, r, sym), [sym])
  {
    hide Pad, SourceIdx, RepairIdx, MaxLen;
    NothingYet();
    IdxStep([], sym);
    MaxLenSnoc([], sym);
    assert [] + [sym] == [sym];
  }

  lemma {:induction false} StoredHolds(k: nat, r: nat, a: seq<Symbol>)
    requires a != []
    ensures Shaped(Stored(k, r, a).value, a)
  {
    hide Insert, Shaped;
    var front, last := a[..|a| - 1], a[|a| - 1];
    assert a == front + [last];
    if front == [] {
      assert a == [last];
      ShapedFirst(k, r, last);
    } else {
      StoredHolds(k, r, front);
      ShapedNext(Stored(k, r, front).value, k, r, front, last);
    }
  }

  lemma MaxLenSnoc(a: seq<Symbol>, last: Symbol)
    ensures MaxLen(a + [last]) == Max(MaxLen(a), last.Len())
  {
    assert (a + [last])[..|a|] == a;
  }

  lemma NothingYet()
    ensures SourceIdx([]) == {} && RepairIdx([]) == {} && MaxLen([]) == 0
  {}

  // The same symbol, source or repair, of the same index.
  predicate SameSlot(x: Symbol, y: Symbol) { x.Source? == y.Source? && x.idx == y.idx }

  lemma ReplacesIs(k: nat, r: nat, a: seq<Symbol>, sym: Symbol)
    requires a != []
    ensures Replaces(Stored(k, r, a).value, sym) <==> forall n | 0 <= n < |a| :: SameSlot(a[n], sym)
  {
    StoredHolds(k, r, a);
    var g := Stored(k, r, a).value;
    if Replaces(g, sym) {
      forall n | 0 <= n < |a| ensures SameSlot(a[n], sym) {
        assert if a[n].Source? then a[n].idx in SourceIdx(a) else a[n].idx in RepairIdx(a);
      }
    }
  }

  ghost predicate EvenSoFar(k: nat, r: nat, a: seq<Symbol>) {
    a != [] ==> EvenSoFar(k, r, a[..|a| - 1]) && Even(Stored(k, r, a).value)
  }

  // No symbol is longer than everything before it, unless only it has arrived before.
  ghost predicate NeverGrows(a: seq<Symbol>) {
    forall n | 0 < n < |a| :: a[n].Len() <= MaxLen(a[..n]) || forall m | 0 <= m < n :: SameSlot(a[m], a[n])
  }

  lemma NeverGrowsSnoc(a: seq<Symbol>, last: Symbol)
    requires a != []
    ensures NeverGrows(a + [last]) <==>
      NeverGrows(a) && (last.Len() <= MaxLen(a) || forall m | 0 <= m < |a| :: SameSlot(a[m], last))
  {
    var b := a + [last];
    assert b[..|a|] == a && b[|a|] == last;
    forall n | 0 < n < |a| ensures b[n] == a[n] && b[..n] == a[..n] {}
    if NeverGrows(b) {
      forall n | 0 < n < |a|
        ensures a[n].Len() <= MaxLen(a[..n]) || forall m | 0 <= m < n :: SameSlot(a[m], a[n])
      {
        assert b[n].Len() <= MaxLen(b[..n]) || forall m | 0 <= m < n :: SameSlot(b[m], b[n]);
        forall m | 0 <= m < n ensures b[m] == a[m] {}
      }
    }
  }

  // All rows have one length throughout a run exactly when no arrival outgrows the ones before it.
  lemma {:induction false} EvenThroughout(k: nat, r: nat, a: seq<Symbol>)
    ensures EvenSoFar(k, r, a) <==> NeverGrows(a)
  {
    if |a| == 1 {
      EvenFirst(k, r, a[0]);
      assert Stored(k, r, a[..0]) == None;
    } else if |a| > 1 {
      var front, last := a[..|a| - 1], a[|a| - 1];
      assert a == front + [last];
      EvenThroughout(k, r, front);
      NeverGrowsSnoc(front, last);
      if EvenSoFar(k, r, front) {
        var g := Stored(k, r, front).value;
        EvenStep(g, k, r, last);
        StoredHolds(k, r, front);
        ReplacesIs(k, r, front, last);
      }
    }
  }

  // ---- The smallest crash ----

  // Two payloads of lengths one and two with one repair symbol.
  ghost function TwoPayloads(): Coded { Coded(2, 1, 2, [[7], [7, 7]]) }

  ghost function TheirRepair(): Symbol
    requires TwoPayloads().Valid()
  {
    Repair(0, 2, RepairSymbol(TwoPayloads().Padded(), 2, 0, 1))
  }

  // The short source, then the repair: two distinct symbols of two, rows of lengths one and two, and
  // elimination indexes past the end of the shorter.
  lemma ShortSourceCrashes()
    ensures TwoPayloads().Valid()
    ensures TwoPayloads().Delivers([Source(0, [7])]) && TwoPayloads().Sends(TheirRepair())
    ensures var g := Insert(After(TwoPayloads(), [Source(0, [7])]), 2, 1, TheirRepair());
      && g.Valid() && g.sources.Keys == {0} && |g.sources[0]| == 1 && g.repairs.Keys == {0} && |g.repairs[0]| == 2
      && Decide(g.recovered, |g.sources|, |g.repairs|, g.k, |Missing(g.sources.Keys, g.k)|) == Reconstruct
      && Recovery(g) == Crash
  {
    var c := TwoPayloads();
    assert c.Valid();
    var a, sym := [Source(0, [7])], TheirRepair();
    assert c.Delivers(a);
    AnyKSymbolsRecover(c, a, sym);
    var g := Insert(After(c, a), 2, 1, sym);
    ShortSourceGroup(c, a, sym);
    HonestCounts(g, c.Padded(), 2);
    DecideHonest(g.recovered, |g.sources|, |g.repairs|, g.k, g.r);
    ShortSourceExpected(c, a, sym);
  }

  lemma ShortSourceGroup(c: Coded, a: seq<Symbol>, sym: Symbol)
    requires c == TwoPayloads() && c.Valid() && a == [Source(0, [7])] && sym == TheirRepair() && c.Delivers(a)
    ensures var g := Insert(After(c, a), 2, 1, sym);
      && Honest(g, c.Padded(), 2) && !g.recovered && g.k == 2 && g.r == 1
      && g.sources.Keys == {0} && |g.sources[0]| == 1 && g.repairs.Keys == {0} && |g.repairs[0]| == 2
  {
    hide Insert, After, MaxLen, StoredLen, Rebuilt, Honest, RepairSymbol;
    InsertHolds(After(c, a), c, a, sym);
    var b, g := a + [sym], Insert(After(c, a), 2, 1, sym);
    IdxOfBoth(a, sym);
    HoldsHonest(g, c, b);
    StoredSnoc(a, sym, 0);
    OneShortSource(c, a);
  }

  lemma OneShortSource(c: Coded, a: seq<Symbol>)
    requires c.k == 2 && a == [Source(0, [7])]
    ensures StoredLen(a, 0) == 1 && !Rebuilt(c, a)
  {
    IdxOfBoth(a, Repair(0, 2, []));
    assert a[..0] == [];
    assert MaxLen(a[..0]) == 0 && !Rebuilt(c, a[..0]);
    assert MaxLen(a) == 1;
  }

  lemma IdxOfBoth(a: seq<Symbol>, sym: Symbol)
    requires a == [Source(0, [7])] && sym.Repair? && sym.idx == 0
    ensures SourceIdx(a) == {0} == SourceIdx(a + [sym]) && RepairIdx(a) == {} && RepairIdx(a + [sym]) == {0}
    ensures DistinctCount(a) == 1 && DistinctCount(a + [sym]) == 2
  {
    IdxStep([], Source(0, [7]));
    assert [] + [Source(0, [7])] == a;
    assert SourceIdx([]) == {} && RepairIdx([]) == {};
    IdxStep(a, sym);
  }

  lemma ShortSourceExpected(c: Coded, a: seq<Symbol>, sym: Symbol)
    requires c == TwoPayloads() && c.Valid() && a == [Source(0, [7])] && sym == TheirRepair()
    ensures Expected(c, a, sym) == Crash
  {
    IdxOfBoth(a, sym);
    assert a[..0] == [];
    assert !Rebuilt(c, a);
    var b := a + [sym];
    assert |b| == 2 && b[0].Len() == 1 && !b[1].Source?;
    assert 0 in SourceIdx(b) && !SettledAt(b, 2, 0);
    assert !Settled(b, 2);
  }
}
