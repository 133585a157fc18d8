// The windowed maximum kept in a monotone deque.
module MaxFilter {
  import opened Bytes

  type Sample = (nat, real)  // round, value

  predicate Stale(r: nat, round: nat, size: nat) { SaturatingSub(round, r) >= size }

  function Evict(d: seq<Sample>, round: nat, size: nat): seq<Sample> {
    if d != [] && Stale(d[0].0, round, size) then Evict(d[1..], round, size) else d
  }

  function DropLow(d: seq<Sample>, v: real): seq<Sample> {
    if d != [] && d[|d| - 1].1 <= v then DropLow(d[..|d| - 1], v) else d
  }

  function Update(d: seq<Sample>, round: nat, v: real, size: nat): seq<Sample> {
    DropLow(Evict(d, round, size), v) + [(round, v)]
  }

  function Max(d: seq<Sample>): real { if d == [] then 0.0 else d[0].1 }

  // The deque after a history of samples.
  function Feed(h: seq<Sample>, size: nat): seq<Sample> {
    if h == [] then [] else Update(Feed(h[..|h| - 1], size), h[|h| - 1].0, h[|h| - 1].1, size)
  }

  // ---- What the deque means ----

  // Rounds do not decrease and values strictly decrease.
  ghost predicate Monotone(d: seq<Sample>) {
    forall i, j | 0 <= i < j < |d| :: d[i].0 <= d[j].0 && d[i].1 > d[j].1
  }

  ghost predicate Ordered(h: seq<Sample>) { forall i, j | 0 <= i < j < |h| :: h[i].0 <= h[j].0 }

  // Some entry is as recent and as large.
  ghost predicate Dominated(s: Sample, d: seq<Sample>) { exists i | 0 <= i < |d| :: d[i].0 >= s.0 && d[i].1 >= s.1 }

  // Every sample still in the window is dominated by the deque.
  ghost predicate Covers(d: seq<Sample>, h: seq<Sample>, round: nat, size: nat) {
    forall i | 0 <= i < |h| && !Stale(h[i].0, round, size) :: Dominated(h[i], d)
  }

  ghost predicate Within(d: seq<Sample>, h: seq<Sample>, round: nat, size: nat) {
    forall x | x in d :: x in h && !Stale(x.0, round, size)
  }

  ghost predicate Good(d: seq<Sample>, h: seq<Sample>, round: nat, size: nat) {
    Monotone(d) && Within(d, h, round, size) && Covers(d, h, round, size)
  }

  // m is the largest value of the samples in the window.
  ghost predicate IsMax(m: real, h: seq<Sample>, round: nat, size: nat) {
    && (exists i | 0 <= i < |h| :: !Stale(h[i].0, round, size) && h[i].1 == m)
    && (forall i | 0 <= i < |h| && !Stale(h[i].0, round, size) :: h[i].1 <= m)
  }

  lemma {:induction false} EvictFacts(d: seq<Sample>, round: nat, size: nat)
    requires Monotone(d)
    ensures Monotone(Evict(d, round, size))
    ensures forall x :: x in Evict(d, round, size) <==> x in d && !Stale(x.0, round, size)
  {
    if d != [] && Stale(d[0].0, round, size) {
      EvictFacts(d[1..], round, size);
      assert d == [d[0]] + d[1..];
    } else {
      forall x | x in d ensures !Stale(x.0, round, size) {
        var i :| 0 <= i < |d| && d[i] == x;
      }
    }
  }

  lemma {:induction false} DropLowFacts(d: seq<Sample>, v: real)
    requires Monotone(d)
    ensures Monotone(DropLow(d, v)) && DropLow(d, v) <= d
    ensures forall x :: x in DropLow(d, v) <==> x in d && x.1 > v
  {
    if d != [] && d[|d| - 1].1 <= v {
      DropLowFacts(d[..|d| - 1], v);
      assert d == d[..|d| - 1] + [d[|d| - 1]];
    } else {
      forall x | x in d ensures x.1 > v {
        var i :| 0 <= i < |d| && d[i] == x;
      }
    }
  }

  lemma DominatedBy(s: Sample, d: seq<Sample>, x: Sample)
    requires x in d && x.0 >= s.0 && x.1 >= s.1
    ensures Dominated(s, d)
  {
    var i :| 0 <= i < |d| && d[i] == x;
  }

  // What the update keeps of the deque.
  lemma UpdateFacts(d: seq<Sample>, round: nat, v: real, size: nat)
    requires Monotone(d)
    ensures forall x :: x in Update(d, round, v, size) <==>
      x == (round, v) || (x in d && !Stale(x.0, round, size) && x.1 > v)
    ensures (forall x | x in d :: x.0 <= round) ==> Monotone(Update(d, round, v, size))
  {
    EvictFacts(d, round, size);
    DropLowFacts(Evict(d, round, size), v);
    var e := DropLow(Evict(d, round, size), v);
    if forall x | x in d :: x.0 <= round {
      forall i | 0 <= i < |e| ensures e[i].0 <= round && e[i].1 > v { assert e[i] in e; }
    }
  }

  lemma UpdateCovers(d: seq<Sample>, x: Sample, size: nat, s: Sample)
    requires Monotone(d) && Dominated(s, d) && s.0 <= x.0 && !Stale(s.0, x.0, size)
    ensures Dominated(s, Update(d, x.0, x.1, size))
  {
    UpdateFacts(d, x.0, x.1, size);
    var i :| 0 <= i < |d| && d[i].0 >= s.0 && d[i].1 >= s.1;
    DominatedBy(s, Update(d, x.0, x.1, size), if d[i].1 > x.1 then d[i] else x);
  }

  lemma UpdateGood(d: seq<Sample>, h: seq<Sample>, before: nat, x: Sample, size: nat)
    requires size >= 1 && before <= x.0 && Good(d, h, before, size) && forall s | s in h :: s.0 <= x.0
    ensures Good(Update(d, x.0, x.1, size), h + [x], x.0, size)
  {
    var e := Update(d, x.0, x.1, size);
    UpdateFacts(d, x.0, x.1, size);
    forall i | 0 <= i < |h + [x]| && !Stale((h + [x])[i].0, x.0, size) ensures Dominated((h + [x])[i], e) {
      var s := (h + [x])[i];
      if i < |h| {
        assert s in h && !Stale(s.0, before, size);
        UpdateCovers(d, x, size, s);
      } else {
        DominatedBy(s, e, x);
      }
    }
  }

  // Every history with rounds in order leaves a good deque.
  lemma {:induction false} FeedGood(h: seq<Sample>, size: nat)
    requires size >= 1 && Ordered(h) && h != []
    ensures Good(Feed(h, size), h, h[|h| - 1].0, size)
  {
    var front, last := h[..|h| - 1], h[|h| - 1];
    assert h == front + [last];
    forall s | s in front ensures s.0 <= last.0 { var i :| 0 <= i < |front| && front[i] == s; assert h[i] == s; }
    if front == [] {
      UpdateGood([], [], 0, last, size);
    } else {
      FeedGood(front, size);
      assert front[|front| - 1] in front;
      UpdateGood(Feed(front, size), front, front[|front| - 1].0, last, size);
    }
  }

  // The front of the deque is the maximum over every sample ever fed that is still in the window.
  lemma FeedIsMax(h: seq<Sample>, size: nat)
    requires size >= 1 && Ordered(h) && h != []
    ensures IsMax(Max(Feed(h, size)), h, h[|h| - 1].0, size) && Monotone(Feed(h, size))
  {
    FeedGood(h, size);
    var d, round := Feed(h, size), h[|h| - 1].0;
    assert d[0] in d;
    var k :| 0 <= k < |h| && h[k] == d[0];
    forall i | 0 <= i < |h| && !Stale(h[i].0, round, size) ensures h[i].1 <= d[0].1 {
      var j :| 0 <= j < |d| && d[j].0 >= h[i].0 && d[j].1 >= h[i].1;
    }
  }

  // ---- The object ----

  class WindowedMaxFilter {
    var window: seq<Sample>
    const size: nat

    constructor (n: nat)
      ensures window == [] && size == n
    {
      window, size := [], n;
    }

    method Add(round: nat, value: real)
      modifies this`window
      ensures window == Update(old(window), round, value, size)
    {
      while window != [] && Stale(window[0].0, round, size)
        invariant Evict(window, round, size) == Evict(old(window), round, size)
        decreases |window|
      {
        window := window[1..];
      }
      ghost var kept := window;
      while window != [] && window[|window| - 1].1 <= value
        invariant DropLow(window, value) == DropLow(kept, value)
        decreases |window|
      {
        window := window[..|window| - 1];
      }
      window := window + [(round, value)];
    }
  }
}
