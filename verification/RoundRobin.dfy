// The round-robin path scheduler.
module RoundRobin {
  import opened Options
  import opened Division

  // ---- Which path is next ----

  // (i + 1) % n for i < n.
  function Succ(i: nat, n: nat): nat { if i + 1 < n then i + 1 else 0 }

  // Step the cursor until it meets an active path, at most `steps` times.
  function Advance(active: seq<bool>, cursor: nat, steps: nat): (c: nat)
    requires cursor < |active|
    ensures c < |active|
    decreases steps
  {
    if steps == 0 then cursor
    else
      var next := Succ(cursor, |active|);
      if active[next] then next else Advance(active, next, steps - 1)
  }

  // The active paths below n, in order.
  function Actives(active: seq<bool>, n: nat): (a: seq<nat>)
    requires n <= |active|
  {
    if n == 0 then [] else Actives(active, n - 1) + (if active[n - 1] then [n - 1] else [])
  }

  function All(active: seq<bool>): seq<nat> { Actives(active, |active|) }

  lemma {:induction false} ActivesFacts(active: seq<bool>, n: nat)
    requires n <= |active|
    ensures forall i | 0 <= i < |Actives(active, n)| :: Actives(active, n)[i] < n && active[Actives(active, n)[i]]
    ensures forall i, j | 0 <= i < j < |Actives(active, n)| :: Actives(active, n)[i] < Actives(active, n)[j]
    ensures forall k | 0 <= k < n && active[k] :: k in Actives(active, n)
  {
    if n > 0 { ActivesFacts(active, n - 1); }
  }

  // The active paths below n come first.
  lemma {:induction false} ActivesPrefix(active: seq<bool>, n: nat, m: nat)
    requires n <= m <= |active|
    ensures Actives(active, n) <= Actives(active, m)
    decreases m
  {
    if n < m { ActivesPrefix(active, n, m - 1); }
  }

  // How many active paths are at or before the cursor.
  function Rank(active: seq<bool>, cursor: nat): nat
    requires cursor < |active|
  {
    |Actives(active, cursor + 1)|
  }

  // The path the scheduler should pick: the first active one after the cursor, cyclically.
  function Target(active: seq<bool>, cursor: nat): (t: nat)
    requires cursor < |active| && |All(active)| > 0
    ensures t < |active| && active[t]
  {
    ActivesFacts(active, |active|);
    var a, r := All(active), Rank(active, cursor);
    if r < |a| then a[r] else a[0]
  }

  function Distance(n: nat, cursor: nat, t: nat): nat
    requires cursor < n && t < n
  {
    if t > cursor then t - cursor else t - cursor + n
  }

  // An active path right after the cursor is the target.
  lemma TargetNext(active: seq<bool>, cursor: nat)
    requires cursor < |active| && |All(active)| > 0 && active[Succ(cursor, |active|)]
    ensures Target(active, cursor) == Succ(cursor, |active|)
  {
    if cursor + 1 < |active| {
      ActivesPrefix(active, cursor + 2, |active|);
      assert Actives(active, cursor + 2)[Rank(active, cursor)] == cursor + 1;
    } else {
      ActivesPrefix(active, 1, |active|);
      FirstActive(active);
    }
  }

  lemma FirstActive(active: seq<bool>)
    requires |active| > 0 && active[0]
    ensures |Actives(active, 1)| == 1 && Actives(active, 1)[0] == 0
  {
    assert Actives(active, 0) == [];
  }

  // Passing an inactive path does not change the target.
  lemma TargetSkips(active: seq<bool>, cursor: nat)
    requires cursor < |active| && |All(active)| > 0 && !active[Succ(cursor, |active|)]
    ensures Target(active, Succ(cursor, |active|)) == Target(active, cursor)
  {
    if cursor + 1 == |active| { assert Actives(active, 1) == Actives(active, 0) == []; }
  }

  lemma {:induction false} AdvanceIs(active: seq<bool>, cursor: nat, steps: nat)
    requires cursor < |active| && |All(active)| > 0 && Distance(|active|, cursor, Target(active, cursor)) <= steps
    ensures Advance(active, cursor, steps) == Target(active, cursor)
    decreases steps
  {
    var next := Succ(cursor, |active|);
    if active[next] {
      TargetNext(active, cursor);
    } else {
      TargetSkips(active, cursor);
      AdvanceIs(active, next, steps - 1);
    }
  }

  // A full turn of the loop always finds the target.
  lemma AdvanceFinds(active: seq<bool>, cursor: nat)
    requires cursor < |active| && |All(active)| > 0
    ensures Advance(active, cursor, |active|) == Target(active, cursor)
  {
    AdvanceIs(active, cursor, |active|);
  }

  // ---- A run of sends over fixed paths ----

  // The cursor after m sends.
  function CursorAfter(active: seq<bool>, cursor: nat, m: nat): (c: nat)
    requires cursor < |active|
    ensures c < |active|
  {
    if m == 0 then cursor else Advance(active, CursorAfter(active, cursor, m - 1), |active|)
  }

  lemma AllDistinct(active: seq<bool>, j: nat, k: nat)
    requires j < |All(active)| && k < |All(active)| && All(active)[j] == All(active)[k]
    ensures j == k
  {
    ActivesFacts(active, |active|);
    if j < k { assert false; } else if k < j { assert false; }
  }

  // An active path is the last of the active paths up to it.
  lemma LastActive(active: seq<bool>, i: nat)
    requires i < |active| && active[i]
    ensures 0 < Rank(active, i) <= |All(active)| && All(active)[Rank(active, i) - 1] == i
  {
    ActivesPrefix(active, i + 1, |active|);
    assert Actives(active, i + 1) == Actives(active, i) + [i];
  }

  lemma ActivesRank(active: seq<bool>, k: nat)
    requires k < |All(active)|
    ensures All(active)[k] < |active| && Rank(active, All(active)[k]) == k + 1
  {
    ActivesFacts(active, |active|);
    LastActive(active, All(active)[k]);
    AllDistinct(active, k, Rank(active, All(active)[k]) - 1);
  }

  // From one active path the next send goes to the next one in order.
  lemma NextInOrder(active: seq<bool>, k: nat)
    requires k < |All(active)|
    ensures All(active)[k] < |active|
    ensures Advance(active, All(active)[k], |active|) == All(active)[Succ(k, |All(active)|)]
  {
    ActivesRank(active, k);
    AdvanceFinds(active, All(active)[k]);
  }

  lemma {:induction false} ModSucc(x: nat, a: nat)
    requires a > 0
    ensures (x + 1) % a == Succ(x % a, a)
  {
    var q, r := x / a, x % a;
    assert x == a * q + r;
    if r + 1 < a {
      Quotient(x + 1, a, q, r + 1);
    } else {
      Distribute(a, q);
      Quotient(x + 1, a, q + 1, 0);
    }
  }

  lemma Distribute(a: nat, q: nat)
    ensures a * (q + 1) == a * q + a
  {}

  // Send number t (counted from 1) goes to the active path numbered rank + t - 1, modulo their count.
  lemma {:induction false} SendGoesTo(active: seq<bool>, cursor: nat, t: nat)
    requires cursor < |active| && |All(active)| > 0 && t > 0
    ensures CursorAfter(active, cursor, t) == All(active)[(Rank(active, cursor) + t - 1) % |All(active)|]
  {
    var a := |All(active)|;
    if t == 1 {
      AdvanceFinds(active, cursor);
      ActivesPrefix(active, cursor + 1, |active|);
      FirstTarget(Rank(active, cursor), a);
    } else {
      SendGoesTo(active, cursor, t - 1);
      ModSucc(Rank(active, cursor) + t - 2, a);
      NextInOrder(active, (Rank(active, cursor) + t - 2) % a);
    }
  }

  lemma FirstTarget(r: nat, a: nat)
    requires r <= a && a > 0
    ensures r % a == if r < a then r else 0
  {
    if r < a { Quotient(r, a, 0, r); } else { Quotient(r, a, 1, 0); }
  }

  // ---- Fairness ----

  // Numbers t in [0, y) with t % a == k.
  function Hits(a: nat, k: nat, y: nat): nat
    requires a > 0
  {
    if y == 0 then 0 else Hits(a, k, y - 1) + (if (y - 1) % a == k then 1 else 0)
  }

  lemma {:induction false} HitsFormula(a: nat, k: nat, y: nat)
    requires k < a
    ensures Hits(a, k, y) == (y + (a - 1 - k)) / a
  {
    if y == 0 {
      Quotient(a - 1 - k, a, 0, a - 1 - k);
    } else {
      HitsFormula(a, k, y - 1);
      HitsNext(a, k, y - 1);
    }
  }

  lemma HitsNext(a: nat, k: nat, x: nat)
    requires k < a
    ensures (x + 1 + (a - 1 - k)) / a == (x + (a - 1 - k)) / a + (if x % a == k then 1 else 0)
  {
    DivMod(x, a);
    if x % a <= k { HitsBefore(a, k, x, x / a, x % a); } else { HitsAfter(a, k, x, x / a, x % a); }
  }

  lemma DivMod(x: nat, a: nat)
    requires a > 0
    ensures x == a * (x / a) + x % a && x % a < a
  {}

  lemma HitsBefore(a: nat, k: nat, x: nat, q: nat, r: nat)
    requires x == a * q + r && r <= k < a
    ensures (x + (a - 1 - k)) / a == q && (x + 1 + (a - 1 - k)) / a == if r == k then q + 1 else q
  {
    Quotient(x + (a - 1 - k), a, q, r + (a - 1 - k));
    if r == k {
      Distribute(a, q);
      Quotient(x + 1 + (a - 1 - k), a, q + 1, 0);
    } else {
      Quotient(x + 1 + (a - 1 - k), a, q, r + (a - k));
    }
  }

  lemma HitsAfter(a: nat, k: nat, x: nat, q: nat, r: nat)
    requires x == a * q + r && k < r < a
    ensures (x + (a - 1 - k)) / a == (x + 1 + (a - 1 - k)) / a == q + 1
  {
    Distribute(a, q);
    Quotient(x + (a - 1 - k), a, q + 1, r - k - 1);
    Quotient(x + 1 + (a - 1 - k), a, q + 1, r - k);
  }

  // m consecutive numbers hit a residue m / a times, rounded down or up.
  lemma HitsInWindow(a: nat, k: nat, x: nat, m: nat)
    requires k < a
    ensures m / a <= Hits(a, k, x + m) - Hits(a, k, x) <= (m + (a - 1)) / a
  {
    HitsFormula(a, k, x);
    HitsFormula(a, k, x + m);
    Spread(a, x + (a - 1 - k), m);
  }

  lemma Spread(a: nat, y: nat, m: nat)
    requires a > 0
    ensures m / a <= (y + m) / a - y / a <= (m + (a - 1)) / a
  {
    SumQuotient(y, m, a, y / a, y % a, m / a, m % a);
    CeilQuotient(m, a, m / a, m % a);
  }

  lemma SumQuotient(y: nat, m: nat, a: nat, p: nat, r: nat, q: nat, s: nat)
    requires y == a * p + r && m == a * q + s && r < a && s < a
    ensures (y + m) / a == p + q + (if r + s < a then 0 else 1)
    ensures s == 0 ==> (y + m) / a == p + q
  {
    SumOf(a, p, q);
    if r + s < a {
      Quotient(y + m, a, p + q, r + s);
    } else {
      Distribute(a, p + q);
      Quotient(y + m, a, p + q + 1, r + s - a);
    }
  }

  lemma CeilQuotient(m: nat, a: nat, q: nat, s: nat)
    requires m == a * q + s && s < a
    ensures (m + (a - 1)) / a == q + (if s == 0 then 0 else 1)
  {
    if s == 0 {
      Quotient(m + (a - 1), a, q, a - 1);
    } else {
      Distribute(a, q);
      Quotient(m + (a - 1), a, q + 1, s - 1);
    }
  }

  lemma SumOf(a: nat, p: nat, q: nat)
    ensures a * (p + q) == a * p + a * q
  {}

  // Sends first + 1 .. first + m that went to path i.
  function SentTo(active: seq<bool>, cursor: nat, first: nat, m: nat, i: nat): nat
    requires cursor < |active|
  {
    if m == 0 then 0
    else SentTo(active, cursor, first, m - 1, i) + (if CursorAfter(active, cursor, first + m) == i then 1 else 0)
  }

  lemma {:induction false} SentToIsHits(active: seq<bool>, cursor: nat, first: nat, m: nat, k: nat)
    requires cursor < |active| && k < |All(active)|
    ensures var x := Rank(active, cursor) + first;
      SentTo(active, cursor, first, m, All(active)[k]) == Hits(|All(active)|, k, x + m) - Hits(|All(active)|, k, x)
  {
    if m > 0 {
      SentToIsHits(active, cursor, first, m - 1, k);
      SendGoesTo(active, cursor, first + m);
      var j := (Rank(active, cursor) + first + m - 1) % |All(active)|;
      if All(active)[j] == All(active)[k] { AllDistinct(active, j, k); }
    }
  }

  lemma {:induction false} InactiveGetsNone(active: seq<bool>, cursor: nat, first: nat, m: nat, i: nat)
    requires cursor < |active| && i < |active| && !active[i] && |All(active)| > 0
    ensures SentTo(active, cursor, first, m, i) == 0
  {
    if m > 0 {
      InactiveGetsNone(active, cursor, first, m - 1, i);
      SendGoesTo(active, cursor, first + m);
      ActivesFacts(active, |active|);
    }
  }

  // Of any m consecutive sends each active path gets m / a, rounded down or up;
  // of any a consecutive sends it gets exactly one.
  lemma FairShare(active: seq<bool>, cursor: nat, first: nat, m: nat, i: nat)
    requires cursor < |active| && i < |active| && active[i]
    ensures var a := |All(active)|;
      && a > 0 && m / a <= SentTo(active, cursor, first, m, i) <= (m + (a - 1)) / a
      && (m == a ==> SentTo(active, cursor, first, m, i) == 1)
  {
    hide All, Rank, SentTo, Hits;
    LastActive(active, i);
    var a, k := |All(active)|, Rank(active, i) - 1;
    SentToIsHits(active, cursor, first, m, k);
    HitsInWindow(a, k, Rank(active, cursor) + first, m);
    OneTurn(a);
  }

  lemma OneTurn(a: nat)
    requires a > 0
    ensures a / a == 1 && (a + (a - 1)) / a == 1
  {
    Quotient(a, a, 1, 0);
    Quotient(a + (a - 1), a, 1, a - 1);
  }

  // ---- The endpoint ----

  datatype Path = Path(local: nat, active: bool, sent: nat)

  function Flags(paths: seq<Path>): seq<bool> { seq(|paths|, i requires 0 <= i < |paths| => paths[i].active) }

  class MultiPath {
    var paths: seq<Path>
    var rrCursor: nat

    // The cursor points into the list, or rests at 0.
    ghost predicate Valid()
      reads this
    {
      rrCursor < |paths| || rrCursor == 0
    }

    constructor ()
      ensures Valid() && paths == []
    {
      paths, rrCursor := [], 0;
    }

    method AddPath(local: nat)
      requires Valid()
      modifies this
      ensures Valid() && paths == old(paths) + [Path(local, true, 0)] && rrCursor == old(rrCursor)
    {
      paths := paths + [Path(local, true, 0)];
    }

    // Remove the first path with that local address, if any.
    method RemovePath(local: nat)
      requires Valid()
      modifies this
      ensures Valid()
      ensures (forall p | p in old(paths) :: p.local != local) ==> paths == old(paths) && rrCursor == old(rrCursor)
      ensures (exists p | p in old(paths) :: p.local == local) ==>
        exists i | 0 <= i < |old(paths)| ::
          && old(paths)[i].local == local && (forall j | 0 <= j < i :: old(paths)[j].local != local)
          && paths == old(paths)[..i] + old(paths)[i + 1..]
    {
      for pos := 0 to |paths|
        invariant paths == old(paths) && rrCursor == old(rrCursor)
        invariant forall j | 0 <= j < pos :: paths[j].local != local
      {
        if paths[pos].local == local {
          paths := paths[..pos] + paths[pos + 1..];
          if rrCursor >= |paths| && paths != [] {
            rrCursor := 0;
          }
          return;
        }
      }
    }

    method ActivePathCount() returns (n: nat)
      ensures n == |All(Flags(paths))|
    {
      n := 0;
      for i := 0 to |paths|
        invariant n == |Actives(Flags(paths), i)|
      {
        if paths[i].active { n := n + 1; }
      }
    }

    // The index tried; None when no path is active. The cursor has moved even if the socket then fails.
    method SendRoundRobin(socketOk: bool) returns (idx: Option<nat>, sent: bool)
      requires Valid()
      modifies this
      ensures Valid() && (sent <==> idx.Some? && socketOk)
      ensures idx.None? <==> All(Flags(old(paths))) == []
      ensures idx.None? ==> paths == old(paths) && rrCursor == old(rrCursor)
      ensures idx.Some? ==> old(rrCursor) < |old(paths)|
      ensures idx.Some? ==> idx.value == rrCursor == Advance(Flags(old(paths)), old(rrCursor), |old(paths)|)
      ensures idx.Some? && !sent ==> paths == old(paths)
      ensures sent ==> paths == old(paths)[rrCursor := old(paths)[rrCursor].(sent := old(paths)[rrCursor].sent + 1)]
    {
      var count := ActivePathCount();
      if count == 0 {
        return None, false;
      }
      ActivesFacts(Flags(paths), |paths|);
      StepCursor();
      if !socketOk {
        return Some(rrCursor), false;
      }
      var p := paths[rrCursor];
      paths := paths[rrCursor := p.(sent := p.sent + 1)];
      return Some(rrCursor), true;
    }

    method StepCursor()
      requires rrCursor < |paths|
      modifies this`rrCursor
      ensures rrCursor == Advance(Flags(paths), old(rrCursor), |paths|) < |paths|
    {
      ghost var flags := Flags(paths);
      ghost var goal := Advance(flags, rrCursor, |paths|);
      var n, k := |paths|, 0;
      while k < n
        invariant k <= n && rrCursor < n && Advance(flags, rrCursor, n - k) == goal
      {
        FirstTarget(rrCursor + 1, n);
        rrCursor := (rrCursor + 1) % n;
        if paths[rrCursor].active {
          break;
        }
        k := k + 1;
      }
    }
  }
}
