// Received packet numbers, their contiguous ranges, and the ACK frame.
module AckRanges {
  import opened Options
  import opened Bytes

  const ACK_RETAIN_WINDOW: nat := 8192

  type Range = (nat, nat)  // inclusive (start, end)

  ghost predicate Sorted(s: seq<nat>) { forall i, j | 0 <= i < j < |s| :: s[i] < s[j] }

  // Insert into an ascending list without duplicates.
  function InsertSorted(s: seq<nat>, p: nat): (r: seq<nat>) {
    if |s| == 0 || s[|s| - 1] < p then s + [p]
    else if s[|s| - 1] == p then s
    else InsertSorted(s[..|s| - 1], p) + [s[|s| - 1]]
  }

  lemma {:induction false} InsertSortedFacts(s: seq<nat>, p: nat)
    requires Sorted(s)
    ensures Sorted(InsertSorted(s, p))
    ensures forall x :: x in InsertSorted(s, p) <==> x in s || x == p
  {
    if |s| > 0 && s[|s| - 1] > p {
      var front, last := s[..|s| - 1], s[|s| - 1];
      InsertSortedFacts(front, p);
      assert s == front + [last];
      var t := InsertSorted(front, p);
      forall i | 0 <= i < |t| ensures t[i] < last { assert t[i] in t; }
    }
  }

  // Keep the numbers at or above the threshold.
  function PruneBelow(s: seq<nat>, t: nat): (r: seq<nat>) {
    if |s| == 0 then [] else if s[0] < t then PruneBelow(s[1..], t) else s
  }

  lemma {:induction false} PruneFacts(s: seq<nat>, t: nat)
    requires Sorted(s)
    ensures Sorted(PruneBelow(s, t))
    ensures forall x :: x in PruneBelow(s, t) <==> x in s && x >= t
  {
    if |s| > 0 && s[0] < t {
      PruneFacts(s[1..], t);
      assert forall x :: x in s <==> x == s[0] || x in s[1..];
    }
  }

  // The contiguous runs of an ascending list, from the largest down.
  function Runs(s: seq<nat>): (r: seq<Range>)
    ensures |s| > 0 ==> |r| > 0 && r[|r| - 1].0 == s[0]
    ensures |r| <= |s|
  {
    if |s| == 0 then []
    else if |s| == 1 then [(s[0], s[0])]
    else
      var t := Runs(s[1..]);
      if s[0] + 1 == s[1] then t[..|t| - 1] + [(s[0], t[|t| - 1].1)] else t + [(s[0], s[0])]
  }

  predicate Within(p: nat, r: Range) { r.0 <= p <= r.1 }

  // Non-empty ranges, descending, with a gap of at least one number between neighbours.
  ghost predicate Separated(r: seq<Range>) {
    && (forall i | 0 <= i < |r| :: r[i].0 <= r[i].1)
    && (forall i | 0 <= i < |r| - 1 :: r[i + 1].1 + 1 < r[i].0)
  }

  ghost predicate Covers(r: seq<Range>, p: nat) { exists i | 0 <= i < |r| :: Within(p, r[i]) }

  // The maximal contiguous runs of s in descending order.
  ghost predicate AreRuns(r: seq<Range>, s: seq<nat>) {
    Separated(r) && forall p: nat :: Covers(r, p) <==> p in s
  }

  lemma CoversSnoc(r: seq<Range>, last: Range, p: nat)
    ensures Covers(r + [last], p) <==> Covers(r, p) || Within(p, last)
  {
    var all := r + [last];
    if Covers(r, p) {
      var i :| 0 <= i < |r| && Within(p, r[i]);
      assert Within(p, all[i]);
    }
    if Within(p, last) { assert Within(p, all[|r|]); }
  }

  lemma SeparatedSnoc(r: seq<Range>, last: Range)
    requires Separated(r) && last.0 <= last.1 && (r != [] ==> last.1 + 1 < r[|r| - 1].0)
    ensures Separated(r + [last])
  {}

  // The runs of a longer list: the smallest number extends the last run, or is a run of its own.
  ghost predicate GrowsBy(t: seq<Range>, r: seq<Range>, n: nat) {
    && t != []
    && r == (if n + 1 == t[|t| - 1].0 then t[..|t| - 1] + [(n, t[|t| - 1].1)] else t + [(n, n)])
  }

  lemma RunsGrow(s: seq<nat>)
    requires |s| > 1
    ensures Runs(s[1..]) != [] && Runs(s[1..])[|Runs(s[1..])| - 1].0 == s[1]
    ensures GrowsBy(Runs(s[1..]), Runs(s), s[0])
  {}

  lemma GrowsSeparated(t: seq<Range>, r: seq<Range>, n: nat)
    requires GrowsBy(t, r, n) && Separated(t) && n < t[|t| - 1].0
    ensures Separated(r)
  {
    if n + 1 == t[|t| - 1].0 {
      SeparatedSnoc(t[..|t| - 1], (n, t[|t| - 1].1));
    } else {
      SeparatedSnoc(t, (n, n));
    }
  }

  lemma {:induction false} RunsSeparated(s: seq<nat>)
    requires Sorted(s)
    ensures Separated(Runs(s))
  {
    if |s| > 1 {
      RunsSeparated(s[1..]);
      RunsGrow(s);
      GrowsSeparated(Runs(s[1..]), Runs(s), s[0]);
    }
  }

  lemma OneRun(n: nat, p: nat)
    ensures Covers([(n, n)], p) <==> p == n
  {
    if p == n { assert Within(p, [(n, n)][0]); }
  }

  lemma ExtendsCover(front: seq<Range>, last: Range, n: nat, p: nat)
    requires last.0 == n + 1 <= last.1 + 1
    ensures Covers(front + [(n, last.1)], p) <==> Covers(front + [last], p) || p == n
  {
    hide Covers;
    CoversSnoc(front, last, p);
    CoversSnoc(front, (n, last.1), p);
  }

  lemma GrowsCover(t: seq<Range>, r: seq<Range>, n: nat, p: nat)
    requires GrowsBy(t, r, n) && n < t[|t| - 1].0 <= t[|t| - 1].1
    ensures Covers(r, p) <==> Covers(t, p) || p == n
  {
    hide Covers;
    var front, last := t[..|t| - 1], t[|t| - 1];
    assert t == front + [last];
    if n + 1 == last.0 { ExtendsCover(front, last, n, p); } else { CoversSnoc(t, (n, n), p); }
  }

  lemma MemberCons(s: seq<nat>, p: nat)
    requires s != []
    ensures p in s <==> p == s[0] || p in s[1..]
  {}

  lemma {:induction false} RunsCover(s: seq<nat>, p: nat)
    requires Sorted(s)
    ensures Covers(Runs(s), p) <==> p in s
  {
    if |s| == 1 {
      OneRun(s[0], p);
    } else if |s| > 1 {
      RunsCover(s[1..], p);
      RunsSeparated(s[1..]);
      RunsGrow(s);
      GrowsCover(Runs(s[1..]), Runs(s), s[0], p);
      MemberCons(s, p);
    }
  }

  lemma RunsAreRuns(s: seq<nat>)
    requires Sorted(s)
    ensures AreRuns(Runs(s), s)
  {
    RunsSeparated(s);
    forall p: nat ensures Covers(Runs(s), p) <==> p in s { RunsCover(s, p); }
  }

  // Maximal runs are unique: the frame says exactly one thing.
  lemma {:induction false} RunsUnique(a: seq<Range>, b: seq<Range>)
    requires Separated(a) && Separated(b) && forall p: nat :: Covers(a, p) <==> Covers(b, p)
    ensures a == b
  {
    if a == [] && b != [] { assert Within(b[0].1, b[0]); assert Covers(b, b[0].1); assert false; }
    if b == [] && a != [] { assert Within(a[0].1, a[0]); assert Covers(a, a[0].1); assert false; }
    if a != [] && b != [] {
      FirstRange(a, b);
      FirstRange(b, a);
      assert a[0] == b[0];
      forall p: nat ensures Covers(a[1..], p) <==> Covers(b[1..], p) {
        TailCovers(a, p);
        TailCovers(b, p);
      }
      RunsUnique(a[1..], b[1..]);
      assert a == [a[0]] + a[1..] && b == [b[0]] + b[1..];
    }
  }

  lemma {:induction false} Descending(r: seq<Range>, i: nat)
    requires Separated(r) && 0 < i < |r|
    ensures r[i].1 + 1 < r[0].0
  {
    if i > 1 { Descending(r, i - 1); }
  }

  lemma TailCovers(r: seq<Range>, p: nat)
    requires Separated(r) && r != []
    ensures Covers(r[1..], p) <==> Covers(r, p) && p < r[0].0
  {
    if Covers(r[1..], p) {
      var i :| 0 <= i < |r[1..]| && Within(p, r[1..][i]);
      Descending(r, i + 1);
      assert Within(p, r[i + 1]);
    }
    if Covers(r, p) && p < r[0].0 {
      var i :| 0 <= i < |r| && Within(p, r[i]);
      assert Within(p, r[1..][i - 1]);
    }
  }

  lemma FirstRange(a: seq<Range>, b: seq<Range>)
    requires Separated(a) && Separated(b) && a != [] && b != []
    requires forall p: nat :: Covers(a, p) <==> Covers(b, p)
    ensures a[0].1 <= b[0].1 && (a[0].1 == b[0].1 ==> b[0].0 <= a[0].0)
  {
    assert Within(a[0].1, a[0]) && Covers(a, a[0].1);
    var i :| 0 <= i < |b| && Within(a[0].1, b[i]);
    if i > 0 { Descending(b, i); }
    if a[0].1 == b[0].1 && a[0].0 < b[0].0 {
      // The number just below b[0] is covered by a but lies in b's gap.
      var p := b[0].0 - 1;
      assert Within(p, a[0]) && Covers(a, p);
      var j :| 0 <= j < |b| && Within(p, b[j]);
      if j > 0 { Descending(b, j); }
    }
  }

  // ---- The wire frame ----

  // The ranges fit below `start`, each with a gap, and fit 64 bits.
  ghost predicate Under(start: nat, rs: seq<Range>) {
    Separated(rs) && start < U64 && (|rs| > 0 ==> rs[0].1 + 1 < start)
  }

  lemma UnderTail(start: nat, rs: seq<Range>)
    requires Under(start, rs) && |rs| > 0
    ensures Under(rs[0].0, rs[1..])
  {
    if |rs| > 1 { assert rs[1..][0] == rs[1]; }
  }

  // (gap, length) pairs for the ranges below `start`.
  function EncodeTail(start: nat, rs: seq<Range>): seq<byte>
    requires Under(start, rs)
    decreases |rs|
  {
    if |rs| == 0 then []
    else
      UnderTail(start, rs);
      ToLE(start - rs[0].1 - 1, 8) + ToLE(rs[0].1 - rs[0].0, 8) + EncodeTail(rs[0].0, rs[1..])
  }

  type Frame = (nat, nat, seq<Range>)  // largest, ack delay, ranges

  // range_count is cast to 16 bits.
  function EncodeFrame(delay: nat, rs: seq<Range>): seq<byte>
    requires |rs| > 0 && Separated(rs) && rs[0].1 < U64
  {
    HeadUnder(rs);
    ToLE(rs[0].1, 8) + ToLE(delay, 8) + ToLE((|rs| - 1) % U16, 2) + ToLE(rs[0].1 - rs[0].0, 8)
    + EncodeTail(rs[0].0, rs[1..])
  }

  lemma HeadUnder(rs: seq<Range>)
    requires |rs| > 0 && Separated(rs) && rs[0].1 < U64
    ensures Under(rs[0].0, rs[1..])
  {
    if |rs| > 1 { assert rs[1..][0] == rs[1]; }
  }

  // gap + 1 wraps at 64 bits; an underflow of either subtraction rejects the frame.
  function ParseTail(frame: seq<byte>, off: nat, n: nat, start: nat): Option<seq<Range>>
    decreases n
  {
    if n == 0 then Some([])
    else if |frame| < off + 16 then None
    else
      var step := (FromLE(frame[off..off + 8]) + 1) % U64;
      var length := FromLE(frame[off + 8..off + 16]);
      if start < step || start - step < length then None
      else
        var end := start - step;
        var rest := ParseTail(frame, off + 16, n - 1, end - length);
        if rest.None? then None else Some([(end - length, end)] + rest.value)
  }

  function ParseFrame(frame: seq<byte>): Option<Frame> {
    if |frame| < 26 then None
    else
      var largest, delay := FromLE(frame[0..8]), FromLE(frame[8..16]);
      var n, first := FromLE(frame[16..18]), FromLE(frame[18..26]);
      var start := if first <= largest then largest - first else 0;
      var rest := ParseTail(frame, 26, n, start);
      if rest.None? then None else Some((largest, delay, [(start, largest)] + rest.value))
  }

  lemma LE8(n: nat)
    requires n < U64
    ensures FromLE(ToLE(n, 8)) == n
  {
    Widths();
    LERoundTrip(n, 8);
  }

  // The field at `off` is n in little endian.
  ghost predicate FieldIs(frame: seq<byte>, off: nat, len: nat, n: nat) {
    off + len <= |frame| && FromLE(frame[off..off + len]) == n
  }

  lemma FieldAt(pre: seq<byte>, field: seq<byte>, post: seq<byte>, n: nat)
    requires FromLE(field) == n
    ensures FieldIs(pre + field + post, |pre|, |field|, n)
  {
    assert (pre + field + post)[|pre|..|pre| + |field|] == field;
  }

  // The frame holds the pairs of rs from `off` on.
  ghost predicate HoldsTail(frame: seq<byte>, off: nat, start: nat, rs: seq<Range>)
    requires Under(start, rs)
    decreases |rs|
  {
    if |rs| == 0 then true
    else
      UnderTail(start, rs);
      && FieldIs(frame, off, 8, start - rs[0].1 - 1)
      && FieldIs(frame, off + 8, 8, rs[0].1 - rs[0].0)
      && HoldsTail(frame, off + 16, rs[0].0, rs[1..])
  }

  lemma TwoFields(pre: seq<byte>, a: seq<byte>, b: seq<byte>, rest: seq<byte>, m: nat, n: nat)
    requires |a| == |b| == 8 && FromLE(a) == m && FromLE(b) == n
    ensures FieldIs(pre + (a + b + rest), |pre|, 8, m)
    ensures FieldIs(pre + (a + b + rest), |pre| + 8, 8, n)
    ensures pre + (a + b + rest) == (pre + a + b) + rest
  {
    FieldAt(pre, a, b + rest, m);
    FieldAt(pre + a, b, rest, n);
    assert pre + a + (b + rest) == pre + (a + b + rest) == pre + a + b + rest;
  }

  lemma TailLists(start: nat, rs: seq<Range>)
    requires Under(start, rs) && rs != []
    ensures Under(rs[0].0, rs[1..]) && rs[0].0 <= rs[0].1 < start - 1 < U64
    ensures EncodeTail(start, rs) ==
      ToLE(start - rs[0].1 - 1, 8) + ToLE(rs[0].1 - rs[0].0, 8) + EncodeTail(rs[0].0, rs[1..])
  {
    hide ToLE;
    UnderTail(start, rs);
  }

  lemma HoldsNext(frame: seq<byte>, off: nat, start: nat, rs: seq<Range>)
    requires Under(start, rs) && rs != [] && Under(rs[0].0, rs[1..]) && rs[0].0 <= rs[0].1 < start - 1
    requires FieldIs(frame, off, 8, start - rs[0].1 - 1) && FieldIs(frame, off + 8, 8, rs[0].1 - rs[0].0)
    requires HoldsTail(frame, off + 16, rs[0].0, rs[1..])
    ensures HoldsTail(frame, off, start, rs)
  {
    hide FieldIs;
  }

  lemma {:induction false} EncodedTailHolds(pre: seq<byte>, start: nat, rs: seq<Range>)
    requires Under(start, rs)
    ensures HoldsTail(pre + EncodeTail(start, rs), |pre|, start, rs)
    decreases |rs|, 1
  {
    if |rs| > 0 { EncodedNext(pre, start, rs); }
  }

  lemma {:induction false} EncodedNext(pre: seq<byte>, start: nat, rs: seq<Range>)
    requires Under(start, rs) && rs != []
    ensures HoldsTail(pre + EncodeTail(start, rs), |pre|, start, rs)
    decreases |rs|, 0
  {
    hide EncodeTail, HoldsTail, ToLE, FromLE, FieldIs;
    TailLists(start, rs);
    var m, n := start - rs[0].1 - 1, rs[0].1 - rs[0].0;
    LE8(m);
    LE8(n);
    var rest := EncodeTail(rs[0].0, rs[1..]);
    TwoFields(pre, ToLE(m, 8), ToLE(n, 8), rest, m, n);
    EncodedTailHolds(pre + ToLE(m, 8) + ToLE(n, 8), rs[0].0, rs[1..]);
    HoldsNext(pre + EncodeTail(start, rs), |pre|, start, rs);
  }

  lemma {:induction false} HeldTailParses(frame: seq<byte>, off: nat, start: nat, rs: seq<Range>)
    requires Under(start, rs) && HoldsTail(frame, off, start, rs)
    ensures ParseTail(frame, off, |rs|, start) == Some(rs)
    decreases |rs|
  {
    if |rs| > 0 {
      UnderTail(start, rs);
      HeldTailParses(frame, off + 16, rs[0].0, rs[1..]);
      assert rs == [rs[0]] + rs[1..];
    }
  }

  lemma Regroup(a: seq<byte>, b: seq<byte>, c: seq<byte>, d: seq<byte>, e: seq<byte>)
    ensures a + b + c + d + e == [] + a + (b + c + d + e)
    ensures a + b + c + d + e == a + b + (c + d + e)
    ensures a + b + c + d + e == a + b + c + (d + e)
  {}

  lemma FourFields(a: seq<byte>, b: seq<byte>, c: seq<byte>, d: seq<byte>, tail: seq<byte>)
    requires |a| == |b| == |d| == 8 && |c| == 2
    ensures var f := a + b + c + d + tail;
      && FieldIs(f, 0, 8, FromLE(a)) && FieldIs(f, 8, 8, FromLE(b))
      && FieldIs(f, 16, 2, FromLE(c)) && FieldIs(f, 18, 8, FromLE(d))
  {
    Regroup(a, b, c, d, tail);
    FieldAt([], a, b + c + d + tail, FromLE(a));
    FieldAt(a, b, c + d + tail, FromLE(b));
    FieldAt(a + b, c, d + tail, FromLE(c));
    FieldAt(a + b + c, d, tail, FromLE(d));
  }

  // What the header fields say, for a frame given by its header and its tail.
  lemma ParseByFields(frame: seq<byte>, largest: nat, delay: nat, n: nat, first: nat, rest: seq<Range>)
    requires |frame| >= 26 && first <= largest
    requires FieldIs(frame, 0, 8, largest) && FieldIs(frame, 8, 8, delay) && FieldIs(frame, 16, 2, n)
    requires FieldIs(frame, 18, 8, first)
    requires ParseTail(frame, 26, n, largest - first) == Some(rest)
    ensures ParseFrame(frame) == Some((largest, delay, [(largest - first, largest)] + rest))
  {}

  lemma HeaderRoundTrip(a: seq<byte>, b: seq<byte>, c: seq<byte>, d: seq<byte>, delay: nat, rs: seq<Range>)
    requires |rs| > 0 && Separated(rs) && Under(rs[0].0, rs[1..])
    requires |a| == |b| == |d| == 8 && |c| == 2
    requires FromLE(a) == rs[0].1 && FromLE(b) == delay && FromLE(c) == |rs| - 1 && FromLE(d) == rs[0].1 - rs[0].0
    ensures ParseFrame(a + b + c + d + EncodeTail(rs[0].0, rs[1..])) == Some((rs[0].1, delay, rs))
  {
    FourFields(a, b, c, d, EncodeTail(rs[0].0, rs[1..]));
    EncodedTailHolds(a + b + c + d, rs[0].0, rs[1..]);
    FrameParses(a + b + c + d + EncodeTail(rs[0].0, rs[1..]), delay, rs);
  }

  // The header fields as numbers.
  lemma HeaderNumbers(delay: nat, rs: seq<Range>)
    requires |rs| > 0 && rs[0].0 <= rs[0].1 < U64 && delay < U64
    ensures FromLE(ToLE(rs[0].1, 8)) == rs[0].1 && FromLE(ToLE(delay, 8)) == delay
    ensures FromLE(ToLE(rs[0].1 - rs[0].0, 8)) == rs[0].1 - rs[0].0
  {
    LE8(rs[0].1);
    LE8(delay);
    LE8(rs[0].1 - rs[0].0);
  }

  lemma HeaderCount(n: nat)
    requires n < U16
    ensures FromLE(ToLE(n % U16, 2)) == n
  {
    FitsU16(n);
    LE2(n % U16);
  }

  lemma FitsU16(n: nat)
    requires n < U16
    ensures n % U16 == n
  {}

  lemma FrameRoundTrip(delay: nat, rs: seq<Range>)
    requires |rs| > 0 && Separated(rs) && rs[0].1 < U64 && delay < U64 && |rs| - 1 < U16
    ensures ParseFrame(EncodeFrame(delay, rs)) == Some((rs[0].1, delay, rs))
  {
    HeadUnder(rs);
    HeaderNumbers(delay, rs);
    HeaderCount(|rs| - 1);
    HeaderRoundTrip(ToLE(rs[0].1, 8), ToLE(delay, 8), ToLE((|rs| - 1) % U16, 2), ToLE(rs[0].1 - rs[0].0, 8), delay, rs);
  }

  lemma LE2(n: nat)
    requires n < U16
    ensures FromLE(ToLE(n, 2)) == n
  {
    Widths();
    LERoundTrip(n, 2);
  }

  lemma HeadAndTail(rs: seq<Range>)
    requires |rs| > 0 && rs[0].0 <= rs[0].1
    ensures [(rs[0].1 - (rs[0].1 - rs[0].0), rs[0].1)] + rs[1..] == rs
  {}

  lemma FrameParses(frame: seq<byte>, delay: nat, rs: seq<Range>)
    requires |rs| > 0 && rs[0].0 <= rs[0].1 && Under(rs[0].0, rs[1..]) && |frame| >= 26
    requires FieldIs(frame, 0, 8, rs[0].1) && FieldIs(frame, 8, 8, delay)
    requires FieldIs(frame, 16, 2, |rs| - 1) && FieldIs(frame, 18, 8, rs[0].1 - rs[0].0)
    requires HoldsTail(frame, 26, rs[0].0, rs[1..])
    ensures ParseFrame(frame) == Some((rs[0].1, delay, rs))
  {
    HeldTailParses(frame, 26, rs[0].0, rs[1..]);
    HeadAndTail(rs);
    ParseByFields(frame, rs[0].1, delay, |rs| - 1, rs[0].1 - rs[0].0, rs[1..]);
  }

  // ---- The tracker ----

  datatype AckState = AckState(received: seq<nat>, largest: nat, receivedAt: Option<nat>, pending: bool)
  {
    // Ascending 64-bit numbers within the retention window below the largest one.
    ghost predicate Valid() {
      && Sorted(received)
      && (|received| > 0 ==> received[|received| - 1] == largest < U64 && largest - received[0] <= ACK_RETAIN_WINDOW)
      && (pending ==> |received| > 0)
    }

    // The largest number once pn has been seen.
    function Top(pn: nat): nat { if pn > largest || received == [] then pn else largest }

    function OnReceived(pn: nat, eliciting: bool, now: nat): (a: AckState)
      requires Valid() && pn < U64
      ensures a.Valid()
    {
      OnReceivedFacts(this, pn);
      AckState(
        Retain(received, pn, Top(pn)),
        Top(pn),
        if pn > largest || received == [] then Some(now) else receivedAt,
        pending || eliciting)
    }

    function AckDelay(now: nat): nat {
      if receivedAt.None? then 0 else SaturatingSub(now, receivedAt.value) % U64
    }

    // The frame payload; the pending flag is cleared by building it.
    function Payload(now: nat): seq<byte>
      requires Valid()
    {
      if received == [] then EmptyFrame()
      else
        RunsFrame(received);
        EncodeFrame(AckDelay(now), Runs(received))
    }
  }

  function EmptyFrame(): seq<byte> { ToLE(0, 8) + ToLE(0, 8) + ToLE(0, 2) + ToLE(0, 8) }

  // received.insert(pn), then prune below the retention window.
  function Retain(s: seq<nat>, pn: nat, top: nat): seq<nat> {
    PruneBelow(InsertSorted(s, pn), SaturatingSub(top, ACK_RETAIN_WINDOW))
  }

  lemma RetainFacts(s: seq<nat>, pn: nat, top: nat)
    requires Sorted(s)
    ensures Sorted(Retain(s, pn, top))
    ensures forall x :: x in Retain(s, pn, top) <==> (x in s || x == pn) && x + ACK_RETAIN_WINDOW >= top
  {
    InsertSortedFacts(s, pn);
    PruneFacts(InsertSorted(s, pn), SaturatingSub(top, ACK_RETAIN_WINDOW));
  }

  // The last entry of an ascending list is its maximum.
  lemma SortedLast(s: seq<nat>, top: nat)
    requires Sorted(s) && top in s && forall x | x in s :: x <= top
    ensures |s| > 0 && s[|s| - 1] == top
  {
    var i :| 0 <= i < |s| && s[i] == top;
    assert s[|s| - 1] in s;
  }

  lemma OnReceivedFacts(a: AckState, pn: nat)
    requires a.Valid() && pn < U64
    ensures var r := Retain(a.received, pn, a.Top(pn));
      Sorted(r) && |r| > 0 && r[|r| - 1] == a.Top(pn) && a.Top(pn) - r[0] <= ACK_RETAIN_WINDOW && a.Top(pn) < U64
  {
    var r, top := Retain(a.received, pn, a.Top(pn)), a.Top(pn);
    RetainFacts(a.received, pn, top);
    if a.received != [] { assert a.received[|a.received| - 1] in a.received; }
    forall x | x in r ensures x <= top {
      if x in a.received { var i :| 0 <= i < |a.received| && a.received[i] == x; }
    }
    SortedLast(r, top);
    assert r[0] in r;
  }

  // The runs of a non-empty list can be encoded.
  lemma {:induction false} RunsFrame(s: seq<nat>)
    requires Sorted(s) && |s| > 0 && s[|s| - 1] < U64
    ensures |Runs(s)| > 0 && Separated(Runs(s)) && Runs(s)[0].1 == s[|s| - 1]
  {
    RunsAreRuns(s);
    if |s| > 1 { RunsFrame(s[1..]); }
  }

  // Runs with gaps between them take at least two numbers each: they fit 16 bits.
  lemma {:induction false} RunsFewer(s: seq<nat>)
    requires Sorted(s) && |s| > 0
    ensures 2 * (|Runs(s)| - 1) <= s[|s| - 1] - s[0]
  {
    if |s| > 1 {
      RunsFewer(s[1..]);
      assert s[1..][|s| - 2] == s[|s| - 1];
    }
  }

  // The headline for one frame: it parses back to the maximal runs of the retained set.
  lemma PayloadRoundTrip(a: AckState, now: nat)
    requires a.Valid() && a.received != []
    ensures ParseFrame(a.Payload(now)) == Some((a.largest, a.AckDelay(now), Runs(a.received)))
    ensures AreRuns(Runs(a.received), a.received)
  {
    RunsFrame(a.received);
    RunsFewer(a.received);
    RunsAreRuns(a.received);
    FrameRoundTrip(a.AckDelay(now), Runs(a.received));
  }

  // An empty frame would be read as acknowledging packet 0.
  lemma EmptyFrameAcksZero()
    ensures ParseFrame(EmptyFrame()) == Some((0, 0, [(0, 0)]))
  {
    FrameRoundTrip(0, [(0, 0)]);
    EmptyFrameIsZeroAck();
  }

  lemma EmptyFrameIsZeroAck()
    ensures EmptyFrame() == EncodeFrame(0, [(0, 0)])
  {}

  // ---- Whole histories ----

  function New(): AckState { AckState([], 0, None, false) }

  datatype Arrival = Arrival(pn: nat, eliciting: bool, now: nat)

  ghost predicate Numbers(h: seq<Arrival>) { forall i | 0 <= i < |h| :: h[i].pn < U64 }

  function After(h: seq<Arrival>): (a: AckState)
    requires Numbers(h)
    ensures a.Valid()
  {
    if h == [] then New()
    else
      var last := h[|h| - 1];
      After(h[..|h| - 1]).OnReceived(last.pn, last.eliciting, last.now)
  }

  ghost predicate Seen(h: seq<Arrival>, p: nat) { exists i | 0 <= i < |h| :: h[i].pn == p }

  ghost predicate IsMax(h: seq<Arrival>, m: nat) { Seen(h, m) && forall i | 0 <= i < |h| :: h[i].pn <= m }

  lemma SeenSnoc(h: seq<Arrival>, last: Arrival, p: nat)
    ensures Seen(h + [last], p) <==> Seen(h, p) || p == last.pn
  {
    var all := h + [last];
    if Seen(h, p) {
      var i :| 0 <= i < |h| && h[i].pn == p;
      assert all[i].pn == p;
    }
    if p == last.pn { assert all[|h|].pn == p; }
  }

  // The state after the history h.
  ghost predicate Reflects(a: AckState, h: seq<Arrival>) {
    && a.received != [] && IsMax(h, a.largest)
    && forall p: nat :: p in a.received <==> Seen(h, p) && p + ACK_RETAIN_WINDOW >= a.largest
  }

  lemma ReflectsStep(a: AckState, h: seq<Arrival>, last: Arrival)
    requires a.Valid() && last.pn < U64
    requires if h == [] then a == New() else Reflects(a, h)
    ensures Reflects(a.OnReceived(last.pn, last.eliciting, last.now), h + [last])
  {
    var b := a.OnReceived(last.pn, last.eliciting, last.now);
    RetainFacts(a.received, last.pn, a.Top(last.pn));
    SeenSnoc(h, last, b.largest);
    assert Seen(h + [last], b.largest);
    forall p: nat ensures p in b.received <==> Seen(h + [last], p) && p + ACK_RETAIN_WINDOW >= b.largest {
      SeenSnoc(h, last, p);
    }
  }

  lemma AfterLast(h: seq<Arrival>)
    requires Numbers(h) && h != []
    ensures var last := h[|h| - 1]; After(h) == After(h[..|h| - 1]).OnReceived(last.pn, last.eliciting, last.now)
  {}

  // largest_received is the maximum of the history, and the retained set is exactly
  // what was ever received within 8192 below it.
  lemma {:induction false} HistoryRetained(h: seq<Arrival>)
    requires Numbers(h) && h != []
    ensures Reflects(After(h), h)
  {
    var front, last := h[..|h| - 1], h[|h| - 1];
    assert h == front + [last];
    if front != [] { HistoryRetained(front); }
    ReflectsStep(After(front), front, last);
    AfterLast(h);
  }

  // ---- The methods ----

  // Walk downward from the largest number, forming contiguous ranges.
  method BuildRanges(received: seq<nat>) returns (ranges: seq<Range>)
    requires received != []
    ensures ranges == Runs(received)
  {
    var i := |received| - 1;
    var curEnd, curStart := received[i], received[i];
    ranges := [];
    while i > 0
      invariant 0 <= i < |received| && curStart == received[i]
      invariant ranges + [(curStart, curEnd)] == Runs(received[i..])
    {
      i := i - 1;
      var pn := received[i];
      assert received[i..][1..] == received[i + 1..];
      if pn + 1 == curStart {
        curStart := pn;
      } else {
        ranges := ranges + [(curStart, curEnd)];
        curEnd := pn;
        curStart := pn;
      }
    }
    assert received[0..] == received;
    ranges := ranges + [(curStart, curEnd)];
  }

  lemma EncodeTailStep(out: seq<byte>, start: nat, rs: seq<Range>)
    requires Under(start, rs) && rs != []
    ensures Under(rs[0].0, rs[1..]) && rs[0].0 <= rs[0].1 < start - 1
    ensures out + EncodeTail(start, rs) ==
      out + ToLE(start - rs[0].1 - 1, 8) + ToLE(rs[0].1 - rs[0].0, 8) + EncodeTail(rs[0].0, rs[1..])
  {
    UnderTail(start, rs);
    var a, b, t := ToLE(start - rs[0].1 - 1, 8), ToLE(rs[0].1 - rs[0].0, 8), EncodeTail(rs[0].0, rs[1..]);
    assert EncodeTail(start, rs) == a + b + t;
    assert out + (a + b + t) == out + a + b + t;
  }

  lemma EncodeNothing(start: nat)
    requires Under(start, [])
    ensures EncodeTail(start, []) == []
  {}

  // Append the (gap, length) pairs of the ranges below prevStart.
  method AppendPairs(head: seq<byte>, first: nat, extra: seq<Range>) returns (out: seq<byte>)
    requires Under(first, extra)
    ensures out == head + EncodeTail(first, extra)
  {
    hide EncodeTail, ToLE, Under;
    out := head;
    var prevStart := first;
    assert extra[0..] == extra;
    for i := 0 to |extra|
      invariant Under(prevStart, extra[i..])
      invariant out + EncodeTail(prevStart, extra[i..]) == head + EncodeTail(first, extra)
    {
      var (start, end) := extra[i];
      ghost var rest := extra[i..];
      assert rest[0] == (start, end) && rest[1..] == extra[i + 1..];
      EncodeTailStep(out, prevStart, rest);
      out := out + ToLE(prevStart - end - 1, 8) + ToLE(end - start, 8);
      prevStart := start;
    }
    EncodeNothing(prevStart);
  }

  // Read range_count pairs.
  method ParsePairs(frame: seq<byte>, n: nat, first: nat) returns (r: Option<seq<Range>>)
    ensures r == ParseTail(frame, 26, n, first)
  {
    var ranges: seq<Range> := [];
    var off: nat, curStart: nat := 26, first;
    PrependNothing(ParseTail(frame, 26, n, first));
    for i := 0 to n
      invariant i <= n
      invariant ParseTail(frame, 26, n, first) == Prepend(ranges, ParseTail(frame, off, n - i, curStart))
    {
      if |frame| < off + 16 {
        return None;
      }
      var gap := FromLE(frame[off..off + 8]);
      var length := FromLE(frame[off + 8..off + 16]);
      var step := (gap + 1) % U64;
      if curStart < step || curStart - step < length {
        return None;
      }
      PrependStep(ranges, frame, off, n - i, curStart);
      off := off + 16;
      var curEnd := curStart - step;
      curStart := curEnd - length;
      ranges := ranges + [(curStart, curEnd)];
    }
    assert ranges + [] == ranges;
    return Some(ranges);
  }

  lemma PrependNothing(b: Option<seq<Range>>)
    ensures Prepend([], b) == b
  {
    if b.Some? { assert [] + b.value == b.value; }
  }

  function Prepend(a: seq<Range>, b: Option<seq<Range>>): Option<seq<Range>> {
    if b.None? then None else Some(a + b.value)
  }

  lemma PrependStep(ranges: seq<Range>, frame: seq<byte>, off: nat, n: nat, start: nat)
    requires n > 0 && |frame| >= off + 16
    requires var step := (FromLE(frame[off..off + 8]) + 1) % U64;
      start >= step && start - step >= FromLE(frame[off + 8..off + 16])
    ensures var end := start - (FromLE(frame[off..off + 8]) + 1) % U64;
      var next := end - FromLE(frame[off + 8..off + 16]);
      Prepend(ranges, ParseTail(frame, off, n, start)) ==
      Prepend(ranges + [(next, end)], ParseTail(frame, off + 16, n - 1, next))
  {
    var end := start - (FromLE(frame[off..off + 8]) + 1) % U64;
    var next := end - FromLE(frame[off + 8..off + 16]);
    var rest := ParseTail(frame, off + 16, n - 1, next);
    if rest.Some? {
      assert ranges + ([(next, end)] + rest.value) == ranges + [(next, end)] + rest.value;
    }
  }

  method ParseAckFrame(frame: seq<byte>) returns (r: Option<Frame>)
    ensures r == ParseFrame(frame)
  {
    if |frame| < 26 {
      return None;
    }
    var largest, delay := FromLE(frame[0..8]), FromLE(frame[8..16]);
    var n, first := FromLE(frame[16..18]), FromLE(frame[18..26]);
    var start := SaturatingSub(largest, first);
    var rest := ParsePairs(frame, n, start);
    if rest.None? {
      return None;
    }
    return Some((largest, delay, [(start, largest)] + rest.value));
  }

  class Tracker {
    var received: seq<nat>
    var largestReceived: nat
    var receivedAt: Option<nat>
    var ackPending: bool

    function View(): AckState
      reads this
    {
      AckState(received, largestReceived, receivedAt, ackPending)
    }

    constructor ()
      ensures View() == New() && View().Valid()
    {
      received, largestReceived, receivedAt, ackPending := [], 0, None, false;
    }

    method OnReceived(pn: nat, eliciting: bool, now: nat)
      requires View().Valid() && pn < U64
      modifies this
      ensures View() == old(View()).OnReceived(pn, eliciting, now)
    {
      if pn > largestReceived || received == [] {
        largestReceived := pn;
        receivedAt := Some(now);
      }
      received := InsertSorted(received, pn);
      if eliciting {
        ackPending := true;
      }
      received := PruneBelow(received, SaturatingSub(largestReceived, ACK_RETAIN_WINDOW));
    }

    method BuildFrame(now: nat) returns (out: seq<byte>)
      requires View().Valid()
      modifies this
      ensures out == old(View()).Payload(now)
      ensures View() == old(View()).(pending := false)
    {
      ackPending := false;
      if received == [] {
        return EmptyFrame();
      }
      RunsFrame(received);
      var ranges := BuildRanges(received);
      HeadUnder(ranges);
      var delay := View().AckDelay(now);
      var (start, largest) := ranges[0];
      var head := ToLE(largest, 8) + ToLE(delay, 8) + ToLE((|ranges| - 1) % U16, 2) + ToLE(largest - start, 8);
      out := AppendPairs(head, start, ranges[1..]);
    }
  }
}
