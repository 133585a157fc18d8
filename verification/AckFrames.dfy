// What an ACK frame says, byte by byte and over whole histories.
module AckFrames {
  import opened Options
  import opened Bytes
  import opened AckRanges

  // ---- Any bytes ----

  // The range ends its gap plus one below the previous start, modulo 2^64, and begins its length below that.
  ghost predicate Pair(frame: seq<byte>, at: nat, prev: nat, r: Range)
    requires at + 16 <= |frame|
  {
    r.1 + (FromLE(frame[at..at + 8]) + 1) % U64 == prev && r.0 + FromLE(frame[at + 8..at + 16]) == r.1
  }

  ghost predicate PairAt(frame: seq<byte>, off: nat, start: nat, rs: seq<Range>, i: nat)
    requires i < |rs| && off + 16 * |rs| <= |frame|
  {
    Pair(frame, off + 16 * i, if i == 0 then start else rs[i - 1].0, rs[i])
  }

  // The pairs from `off` on describe the ranges rs below `start`.
  ghost predicate Describes(frame: seq<byte>, off: nat, start: nat, rs: seq<Range>) {
    off + 16 * |rs| <= |frame| && forall i | 0 <= i < |rs| :: PairAt(frame, off, start, rs, i)
  }

  lemma PairShift(frame: seq<byte>, off: nat, start: nat, rs: seq<Range>, i: nat)
    requires i + 1 < |rs| && off + 16 * |rs| <= |frame|
    ensures PairAt(frame, off, start, rs, i + 1) <==> PairAt(frame, off + 16, rs[0].0, rs[1..], i)
  {
    hide Pair;
    assert rs[1..][i] == rs[i + 1];
    assert off + 16 * (i + 1) == off + 16 + 16 * i;
  }

  lemma DescribesCons(frame: seq<byte>, off: nat, start: nat, rs: seq<Range>)
    requires rs != []
    ensures Describes(frame, off, start, rs) <==>
      off + 16 <= |frame| && Pair(frame, off, start, rs[0]) && Describes(frame, off + 16, rs[0].0, rs[1..])
  {
    hide Pair, PairAt;
    if off + 16 * |rs| <= |frame| {
      FirstPair(frame, off, start, rs);
      if Describes(frame, off, start, rs) {
        var next, tail := off + 16, rs[1..];
        forall i | 0 <= i < |tail| ensures PairAt(frame, next, rs[0].0, tail, i) {
          PairShift(frame, off, start, rs, i);
        }
      }
      if Describes(frame, off + 16, rs[0].0, rs[1..]) && PairAt(frame, off, start, rs, 0) {
        forall i | 0 <= i < |rs| ensures PairAt(frame, off, start, rs, i) {
          if i > 0 { PairShift(frame, off, start, rs, i - 1); }
        }
      }
    }
  }

  lemma FirstPair(frame: seq<byte>, off: nat, start: nat, rs: seq<Range>)
    requires rs != [] && off + 16 * |rs| <= |frame|
    ensures PairAt(frame, off, start, rs, 0) <==> Pair(frame, off, start, rs[0])
  {}

  // One pair decides one range.
  lemma PairIs(frame: seq<byte>, at: nat, prev: nat, r: Range)
    requires at + 16 <= |frame|
    ensures var step, length := (FromLE(frame[at..at + 8]) + 1) % U64, FromLE(frame[at + 8..at + 16]);
      Pair(frame, at, prev, r) <==> prev >= step + length && r == (prev - step - length, prev - step)
  {}

  lemma {:induction false} TailExactly(frame: seq<byte>, off: nat, n: nat, start: nat, rs: seq<Range>)
    requires off <= |frame|
    ensures ParseTail(frame, off, n, start) == Some(rs) <==> |rs| == n && Describes(frame, off, start, rs)
    decreases n
  {
    hide Describes, Pair, FromLE;
    if n == 0 {
      NoPairs(frame, off, start);
    } else if rs != [] {
      DescribesCons(frame, off, start, rs);
      if off + 16 <= |frame| {
        PairIs(frame, off, start, rs[0]);
        TailExactly(frame, off + 16, n - 1, rs[0].0, rs[1..]);
        ConsIs(rs[0], rs[1..], rs);
        var step, length := (FromLE(frame[off..off + 8]) + 1) % U64, FromLE(frame[off + 8..off + 16]);
        if start >= step + length {
          var rest := ParseTail(frame, off + 16, n - 1, start - step - length);
          if rest.Some? { ConsIs((start - step - length, start - step), rest.value, rs); }
        }
      }
    }
  }

  lemma NoPairs(frame: seq<byte>, off: nat, start: nat)
    requires off <= |frame|
    ensures Describes(frame, off, start, [])
  {}

  lemma ConsIs(r: Range, rest: seq<Range>, rs: seq<Range>)
    ensures rs == [r] + rest <==> rs != [] && rs[0] == r && rs[1..] == rest
  {
    if rs != [] && rs[0] == r && rs[1..] == rest { assert rs == [r] + rest; }
  }

  // The bytes say this frame: largest number, delay, count, length of the first range, then the pairs.
  ghost predicate Says(frame: seq<byte>, f: Frame) {
    && |frame| >= 26 && FromLE(frame[0..8]) == f.0 && FromLE(frame[8..16]) == f.1
    && |f.2| == FromLE(frame[16..18]) + 1
    && f.2[0] == (SaturatingSub(f.0, FromLE(frame[18..26])), f.0)
    && Describes(frame, 26, f.2[0].0, f.2[1..])
  }

  // Any bytes are read as a frame exactly when they say it; bytes that are cut short or count below zero say nothing.
  lemma ParseExactly(frame: seq<byte>, f: Frame)
    ensures ParseFrame(frame) == Some(f) <==> Says(frame, f)
  {
    hide Describes, ParseTail;
    if |frame| >= 26 && f.2 != [] {
      var largest, first := FromLE(frame[0..8]), FromLE(frame[18..26]);
      var start := SaturatingSub(largest, first);
      TailExactly(frame, 26, FromLE(frame[16..18]), start, f.2[1..]);
      assert f.2 == [f.2[0]] + f.2[1..];
      if ParseFrame(frame) == Some(f) {
        var rest := ParseTail(frame, 26, FromLE(frame[16..18]), start);
        assert f.2 == [(start, largest)] + rest.value;
        assert f.2[1..] == rest.value;
      }
    }
  }

  // The ranges that any bytes are read as are non-empty and lie below one another, unless a gap field is 2^64 - 1.
  lemma ParsedDescends(frame: seq<byte>, i: nat)
    requires ParseFrame(frame).Some? && i + 1 < |ParseFrame(frame).value.2|
    ensures var rs := ParseFrame(frame).value.2;
      && rs[i].0 <= rs[i].1 && rs[i + 1].0 <= rs[i + 1].1 <= rs[i].0
      && 26 + 16 * i + 8 <= |frame|
      && (rs[i + 1].1 < rs[i].0 <==> FromLE(frame[26 + 16 * i..34 + 16 * i]) != U64 - 1)
  {
    hide ParseFrame;
    var f := ParseFrame(frame).value;
    var rs := f.2;
    ParseExactly(frame, f);
    assert PairAt(frame, 26, rs[0].0, rs[1..], i);
    if i > 0 { assert PairAt(frame, 26, rs[0].0, rs[1..], i - 1); }
    LEBound(frame[26 + 16 * i..34 + 16 * i]);
    Widths();
  }

  // ---- Whole histories ----

  // Arrival i is the first one of the largest number of the history.
  ghost predicate FirstOf(h: seq<Arrival>, i: nat) {
    && i < |h| && (forall j | 0 <= j < i :: h[j].pn < h[i].pn) && (forall j | i < j < |h| :: h[j].pn <= h[i].pn)
  }

  // When the largest number of the history first arrived.
  ghost predicate FirstAt(h: seq<Arrival>, at: nat) { exists i | 0 <= i < |h| :: FirstOf(h, i) && h[i].now == at }

  ghost predicate Asked(h: seq<Arrival>) { exists i | 0 <= i < |h| :: h[i].eliciting }

  ghost predicate TimedBy(a: AckState, h: seq<Arrival>) {
    && (h == [] ==> a == New())
    && (h != [] ==> a.receivedAt.Some? && FirstAt(h, a.receivedAt.value))
    && (a.pending <==> Asked(h))
  }

  lemma FirstKept(h: seq<Arrival>, last: Arrival, i: nat)
    requires FirstOf(h, i) && last.pn <= h[i].pn
    ensures FirstOf(h + [last], i) && (h + [last])[i] == h[i]
  {}

  lemma FirstNew(h: seq<Arrival>, last: Arrival)
    requires forall j | 0 <= j < |h| :: h[j].pn < last.pn
    ensures FirstOf(h + [last], |h|) && (h + [last])[|h|] == last
  {}

  lemma FirstSnoc(h: seq<Arrival>, last: Arrival, at: nat, largest: nat)
    requires FirstAt(h, at) && IsMax(h, largest)
    ensures FirstAt(h + [last], if last.pn > largest then last.now else at)
  {
    if last.pn > largest {
      FirstNew(h, last);
    } else {
      var i :| 0 <= i < |h| && FirstOf(h, i) && h[i].now == at;
      var m :| 0 <= m < |h| && h[m].pn == largest;
      assert h[i].pn == largest;
      FirstKept(h, last, i);
    }
  }

  lemma AskedSnoc(h: seq<Arrival>, last: Arrival)
    ensures Asked(h + [last]) <==> Asked(h) || last.eliciting
  {
    var all := h + [last];
    if Asked(h) {
      var i :| 0 <= i < |h| && h[i].eliciting;
      assert all[i].eliciting;
    }
    if last.eliciting { assert all[|h|].eliciting; }
  }

  lemma TimedStep(a: AckState, h: seq<Arrival>, last: Arrival)
    requires a.Valid() && last.pn < U64 && TimedBy(a, h) && (h != [] ==> Reflects(a, h))
    ensures TimedBy(a.OnReceived(last.pn, last.eliciting, last.now), h + [last])
  {
    hide FirstAt, Asked, Retain;
    AskedSnoc(h, last);
    if h == [] {
      FirstAlone(last);
      assert h + [last] == [last];
    } else {
      FirstSnoc(h, last, a.receivedAt.value, a.largest);
    }
  }

  lemma {:induction false} HistoryTimed(h: seq<Arrival>)
    requires Numbers(h)
    ensures TimedBy(After(h), h)
  {
    hide TimedBy, Reflects, AckState.OnReceived;
    if h == [] {
      NobodyAsked();
    } else {
      var front, last := h[..|h| - 1], h[|h| - 1];
      assert h == front + [last];
      HistoryTimed(front);
      if front != [] { HistoryRetained(front); }
      TimedStep(After(front), front, last);
    }
  }

  lemma NobodyAsked()
    ensures TimedBy(New(), [])
  {}

  lemma FirstAlone(last: Arrival)
    ensures FirstAt([last], last.now)
  {
    FirstNew([], last);
    assert [] + [last] == [last];
  }

  // The frame built now is read as the largest number, the time since `at`, when it first arrived, and the runs.
  ghost predicate Reports(h: seq<Arrival>, now: nat, at: nat)
    requires Numbers(h)
  {
    var a := After(h);
    FirstAt(h, at) && ParseFrame(a.Payload(now)) == Some((a.largest, SaturatingSub(now, at) % U64, Runs(a.received)))
  }

  // After any history an ACK is pending exactly when some arrival asked for one, and the frame reports the largest
  // number received, the time since it first arrived, and the maximal runs of what the window retains.
  lemma FrameReports(h: seq<Arrival>, now: nat)
    requires Numbers(h) && h != []
    ensures After(h).pending <==> Asked(h)
    ensures Reflects(After(h), h) && AreRuns(Runs(After(h).received), After(h).received)
    ensures exists at :: Reports(h, now, at)
  {
    hide FirstAt, Asked, ParseFrame, AckState.Payload, Reflects;
    var a := After(h);
    HistoryTimed(h);
    HistoryRetained(h);
    NotEmpty(a, h);
    PayloadRoundTrip(a, now);
    assert Reports(h, now, a.receivedAt.value);
  }

  lemma NotEmpty(a: AckState, h: seq<Arrival>)
    requires Reflects(a, h)
    ensures a.received != []
  {}
}
