// Whole runs of deliveries and reads on one stream.
module StreamRuns {
  import opened Options
  import opened Bytes
  import opened Stream

  // segs cuts w into consecutive non-empty pieces.
  ghost predicate Cuts(segs: seq<Seg>, w: seq<byte>) {
    && (forall i | 0 <= i < |segs| :: PieceOf(segs[i], w))
    && (forall i | 0 <= i < |segs| - 1 :: End(segs[i]) == segs[i + 1].0)
    && (if segs == [] then w == [] else segs[0].0 == 0 && End(segs[|segs| - 1]) == |w|)
  }

  lemma {:induction false} CutsAscend(segs: seq<Seg>, w: seq<byte>, i: nat, j: nat)
    requires Cuts(segs, w) && i < j < |segs|
    ensures End(segs[i]) <= segs[j].0
    decreases j
  {
    if i < j - 1 { CutsAscend(segs, w, i, j - 1); assert PieceOf(segs[j - 1], w); }
  }

  lemma CutsApart(segs: seq<Seg>, w: seq<byte>, g: Seg, h: Seg)
    requires Cuts(segs, w) && g in segs && h in segs
    ensures Apart(g, h)
  {
    var i :| 0 <= i < |segs| && segs[i] == g;
    var j :| 0 <= j < |segs| && segs[j] == h;
    if i < j { CutsAscend(segs, w, i, j); } else if j < i { CutsAscend(segs, w, j, i); }
  }

  // Every position of w lies in one of the pieces.
  lemma {:induction false} CutsCover(segs: seq<Seg>, w: seq<byte>, p: nat, n: nat) returns (i: nat)
    requires Cuts(segs, w) && n < |segs| && p < End(segs[n])
    ensures i < |segs| && segs[i].0 <= p < End(segs[i])
    decreases n
  {
    if segs[n].0 <= p { i := n; } else { i := CutsCover(segs, w, p, n - 1); }
  }

  datatype Event = Deliver(i: nat) | ReadUpTo(maxBytes: nat)

  // The receive side after a run of deliveries and reads, with everything read so far.
  function Run(segs: seq<Seg>, events: seq<Event>): Option<(StreamState, seq<byte>)>
    requires Indexed(segs, events)
  {
    if events == [] then Some((New(), []))
    else
      var before := Run(segs, events[..|events| - 1]);
      if before.None? then None
      else
        match events[|events| - 1]
        case Deliver(i) => Some((before.value.0.Receive(segs[i], false).0, before.value.1))
        case ReadUpTo(m) =>
          var r := before.value.0.Read(m);
          if r.None? then None else Some((r.value.0, before.value.1 + r.value.1))
  }

  ghost predicate Indexed(segs: seq<Seg>, events: seq<Event>) {
    forall n | 0 <= n < |events| && events[n].Deliver? :: events[n].i < |segs|
  }

  ghost predicate FromSegs(s: StreamState, segs: seq<Seg>) { forall x | x in s.recvBuf :: x in segs }

  ghost predicate RunGood(s: StreamState, out: seq<byte>, segs: seq<Seg>, w: seq<byte>) {
    Receiving(s, w) && FromSegs(s, segs) && s.recvMax == DEFAULT_WINDOW && out == w[..s.recvOffset]
  }

  lemma DeliverGood(s: StreamState, out: seq<byte>, segs: seq<Seg>, w: seq<byte>, g: Seg)
    requires Cuts(segs, w) && |w| <= DEFAULT_WINDOW && RunGood(s, out, segs, w) && g in segs
    ensures RunGood(s.Receive(g, false).0, out, segs, w) && s.Receive(g, false).1.Ok?
    ensures PieceOf(g, w) && ApartFromAll(g, s.recvBuf)
  {
    var i :| 0 <= i < |segs| && segs[i] == g;
    forall j | 0 <= j < |s.recvBuf| ensures Apart(g, s.recvBuf[j]) {
      assert s.recvBuf[j] in s.recvBuf;
      CutsApart(segs, w, g, s.recvBuf[j]);
    }
    ReceiveKeeps(s, w, g, false);
    if End(g) > s.recvOffset { InsertSegFacts(s.recvBuf, g); }
  }

  lemma ReadGood(s: StreamState, out: seq<byte>, segs: seq<Seg>, w: seq<byte>, m: nat)
    requires RunGood(s, out, segs, w)
    ensures s.Read(m).Some? && RunGood(s.Read(m).value.0, out + s.Read(m).value.1, segs, w)
  {
    ReadKeeps(s, w, m);
    var t := s.Read(m).value.0;
    hide Receiving, Exhausted;
    SliceJoin(w, 0, s.recvOffset, t.recvOffset);
    forall x | x in t.recvBuf ensures x in segs { assert x in s.recvBuf; }
  }

  // In every run the bytes read are a prefix of the bytes written; no read is out of bounds.
  lemma {:induction false} RunIsPrefix(segs: seq<Seg>, w: seq<byte>, events: seq<Event>)
    requires Cuts(segs, w) && |w| <= DEFAULT_WINDOW && Indexed(segs, events)
    ensures Run(segs, events).Some?
    ensures RunGood(Run(segs, events).value.0, Run(segs, events).value.1, segs, w)
  {
    if events != [] {
      var front, last := events[..|events| - 1], events[|events| - 1];
      RunIsPrefix(segs, w, front);
      var (s, out) := Run(segs, front).value;
      match last {
        case Deliver(i) => DeliverGood(s, out, segs, w, segs[i]);
        case ReadUpTo(m) => ReadGood(s, out, segs, w, m);
      }
    }
  }

  // ---- Nothing is lost: the exact condition ----

  ghost predicate Delivered(events: seq<Event>, i: nat) { Deliver(i) in events }

  // Piece i was delivered, and no read since its last delivery stopped inside it.
  ghost predicate Stays(segs: seq<Seg>, events: seq<Event>, i: nat)
    requires Indexed(segs, events) && i < |segs|
  {
    events != [] &&
    var front, last := events[..|events| - 1], events[|events| - 1];
    if last.Deliver? then last.i == i || Stays(segs, front, i)
    else Stays(segs, front, i) && Run(segs, front).Some? && !Severs(Run(segs, front).value.0, last.maxBytes, segs[i])
  }

  // Different indices are different pieces.
  lemma PiecesDiffer(segs: seq<Seg>, w: seq<byte>, i: nat, j: nat)
    requires Cuts(segs, w) && i < |segs| && j < |segs| && segs[i] == segs[j]
    ensures i == j
  {
    assert PieceOf(segs[i], w);
    if i < j { CutsAscend(segs, w, i, j); } else if j < i { CutsAscend(segs, w, j, i); }
  }

  // What is neither read nor buffered does not come back through a read.
  lemma LostStaysLost(s: StreamState, out: seq<byte>, segs: seq<Seg>, w: seq<byte>, m: nat, g: Seg)
    requires Cuts(segs, w) && RunGood(s, out, segs, w) && g in segs && !Kept(s, g)
    ensures s.Read(m).Some? && !Kept(s.Read(m).value.0, g)
  {
    ReadKeeps(s, w, m);
    var t := s.Read(m).value.0;
    forall x | x in t.recvBuf ensures x in s.recvBuf {}
    if End(g) <= t.recvOffset {
      var h := ReadsBuffered(s, w, m, End(g) - 1);
      CutsApart(segs, w, g, h);
    }
  }

  lemma ReadKeepsOne(s: StreamState, out: seq<byte>, segs: seq<Seg>, w: seq<byte>, m: nat, g: Seg)
    requires Cuts(segs, w) && RunGood(s, out, segs, w) && g in segs
    ensures s.Read(m).Some? && (Kept(s.Read(m).value.0, g) <==> Kept(s, g) && !Severs(s, m, g))
  {
    ReadKeeps(s, w, m);
    if g in s.recvBuf {
      ReadSevers(s, w, m, g);
    } else if !Kept(s, g) {
      LostStaysLost(s, out, segs, w, m, g);
    }
  }

  // In every run a piece is read or waits to be read exactly when it stays.
  lemma {:induction false} RunKeepsExactly(segs: seq<Seg>, w: seq<byte>, events: seq<Event>, i: nat)
    requires Cuts(segs, w) && |w| <= DEFAULT_WINDOW && Indexed(segs, events) && i < |segs|
    ensures Run(segs, events).Some? && (Kept(Run(segs, events).value.0, segs[i]) <==> Stays(segs, events, i))
  {
    if events == [] {
      assert PieceOf(segs[i], w);
    } else {
      var front, last := events[..|events| - 1], events[|events| - 1];
      RunIsPrefix(segs, w, front);
      RunKeepsExactly(segs, w, front, i);
      var (s, out) := Run(segs, front).value;
      match last {
        case Deliver(k) =>
          DeliverGood(s, out, segs, w, segs[k]);
          ReceiveKept(s, w, segs[k], segs[i]);
          if segs[k] == segs[i] { PiecesDiffer(segs, w, i, k); }
        case ReadUpTo(m) => ReadKeepsOne(s, out, segs, w, m, segs[i]);
      }
    }
  }

  ghost predicate AllKept(s: StreamState, segs: seq<Seg>) { forall i | 0 <= i < |segs| :: Kept(s, segs[i]) }

  // A last read returns the rest of w exactly when nothing is lost and its budget suffices.
  lemma LastRead(s: StreamState, out: seq<byte>, segs: seq<Seg>, w: seq<byte>, m: nat)
    requires Cuts(segs, w) && RunGood(s, out, segs, w)
    ensures s.Read(m).Some?
    ensures out + s.Read(m).value.1 == w <==> AllKept(s, segs) && s.recvOffset + m >= |w|
  {
    hide StreamState.Read;
    ReadGood(s, out, segs, w, m);
    ReadKeeps(s, w, m);
    var t := s.Read(m).value.0;
    assert out + s.Read(m).value.1 == w[..t.recvOffset];
    if t.recvOffset == |w| {
      forall i | 0 <= i < |segs| ensures Kept(s, segs[i]) {
        assert PieceOf(segs[i], w);
        ReadKeepsOne(s, out, segs, w, m, segs[i]);
      }
    } else if AllKept(s, segs) && s.recvOffset + m >= |w| {
      var i := CutsCover(segs, w, t.recvOffset, |segs| - 1);
      assert PieceOf(segs[i], w);
      ReadKeepsOne(s, out, segs, w, m, segs[i]);
      HeadFirst(t, w, segs[i]);
      assert false;
    }
  }

  ghost predicate AllStay(segs: seq<Seg>, events: seq<Event>)
    requires Indexed(segs, events)
  {
    forall i | 0 <= i < |segs| :: Stays(segs, events, i)
  }

  lemma RunKeepsAll(segs: seq<Seg>, w: seq<byte>, events: seq<Event>)
    requires Cuts(segs, w) && |w| <= DEFAULT_WINDOW && Indexed(segs, events)
    ensures Run(segs, events).Some? && (AllKept(Run(segs, events).value.0, segs) <==> AllStay(segs, events))
  {
    hide Run, Stays, Cuts, Kept;
    RunIsPrefix(segs, w, events);
    var s := Run(segs, events).value.0;
    forall i | 0 <= i < |segs| ensures Kept(s, segs[i]) <==> Stays(segs, events, i) {
      RunKeepsExactly(segs, w, events, i);
    }
  }

  // The bytes read are exactly the bytes written if and only if before the last read every piece stays and the
  // budget of that read suffices.
  lemma RunDeliversAll(segs: seq<Seg>, w: seq<byte>, events: seq<Event>, m: nat)
    requires Cuts(segs, w) && |w| <= DEFAULT_WINDOW && Indexed(segs, events)
    ensures Indexed(segs, events + [ReadUpTo(m)]) && Run(segs, events).Some?
    ensures Run(segs, events + [ReadUpTo(m)]).Some?
    ensures Run(segs, events + [ReadUpTo(m)]).value.1 == w <==>
      AllStay(segs, events) && Run(segs, events).value.0.recvOffset + m >= |w|
  {
    RunIsPrefix(segs, w, events);
    ReadKeeps(Run(segs, events).value.0, w, m);
    RunThenRead(segs, w, events, m);
    RunKeepsAll(segs, w, events);
    hide Run, AllStay, AllKept, Cuts, RunGood, Indexed, ReadsNext;
    LastRead(Run(segs, events).value.0, Run(segs, events).value.1, segs, w, m);
  }

  lemma RunThenRead(segs: seq<Seg>, w: seq<byte>, events: seq<Event>, m: nat)
    requires Indexed(segs, events) && Run(segs, events).Some? && Run(segs, events).value.0.Read(m).Some?
    ensures Indexed(segs, events + [ReadUpTo(m)]) && Run(segs, events + [ReadUpTo(m)]).Some?
    ensures var (s, out) := Run(segs, events).value;
      Run(segs, events + [ReadUpTo(m)]).value == (s.Read(m).value.0, out + s.Read(m).value.1)
  {
    assert (events + [ReadUpTo(m)])[..|events|] == events;
  }

  // ---- A caller who only ever reads to a boundary ----

  predicate LandsIn(s: StreamState, m: nat) { Lands(s.recvBuf, s.recvOffset, m) }

  // Every read of the run lands.
  ghost predicate ReadsLand(segs: seq<Seg>, events: seq<Event>)
    requires Indexed(segs, events)
  {
    events == [] ||
    var front, last := events[..|events| - 1], events[|events| - 1];
    && ReadsLand(segs, front)
    && (last.ReadUpTo? ==> Run(segs, front).Some? && LandsIn(Run(segs, front).value.0, last.maxBytes))
  }

  lemma {:induction false} LandingStays(segs: seq<Seg>, w: seq<byte>, events: seq<Event>, i: nat)
    requires Cuts(segs, w) && |w| <= DEFAULT_WINDOW && Indexed(segs, events) && ReadsLand(segs, events)
    requires i < |segs|
    ensures Stays(segs, events, i) <==> Delivered(events, i)
  {
    if events != [] {
      var front, last := events[..|events| - 1], events[|events| - 1];
      assert events == front + [last];
      RunIsPrefix(segs, w, front);
      LandingStays(segs, w, front, i);
      if last.ReadUpTo? && Stays(segs, front, i) {
        RunKeepsExactly(segs, w, front, i);
        var s := Run(segs, front).value.0;
        LandsIs(s, w, last.maxBytes);
      }
    }
  }

  // Then every piece delivered at least once, in any order, is enough.
  lemma {:induction false} LandingReadsDeliver(segs: seq<Seg>, w: seq<byte>, events: seq<Event>, m: nat)
    requires Cuts(segs, w) && |w| <= DEFAULT_WINDOW && Indexed(segs, events) && ReadsLand(segs, events)
    requires forall i | 0 <= i < |segs| :: Delivered(events, i)
    ensures Indexed(segs, events + [ReadUpTo(m)]) && Run(segs, events).Some?
    ensures Run(segs, events + [ReadUpTo(m)]).Some?
    ensures Run(segs, events + [ReadUpTo(m)]).value.1 == w <==> Run(segs, events).value.0.recvOffset + m >= |w|
  {
    forall i | 0 <= i < |segs| ensures Stays(segs, events, i) { LandingStays(segs, w, events, i); }
    RunDeliversAll(segs, w, events, m);
  }
}
