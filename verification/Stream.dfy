// One reliable ordered byte stream: segmentation on the send side, reassembly on the receive side.
module Stream {
  import opened Options
  import opened Bytes

  const DEFAULT_WINDOW: nat := 16 * 1024 * 1024

  type Seg = (nat, seq<byte>)  // stream offset, data

  function End(g: Seg): nat { g.0 + |g.1| }

  datatype Error =
    | StreamFinished
    | FlowControlBlocked(available: nat, requested: nat)
    | UnknownStream
    | ProtocolViolation

  datatype Outcome<T> = Ok(value: T) | Err(error: Error)

  function Min(a: nat, b: nat): nat { if a < b then a else b }

  // recv_buf.insert(offset, data) on an ordered map.
  function InsertSeg(buf: seq<Seg>, g: Seg): seq<Seg> {
    if buf == [] || g.0 < buf[0].0 then [g] + buf
    else if g.0 == buf[0].0 then [g] + buf[1..]
    else [buf[0]] + InsertSeg(buf[1..], g)
  }

  datatype StreamState = StreamState(
    sendBuf: seq<byte>, sendOffset: nat, sendMax: nat,
    recvOffset: nat, recvBuf: seq<Seg>, recvMax: nat,
    finReceived: Option<nat>, finSent: bool, finFlushed: bool)
  {
    // Start of the unsent data in the stream.
    function Unsent(): int { sendOffset - |sendBuf| }

    // ---- Send side ----

    function Write(data: seq<byte>): (StreamState, Outcome<nat>) {
      if finSent then (this, Err(StreamFinished))
      else if sendOffset + |data| > sendMax then
        (this, Err(FlowControlBlocked(SaturatingSub(sendMax, sendOffset), |data|)))
      else (this.(sendBuf := sendBuf + data, sendOffset := sendOffset + |data|), Ok(sendOffset))
    }

    function Finish(): StreamState { this.(finSent := true) }

    predicate ShouldSendFin() { finSent && !finFlushed && sendBuf == [] }

    function PollSend(maxBytes: nat): (StreamState, Option<Seg>)
      requires Unsent() >= 0
    {
      if sendBuf == [] then (this, None)
      else
        var take := Min(|sendBuf|, maxBytes);
        (this.(sendBuf := sendBuf[take..]), Some((Unsent(), sendBuf[..take])))
    }

    // ---- Receive side ----

    function Receive(g: Seg, fin: bool): (StreamState, Outcome<()>) {
      var s := if fin then this.(finReceived := Some(End(g))) else this;
      if g.1 == [] then (s, Ok(()))
      else if End(g) <= recvOffset then (s, Ok(()))
      else if End(g) > recvMax then
        (s, Err(FlowControlBlocked(SaturatingSub(recvMax, recvOffset), SaturatingSub(End(g), recvOffset))))
      else (s.(recvBuf := InsertSeg(recvBuf, g)), Ok(()))
    }

    // Read up to maxBytes; None is the out-of-range slice of a segment that ends below recv_offset.
    function Read(maxBytes: nat): Option<(StreamState, seq<byte>)>
      decreases |recvBuf|
    {
      if maxBytes == 0 || recvBuf == [] || recvBuf[0].0 > recvOffset then Some((this, []))
      else
        var data, skip := recvBuf[0].1, recvOffset - recvBuf[0].0;
        if skip > |data| then None
        else
          var take := Min(|data| - skip, maxBytes);
          var next := this.(recvBuf := recvBuf[1..], recvOffset := recvOffset + take);
          var rest := next.Read(maxBytes - take);
          if rest.None? then None else Some((rest.value.0, data[skip..skip + take] + rest.value.1))
    }

    predicate IsRecvFinished() { finReceived.Some? && recvOffset >= finReceived.value }
  }

  function New(): StreamState {
    StreamState([], 0, DEFAULT_WINDOW, 0, [], DEFAULT_WINDOW, None, false, false)
  }

  // ---- What the two sides mean ----

  // The sender has cut the first Unsent() bytes of w and buffers the rest.
  ghost predicate Sending(s: StreamState, w: seq<byte>) {
    && s.sendOffset == |w| && |s.sendBuf| <= |w| && s.sendBuf == w[|w| - |s.sendBuf|..]
    && |w| <= s.sendMax
  }

  // g is a non-empty piece of w at its own offset.
  ghost predicate PieceOf(g: Seg, w: seq<byte>) { g.1 != [] && End(g) <= |w| && g.1 == w[g.0..End(g)] }

  ghost predicate Apart(g: Seg, h: Seg) { g == h || End(g) <= h.0 || End(h) <= g.0 }

  // The receive buffer: ordered disjoint pieces of w that end above the read position.
  ghost predicate Receiving(s: StreamState, w: seq<byte>) {
    && s.recvOffset <= |w|
    && (forall i | 0 <= i < |s.recvBuf| :: PieceOf(s.recvBuf[i], w) && End(s.recvBuf[i]) > s.recvOffset)
    && (forall i, j | 0 <= i < j < |s.recvBuf| :: End(s.recvBuf[i]) <= s.recvBuf[j].0)
  }

  lemma WriteSending(s: StreamState, w: seq<byte>, data: seq<byte>)
    requires Sending(s, w) && s.Write(data).1.Ok?
    ensures Sending(s.Write(data).0, w + data)
  {}

  lemma PollSendCuts(s: StreamState, w: seq<byte>, maxBytes: nat)
    requires Sending(s, w) && maxBytes > 0 && s.sendBuf != []
    ensures var (t, g) := s.PollSend(maxBytes);
      && Sending(t, w) && g.Some? && PieceOf(g.value, w)
      && g.value.0 == s.Unsent() && End(g.value) == t.Unsent()
  {}

  // Ordered, non-empty, pairwise disjoint segments.
  ghost predicate Ordered(buf: seq<Seg>) {
    && (forall i | 0 <= i < |buf| :: buf[i].1 != [])
    && (forall i, j | 0 <= i < j < |buf| :: End(buf[i]) <= buf[j].0)
  }

  ghost predicate ApartFromAll(g: Seg, buf: seq<Seg>) { forall i | 0 <= i < |buf| :: Apart(g, buf[i]) }

  lemma OrderedCons(g: Seg, t: seq<Seg>)
    requires g.1 != [] && Ordered(t) && forall x | x in t :: End(g) <= x.0
    ensures Ordered([g] + t)
  {
    forall j | 0 <= j < |t| ensures End(g) <= t[j].0 { assert t[j] in t; }
  }

  lemma OrderedTail(buf: seq<Seg>)
    requires Ordered(buf) && buf != []
    ensures Ordered(buf[1..]) && forall x | x in buf[1..] :: End(buf[0]) <= x.0
  {}

  lemma {:induction false} InsertSegFacts(buf: seq<Seg>, g: Seg)
    requires Ordered(buf) && g.1 != [] && ApartFromAll(g, buf)
    ensures Ordered(InsertSeg(buf, g))
    ensures forall x :: x in InsertSeg(buf, g) <==> x in buf || x == g
  {
    if buf == [] {
      OrderedCons(g, []);
    } else {
      assert Apart(g, buf[0]);
      OrderedTail(buf);
      assert buf == [buf[0]] + buf[1..];
      if g.0 < buf[0].0 {
        OrderedCons(g, buf);
      } else if g.0 > buf[0].0 {
        InsertSegFacts(buf[1..], g);
        OrderedCons(buf[0], InsertSeg(buf[1..], g));
      }
    }
  }

  // An honest segment keeps the buffer meaningful and is never refused.
  lemma ReceiveKeeps(s: StreamState, w: seq<byte>, g: Seg, fin: bool)
    requires Receiving(s, w) && |w| <= s.recvMax
    requires g.1 == [] || (PieceOf(g, w) && ApartFromAll(g, s.recvBuf))
    ensures Receiving(s.Receive(g, fin).0, w)
    ensures s.Receive(g, fin).1.Ok?
  {
    if g.1 != [] && End(g) > s.recvOffset {
      InsertSegFacts(s.recvBuf, g);
      var t := InsertSeg(s.recvBuf, g);
      forall i | 0 <= i < |t| ensures PieceOf(t[i], w) && End(t[i]) > s.recvOffset { assert t[i] in t; }
    }
  }

  // Nothing more can be read without new segments.
  ghost predicate Exhausted(s: StreamState) { s.recvBuf == [] || s.recvBuf[0].0 > s.recvOffset }

  // What a read of at most maxBytes does.
  ghost predicate ReadsNext(s: StreamState, w: seq<byte>, maxBytes: nat, t: StreamState, out: seq<byte>) {
    && Receiving(t, w) && s.recvOffset <= t.recvOffset
    && out == w[s.recvOffset..t.recvOffset] && |out| <= maxBytes
    && (|out| < maxBytes ==> Exhausted(t))
    && t == s.(recvOffset := t.recvOffset, recvBuf := t.recvBuf)
    && |t.recvBuf| <= |s.recvBuf| && t.recvBuf == s.recvBuf[|s.recvBuf| - |t.recvBuf|..]
  }

  // The state after taking bytes from the first segment.
  function Taken(s: StreamState, take: nat): StreamState
    requires s.recvBuf != []
  {
    s.(recvBuf := s.recvBuf[1..], recvOffset := s.recvOffset + take)
  }

  lemma TakenReceiving(s: StreamState, w: seq<byte>, take: nat)
    requires Receiving(s, w) && s.recvBuf != [] && s.recvOffset + take <= End(s.recvBuf[0])
    ensures Receiving(Taken(s, take), w)
  {
    assert PieceOf(s.recvBuf[0], w);
    var t := Taken(s, take);
    forall i | 0 <= i < |t.recvBuf| ensures PieceOf(t.recvBuf[i], w) && End(t.recvBuf[i]) > t.recvOffset {
      assert t.recvBuf[i] == s.recvBuf[i + 1];
    }
  }

  lemma SliceJoin(w: seq<byte>, a: nat, b: nat, c: nat)
    requires a <= b <= c <= |w|
    ensures w[a..b] + w[b..c] == w[a..c]
  {}

  lemma PieceSlice(g: Seg, w: seq<byte>, p: nat, take: nat)
    requires PieceOf(g, w) && g.0 <= p && p + take <= End(g)
    ensures g.1[p - g.0..p - g.0 + take] == w[p..p + take]
  {
    SubSlice(w, g.0, End(g), p - g.0, p - g.0 + take);
  }

  lemma SubSlice(w: seq<byte>, a: nat, b: nat, i: nat, j: nat)
    requires a <= b <= |w| && i <= j <= b - a
    ensures w[a..b][i..j] == w[a + i..a + j]
  {
    var u, v := w[a..b][i..j], w[a + i..a + j];
    forall k | 0 <= k < j - i ensures u[k] == v[k] {
      assert u[k] == w[a..b][i + k] == w[a + i + k];
    }
  }

  lemma TailSuffix(buf: seq<Seg>, n: nat)
    requires n < |buf|
    ensures buf[1..][|buf| - 1 - n..] == buf[|buf| - n..]
  {}

  // The read goes on behind the bytes taken from the head.
  lemma TakenReads(s: StreamState, w: seq<byte>, maxBytes: nat, take: nat, t: StreamState, rest: seq<byte>)
    requires s.recvBuf != [] && s.recvOffset + take <= |w| && take <= maxBytes
    requires ReadsNext(Taken(s, take), w, maxBytes - take, t, rest) && t.recvOffset <= |w|
    ensures ReadsNext(s, w, maxBytes, t, w[s.recvOffset..s.recvOffset + take] + rest)
  {
    hide Receiving, Exhausted;
    SliceJoin(w, s.recvOffset, s.recvOffset + take, t.recvOffset);
    TailSuffix(s.recvBuf, |t.recvBuf|);
  }

  lemma NothingRead(s: StreamState, w: seq<byte>, maxBytes: nat)
    requires Receiving(s, w) && (maxBytes == 0 || Exhausted(s))
    ensures s.Read(maxBytes) == Some((s, [])) && ReadsNext(s, w, maxBytes, s, [])
  {}

  // One round of the read loop.
  lemma ReadUnfold(s: StreamState, maxBytes: nat, take: nat)
    requires maxBytes > 0 && !Exhausted(s) && s.recvOffset < End(s.recvBuf[0])
    requires take == Min(End(s.recvBuf[0]) - s.recvOffset, maxBytes)
    requires Taken(s, take).Read(maxBytes - take).Some?
    ensures var skip := s.recvOffset - s.recvBuf[0].0;
      var r := Taken(s, take).Read(maxBytes - take).value;
      s.Read(maxBytes) == Some((r.0, s.recvBuf[0].1[skip..skip + take] + r.1))
  {}

  lemma HeadPiece(s: StreamState, w: seq<byte>)
    requires Receiving(s, w) && s.recvBuf != []
    ensures PieceOf(s.recvBuf[0], w) && s.recvOffset < End(s.recvBuf[0]) <= |w|
  {}

  lemma HeadFirst(s: StreamState, w: seq<byte>, g: Seg)
    requires Receiving(s, w) && g in s.recvBuf
    ensures s.recvBuf[0].0 <= g.0
  {
    var n :| 0 <= n < |s.recvBuf| && s.recvBuf[n] == g;
  }

  lemma ReadRound(s: StreamState, w: seq<byte>, maxBytes: nat, take: nat, t: StreamState, rest: seq<byte>)
    requires Receiving(s, w) && maxBytes > 0 && !Exhausted(s) && s.recvOffset < End(s.recvBuf[0])
    requires take == Min(End(s.recvBuf[0]) - s.recvOffset, maxBytes)
    requires Taken(s, take).Read(maxBytes - take) == Some((t, rest))
    requires ReadsNext(Taken(s, take), w, maxBytes - take, t, rest) && t.recvOffset <= |w|
    ensures s.Read(maxBytes).Some?
    ensures ReadsNext(s, w, maxBytes, s.Read(maxBytes).value.0, s.Read(maxBytes).value.1)
  {
    hide Receiving, PieceOf, ReadsNext, StreamState.Read, Taken;
    HeadPiece(s, w);
    ReadUnfold(s, maxBytes, take);
    PieceSlice(s.recvBuf[0], w, s.recvOffset, take);
    TakenReads(s, w, maxBytes, take, t, rest);
  }

  // A read is in bounds, returns the next bytes of w, and stops early only when exhausted.
  lemma {:induction false} ReadKeeps(s: StreamState, w: seq<byte>, maxBytes: nat)
    requires Receiving(s, w)
    ensures s.Read(maxBytes).Some?
    ensures ReadsNext(s, w, maxBytes, s.Read(maxBytes).value.0, s.Read(maxBytes).value.1)
    decreases |s.recvBuf|
  {
    hide StreamState.Read;
    if maxBytes == 0 || Exhausted(s) {
      NothingRead(s, w, maxBytes);
    } else {
      assert End(s.recvBuf[0]) > s.recvOffset;
      var take := Min(End(s.recvBuf[0]) - s.recvOffset, maxBytes);
      TakenReceiving(s, w, take);
      ReadKeeps(Taken(s, take), w, maxBytes - take);
      var r := Taken(s, take).Read(maxBytes - take).value;
      ReadRound(s, w, maxBytes, take, r.0, r.1);
    }
  }

  // ---- What a read keeps ----

  // g has been read, or waits in the buffer.
  ghost predicate Kept(s: StreamState, g: Seg) { g in s.recvBuf || End(g) <= s.recvOffset }

  // Where the contiguous data from the read position ends.
  function Reach(buf: seq<Seg>, off: nat): nat {
    if buf == [] || buf[0].0 > off then off else Reach(buf[1..], End(buf[0]))
  }

  // A read of m bytes stops inside the contiguous segment g, whose tail is then dropped.
  predicate Severs(s: StreamState, m: nat, g: Seg) {
    m > 0 && g.0 < s.recvOffset + m < End(g) && g.0 < Reach(s.recvBuf, s.recvOffset)
  }

  // The budget ends on a segment boundary or covers the contiguous data.
  predicate Lands(buf: seq<Seg>, off: nat, m: nat) {
    m == 0 || buf == [] || buf[0].0 > off ||
    (End(buf[0]) <= off + m && Lands(buf[1..], End(buf[0]), SaturatingSub(off + m, End(buf[0]))))
  }

  lemma {:induction false} ReachGrows(buf: seq<Seg>, off: nat)
    requires forall i | 0 <= i < |buf| :: End(buf[i]) > off
    requires forall i, j | 0 <= i < j < |buf| :: End(buf[i]) <= buf[j].0 && buf[j].1 != []
    ensures Reach(buf, off) >= off
  {
    if buf != [] && buf[0].0 <= off { ReachGrows(buf[1..], End(buf[0])); }
  }

  lemma ReceiveKept(s: StreamState, w: seq<byte>, g: Seg, h: Seg)
    requires Receiving(s, w) && |w| <= s.recvMax && PieceOf(g, w) && ApartFromAll(g, s.recvBuf)
    ensures Kept(s.Receive(g, false).0, g)
    ensures h != g ==> (Kept(s.Receive(g, false).0, h) <==> Kept(s, h))
  {
    if End(g) > s.recvOffset { InsertSegFacts(s.recvBuf, g); }
  }

  lemma HeadReach(s: StreamState, w: seq<byte>)
    requires Receiving(s, w) && !Exhausted(s)
    ensures Reach(s.recvBuf, s.recvOffset) == Reach(s.recvBuf[1..], End(s.recvBuf[0])) >= End(s.recvBuf[0])
  {
    assert PieceOf(s.recvBuf[0], w);
    forall j | 0 < j < |s.recvBuf| ensures s.recvBuf[j].1 != [] && End(s.recvBuf[j]) > End(s.recvBuf[0]) {
      assert PieceOf(s.recvBuf[j], w);
    }
    ReachGrows(s.recvBuf[1..], End(s.recvBuf[0]));
  }

  // A read takes the head whole when the budget allows, and goes on behind it.
  lemma ReadWhole(s: StreamState, w: seq<byte>, m: nat)
    requires Receiving(s, w) && !Exhausted(s) && End(s.recvBuf[0]) <= s.recvOffset + m
    ensures var take := End(s.recvBuf[0]) - s.recvOffset;
      && 0 < take <= m && Receiving(Taken(s, take), w) && Taken(s, take).recvOffset == End(s.recvBuf[0])
      && s.Read(m).Some? && Taken(s, take).Read(m - take).Some?
      && s.Read(m).value.0 == Taken(s, take).Read(m - take).value.0
  {
    hide StreamState.Read;
    assert End(s.recvBuf[0]) > s.recvOffset;
    var take := End(s.recvBuf[0]) - s.recvOffset;
    TakenReceiving(s, w, take);
    ReadKeeps(Taken(s, take), w, m - take);
    ReadUnfold(s, m, take);
  }

  // Otherwise it takes m bytes of the head and drops the rest of it.
  lemma ReadPart(s: StreamState, w: seq<byte>, m: nat)
    requires Receiving(s, w) && !Exhausted(s) && m > 0 && s.recvOffset + m < End(s.recvBuf[0])
    ensures s.Read(m).Some? && s.Read(m).value.0 == Taken(s, m) && s.recvBuf[0] !in s.recvBuf[1..]
  {
    assert Taken(s, m).Read(0) == Some((Taken(s, m), []));
    ReadUnfold(s, m, m);
    assert PieceOf(s.recvBuf[0], w);
  }

  // A buffered segment survives a read exactly when the read does not stop inside it.
  lemma {:induction false} ReadSevers(s: StreamState, w: seq<byte>, m: nat, g: Seg)
    requires Receiving(s, w) && g in s.recvBuf
    ensures s.Read(m).Some? && (Kept(s.Read(m).value.0, g) <==> !Severs(s, m, g))
    decreases |s.recvBuf|
  {
    hide StreamState.Read, Reach;
    var n :| 0 <= n < |s.recvBuf| && s.recvBuf[n] == g;
    if m == 0 || Exhausted(s) {
      NothingRead(s, w, m);
      if m > 0 { ExhaustedSeversNone(s, w, m); }
    } else {
      HeadReach(s, w);
      if s.recvOffset + m < End(s.recvBuf[0]) {
        ReadPart(s, w, m);
        if n > 0 { assert g == s.recvBuf[1..][n - 1]; }
      } else {
        ReadWhole(s, w, m);
        var t := Taken(s, End(s.recvBuf[0]) - s.recvOffset);
        var left := m - (End(s.recvBuf[0]) - s.recvOffset);
        if n == 0 {
          ReadKeeps(t, w, left);
        } else {
          assert g == t.recvBuf[n - 1];
          ReadSevers(t, w, left, g);
        }
      }
    }
  }

  // Every byte read comes from a buffered segment.
  lemma {:induction false} ReadsBuffered(s: StreamState, w: seq<byte>, m: nat, p: nat) returns (g: Seg)
    requires Receiving(s, w) && s.Read(m).Some? && s.recvOffset <= p < s.Read(m).value.0.recvOffset
    ensures g in s.recvBuf && g.0 <= p < End(g)
    decreases |s.recvBuf|
  {
    hide StreamState.Read, Receiving;
    if m == 0 || Exhausted(s) { NothingRead(s, w, m); }
    g := s.recvBuf[0];
    HeadPiece(s, w);
    if s.recvOffset + m < End(g) {
      ReadPart(s, w, m);
    } else if End(g) <= p {
      ReadWhole(s, w, m);
      var t := Taken(s, End(g) - s.recvOffset);
      g := ReadsBuffered(t, w, m - (End(g) - s.recvOffset), p);
    }
  }

  ghost predicate SeversNone(s: StreamState, m: nat) { forall g | g in s.recvBuf :: !Severs(s, m, g) }

  lemma ExhaustedSeversNone(s: StreamState, w: seq<byte>, m: nat)
    requires Receiving(s, w) && Exhausted(s)
    ensures SeversNone(s, m)
  {
    forall g | g in s.recvBuf ensures !Severs(s, m, g) {
      var n :| 0 <= n < |s.recvBuf| && s.recvBuf[n] == g;
      assert s.recvBuf[0].0 <= g.0;
    }
  }

  // Behind a head that is taken whole.
  lemma SeversBehind(s: StreamState, w: seq<byte>, m: nat, take: nat)
    requires Receiving(s, w) && !Exhausted(s) && take == End(s.recvBuf[0]) - s.recvOffset && take <= m
    ensures SeversNone(s, m) <==> SeversNone(Taken(s, take), m - take)
  {
    HeadReach(s, w);
    var t, h := Taken(s, take), s.recvBuf[0];
    hide Reach;
    assert !Severs(s, m, h);
    forall g | g in t.recvBuf ensures g in s.recvBuf && (Severs(s, m, g) <==> Severs(t, m - take, g)) {
      var n :| 0 <= n < |t.recvBuf| && t.recvBuf[n] == g;
      assert g == s.recvBuf[n + 1];
    }
    assert s.recvBuf == [h] + t.recvBuf;
  }

  lemma {:induction false} LandsIs(s: StreamState, w: seq<byte>, m: nat)
    requires Receiving(s, w)
    ensures Lands(s.recvBuf, s.recvOffset, m) <==> SeversNone(s, m)
    decreases |s.recvBuf|
  {
    hide Reach;
    if m > 0 && !Exhausted(s) {
      var h := s.recvBuf[0];
      HeadReach(s, w);
      assert PieceOf(h, w) && End(h) > s.recvOffset;
      if s.recvOffset + m < End(h) {
        assert Severs(s, m, h);
      } else {
        var take := End(h) - s.recvOffset;
        TakenReceiving(s, w, take);
        SeversBehind(s, w, m, take);
        hide Receiving, SeversNone;
        LandsIs(Taken(s, take), w, m - take);
      }
    } else if m > 0 {
      ExhaustedSeversNone(s, w, m);
    }
  }

  // A read loses nothing that was buffered exactly when it lands.
  lemma ReadKeepsAll(s: StreamState, w: seq<byte>, m: nat)
    requires Receiving(s, w)
    ensures s.Read(m).Some?
    ensures (forall g | g in s.recvBuf :: Kept(s.Read(m).value.0, g)) <==> Lands(s.recvBuf, s.recvOffset, m)
  {
    ReadKeeps(s, w, m);
    LandsIs(s, w, m);
    hide Severs, Lands, Receiving;
    forall g | g in s.recvBuf ensures Kept(s.Read(m).value.0, g) <==> !Severs(s, m, g) { ReadSevers(s, w, m, g); }
  }

  // Reading one byte of a segment of two loses the other.
  lemma ReadLoses()
    ensures var s := New().Receive((0, [1, 2]), false).0;
      && s.Read(1).Some? && s.Read(1).value.1 == [1] && !Kept(s.Read(1).value.0, (0, [1, 2]))
      && s.Read(1).value.0.Read(1) == Some((s.Read(1).value.0, []))
  {
    var s := New().Receive((0, [1, 2]), false).0;
    assert s.recvBuf == [(0, [1, 2])];
    assert Taken(s, 1).recvBuf == [];
    ReadUnfold(s, 1, 1);
  }

  // ---- The methods ----

  class ByteStream {
    var sendBuf: seq<byte>
    var sendOffset: nat
    var sendMaxData: nat
    var recvOffset: nat
    var recvBuf: seq<Seg>
    var recvMaxData: nat
    var finReceived: Option<nat>
    var finSent: bool
    var finFlushed: bool

    ghost function View(): StreamState
      reads this
    {
      StreamState(sendBuf, sendOffset, sendMaxData, recvOffset, recvBuf, recvMaxData, finReceived, finSent, finFlushed)
    }

    constructor ()
      ensures View() == New()
    {
      sendBuf, sendOffset, sendMaxData := [], 0, DEFAULT_WINDOW;
      recvOffset, recvBuf, recvMaxData := 0, [], DEFAULT_WINDOW;
      finReceived, finSent, finFlushed := None, false, false;
    }

    method Write(data: seq<byte>) returns (r: Outcome<nat>)
      modifies this
      ensures (View(), r) == old(View()).Write(data)
    {
      if finSent {
        return Err(StreamFinished);
      }
      if sendOffset + |data| > sendMaxData {
        return Err(FlowControlBlocked(SaturatingSub(sendMaxData, sendOffset), |data|));
      }
      r := Ok(sendOffset);
      sendBuf := sendBuf + data;
      sendOffset := sendOffset + |data|;
    }

    method PollSend(maxBytes: nat) returns (g: Option<Seg>)
      requires View().Unsent() >= 0
      modifies this
      ensures (View(), g) == old(View()).PollSend(maxBytes)
    {
      if sendBuf == [] {
        return None;
      }
      var take := Min(|sendBuf|, maxBytes);
      var offset := sendOffset - |sendBuf|;
      g := Some((offset, sendBuf[..take]));
      sendBuf := sendBuf[take..];
    }

    method Receive(offset: nat, data: seq<byte>, isFin: bool) returns (r: Outcome<()>)
      modifies this
      ensures (View(), r) == old(View()).Receive((offset, data), isFin)
    {
      if isFin {
        finReceived := Some(offset + |data|);
      }
      if data == [] {
        return Ok(());
      }
      if offset + |data| <= recvOffset {
        return Ok(());
      }
      var highOffset := offset + |data|;
      if highOffset > recvMaxData {
        return Err(FlowControlBlocked(SaturatingSub(recvMaxData, recvOffset), SaturatingSub(highOffset, recvOffset)));
      }
      recvBuf := InsertSeg(recvBuf, (offset, data));
      return Ok(());
    }

    // Remove the first segment and take up to budget bytes of it.
    method TakeFirst(budget: nat) returns (chunk: seq<byte>)
      requires recvBuf != [] && recvBuf[0].0 <= recvOffset <= End(recvBuf[0])
      modifies this`recvBuf, this`recvOffset
      ensures var skip := old(recvOffset - recvBuf[0].0);
        var take := Min(|old(recvBuf)[0].1| - skip, budget);
        chunk == old(recvBuf)[0].1[skip..skip + take] && View() == Taken(old(View()), take)
    {
      var (offset, data) := recvBuf[0];
      recvBuf := recvBuf[1..];
      var skip := recvOffset - offset;
      var take := Min(|data| - skip, budget);
      chunk := data[skip..skip + take];
      recvOffset := recvOffset + take;
    }

    // The loop of read, stopped by the budget, an empty buffer or a gap.
    method DrainBuffer(maxBytes: nat) returns (out: seq<byte>)
      requires Drain(View(), maxBytes, []).Some?
      modifies this`recvBuf, this`recvOffset
      ensures old(Drain(View(), maxBytes, [])) == Some((View(), out))
    {
      out := [];
      ghost var v, goal := View(), Drain(View(), maxBytes, []);
      while |out| < maxBytes && recvBuf != [] && recvBuf[0].0 <= recvOffset
        invariant |out| <= maxBytes && v == View()
        invariant Drain(v, maxBytes - |out|, out) == goal
        decreases |recvBuf|
      {
        var chunk := TakeFirst(maxBytes - |out|);
        out := out + chunk;
        v := View();
      }
    }

    // Requires what the slice demands: a buffer the read loop can walk without running out of range.
    method Read(maxBytes: nat) returns (out: seq<byte>)
      requires View().Read(maxBytes).Some?
      modifies this`recvBuf, this`recvOffset
      ensures old(View()).Read(maxBytes) == Some((View(), out))
    {
      DrainIsRead(View(), maxBytes, []);
      AfterNothing(View().Read(maxBytes));
      out := DrainBuffer(maxBytes);
    }
  }

  // Read with the bytes collected so far in front: the loop's own shape.
  ghost function Drain(s: StreamState, budget: nat, out: seq<byte>): Option<(StreamState, seq<byte>)>
    decreases |s.recvBuf|
  {
    if budget == 0 || Exhausted(s) then Some((s, out))
    else
      var data, skip := s.recvBuf[0].1, s.recvOffset - s.recvBuf[0].0;
      if skip > |data| then None
      else
        var take := Min(|data| - skip, budget);
        Drain(Taken(s, take), budget - take, out + data[skip..skip + take])
  }

  lemma AfterBoth(out: seq<byte>, chunk: seq<byte>, r: Option<(StreamState, seq<byte>)>)
    ensures After(out + chunk, r) == After(out, After(chunk, r))
  {
    if r.Some? { assert out + (chunk + r.value.1) == out + chunk + r.value.1; }
  }

  lemma {:induction false} DrainIsRead(s: StreamState, budget: nat, out: seq<byte>)
    ensures Drain(s, budget, out) == After(out, s.Read(budget))
    decreases |s.recvBuf|
  {
    if budget == 0 || Exhausted(s) {
      assert out + [] == out;
    } else {
      var data, skip := s.recvBuf[0].1, s.recvOffset - s.recvBuf[0].0;
      if skip <= |data| {
        var take := Min(|data| - skip, budget);
        DrainIsRead(Taken(s, take), budget - take, out + data[skip..skip + take]);
        AfterBoth(out, data[skip..skip + take], Taken(s, take).Read(budget - take));
      }
    }
  }

  // A read result with bytes already collected in front.
  ghost function After(out: seq<byte>, r: Option<(StreamState, seq<byte>)>): Option<(StreamState, seq<byte>)> {
    if r.None? then None else Some((r.value.0, out + r.value.1))
  }

  lemma AfterNothing(r: Option<(StreamState, seq<byte>)>)
    ensures After([], r) == r
  {
    if r.Some? { assert [] + r.value.1 == r.value.1; }
  }
}
