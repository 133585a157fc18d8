// What becomes of every data packet, over whole runs of two sessions.
module Delivery {
  import opened Bytes
  import opened Stream
  import opened Session
  import opened TwoParty
  import opened Runs
  import Replay

  // ---- One stream ----

  // A segment survives a read exactly when it was there and the read does not stop inside it.
  lemma ReadKeepsCut(st: StreamState, sid: nat, got: seq<byte>, w: seq<byte>, log: seq<Packet>, m: nat, g: Seg)
    requires StreamLink(st, sid, got, w, log) && LogOrdered(log) && WasCut(log, sid, g) && PieceOf(g, w)
    ensures st.Read(m).Some? && (Kept(st.Read(m).value.0, g) <==> Kept(st, g) && !Severs(st, m, g))
  {
    hide StreamState.Read;
    ReadKeeps(st, w, m);
    var t := st.Read(m).value.0;
    if g in st.recvBuf {
      ReadSevers(st, w, m, g);
    } else if !Kept(st, g) {
      forall x | x in t.recvBuf ensures x in st.recvBuf {}
      if End(g) <= t.recvOffset {
        var h := ReadsBuffered(st, w, m, End(g) - 1);
        var k :| 0 <= k < |st.recvBuf| && st.recvBuf[k] == h;
        CutsApart(log, sid, g, h);
      }
    }
  }

  // Storing another segment of the stream changes nothing for this one.
  lemma StoreKeepsCut(st: StreamState, sid: nat, got: seq<byte>, w: seq<byte>, log: seq<Packet>, g: Seg, h: Seg)
    requires StreamLink(st, sid, got, w, log) && LogOrdered(log) && |w| <= st.recvMax
    requires WasCut(log, sid, g) && PieceOf(g, w)
    ensures Kept(st.Receive(g, false).0, g)
    ensures h != g ==> (Kept(st.Receive(g, false).0, h) <==> Kept(st, h))
  {
    forall i | 0 <= i < |st.recvBuf| ensures Apart(g, st.recvBuf[i]) { CutsApart(log, sid, g, st.recvBuf[i]); }
    ReceiveKept(st, w, g, h);
  }

  // ---- One step ----

  // The segment is read or waits at the receiver.
  ghost predicate Held(streams: map<nat, StreamState>, sid: nat, g: Seg) { sid in streams && Kept(streams[sid], g) }

  ghost predicate SameTaken(a: StreamState, b: StreamState) {
    a.recvOffset == b.recvOffset && a.recvBuf == b.recvBuf && a.finReceived == b.finReceived
  }

  // The receive sides are the same, and new streams are empty.
  ghost predicate SameHeld(a: map<nat, StreamState>, b: map<nat, StreamState>) {
    && (forall sid | sid in a :: sid in b && SameTaken(a[sid], b[sid]))
    && (forall sid | sid in b && sid !in a :: b[sid] == Stream.New())
  }

  lemma SameHeldHolds(a: map<nat, StreamState>, b: map<nat, StreamState>, sid: nat, g: Seg)
    requires SameHeld(a, b) && g.1 != []
    ensures Held(b, sid, g) <==> Held(a, sid, g)
  {}

  // One stream is replaced by one with the same receive side.
  lemma ReplacedHeld(a: map<nat, StreamState>, sid: nat, st: StreamState)
    requires sid in a && SameTaken(a[sid], st)
    ensures SameHeld(a, a[sid := st])
  {}

  lemma SameHeldRefl(a: map<nat, StreamState>)
    ensures SameHeld(a, a)
  {}

  lemma WriteHeld(me: Party, sid: nat, data: seq<byte>)
    ensures SameHeld(me.s.streams, DoWrite(me, sid, data).s.streams) && DoWrite(me, sid, data).s.replay == me.s.replay
  {
    SameHeldRefl(me.s.streams);
    if sid in me.s.streams { ReplacedHeld(me.s.streams, sid, me.s.streams[sid].Write(data).0); }
  }

  lemma OpenHeld(me: Party)
    requires IdsFresh(me.s.streams, me.s.parity, me.s.nextStreamId)
    ensures SameHeld(me.s.streams, DoOpen(me).s.streams) && DoOpen(me).s.replay == me.s.replay
  {}

  lemma FinishHeld(me: Party, sid: nat)
    ensures SameHeld(me.s.streams, DoFinish(me, sid).s.streams) && DoFinish(me, sid).s.replay == me.s.replay
  {
    SameHeldRefl(me.s.streams);
    if sid in me.s.streams { ReplacedHeld(me.s.streams, sid, me.s.streams[sid].Finish()); }
  }

  lemma SegmentHeld(me: Party, sid: nat, now: nat)
    requires me.s.HasSegment(sid)
    ensures SameHeld(me.s.streams, DoSegment(me, sid, now).s.streams) && DoSegment(me, sid, now).s.replay == me.s.replay
  {
    ReplacedHeld(me.s.streams, sid, me.s.streams[sid].PollSend(SEGMENT).0);
  }

  lemma FinHeld(me: Party, sid: nat, now: nat)
    requires me.s.HasFin(sid)
    ensures SameHeld(me.s.streams, DoFin(me, sid, now).s.streams) && DoFin(me, sid, now).s.replay == me.s.replay
  {
    ReplacedHeld(me.s.streams, sid, me.s.streams[sid].(finFlushed := true));
  }

  lemma ControlHeld(me: Party, peer: Party, a: Action, now: nat)
    requires me.s.ack.Valid() && |peer.log| <= U64
    requires a.FlushAck? || a.FlushMaxData? || a.FlushOther? || a.Retransmit? || a.DrainCc?
    ensures Act(me, peer, a, now).s.streams == me.s.streams && Act(me, peer, a, now).s.replay == me.s.replay
  {}

  lemma FreshIds(me: Party, peer: Party)
    requires Inv(me, peer)
    ensures IdsFresh(me.s.streams, me.s.parity, me.s.nextStreamId)
    ensures me.s.ack.Valid() && |peer.log| <= U64
  {}

  // Only receiving and reading change what is held.
  lemma QuietHeld(me: Party, peer: Party, a: Action, now: nat)
    requires Inv(me, peer) && !a.Receive? && !a.Read?
    ensures SameHeld(me.s.streams, Act(me, peer, a, now).s.streams)
    ensures Act(me, peer, a, now).s.replay == me.s.replay
  {
    hide SameHeld, Inv, DoOpen, DoWrite, DoFinish, DoSegment, DoFin;
    SameHeldRefl(me.s.streams);
    FreshIds(me, peer);
    match a {
      case Open => OpenHeld(me);
      case Write(sid, data) => WriteHeld(me, sid, data);
      case Finish(sid) => FinishHeld(me, sid);
      case FlushSegment(sid) => if me.s.HasSegment(sid) { SegmentHeld(me, sid, now); }
      case FlushFin(sid) => if me.s.HasFin(sid) { FinHeld(me, sid, now); }
      case _ => ControlHeld(me, peer, a, now);
    }
  }

  // The frame of a data packet that is not a final mark.
  ghost predicate Carries(log: seq<Packet>, pn: nat, f: DataFrame) { pn < |log| && log[pn] == Data(f) && !f.fin }

  lemma CarriedFacts(rx: Party, tx: Party, pn: nat, f: DataFrame)
    requires Inv(rx, tx) && Carries(tx.log, pn, f)
    ensures WasCut(tx.log, f.sid, f.Segment()) && PieceOf(f.Segment(), At(tx.written, f.sid)) && LogOrdered(tx.log)
    ensures Receiver(rx, tx, f.sid)
  {
    assert FrameOk(f, tx.s.streams, tx.written);
    ReceiverFacts(rx, tx, f.sid);
  }

  // Two packets carry different segments.
  lemma CarriedDiffer(tx: Party, rx: Party, pn: nat, f: DataFrame, qn: nat, h: DataFrame)
    requires Inv(rx, tx) && Carries(tx.log, pn, f) && Carries(tx.log, qn, h) && pn != qn && f.sid == h.sid
    ensures f.Segment() != h.Segment()
  {
    assert FrameOk(f, tx.s.streams, tx.written) && FrameOk(h, tx.s.streams, tx.written);
    if pn < qn { assert Before(tx.log[pn], tx.log[qn]); } else { assert Before(tx.log[qn], tx.log[pn]); }
  }

  lemma ReadState(rx: Party, sid: nat, m: nat)
    requires rx.s.ReadStream(sid, m).Some?
    ensures DoRead(rx, sid, m).s.replay == rx.s.replay
    ensures DoRead(rx, sid, m).s.streams ==
      if sid in rx.s.streams then rx.s.streams[sid := rx.s.streams[sid].Read(m).value.0] else rx.s.streams
    ensures sid in rx.s.streams ==> rx.s.streams[sid].Read(m).Some?
  {}

  lemma ReplaceHeld(a: map<nat, StreamState>, sid: nat, st: StreamState, k: nat, g: Seg)
    ensures Held(a[sid := st], k, g) <==> if k == sid then Kept(st, g) else Held(a, k, g)
  {}

  lemma ReadHeld(rx: Party, tx: Party, sid: nat, m: nat, pn: nat, f: DataFrame)
    requires Inv(rx, tx) && Carries(tx.log, pn, f)
    ensures Held(DoRead(rx, sid, m).s.streams, f.sid, f.Segment()) <==>
      Held(rx.s.streams, f.sid, f.Segment()) && !(sid == f.sid && Severs(rx.s.streams[sid], m, f.Segment()))
    ensures DoRead(rx, sid, m).s.replay == rx.s.replay
  {
    hide Inv, DoRead, Kept, Severs, StreamState.Read;
    CarriedFacts(rx, tx, pn, f);
    ReadStep(rx, tx, sid, m);
    ReadState(rx, sid, m);
    if sid in rx.s.streams {
      ReplaceHeld(rx.s.streams, sid, rx.s.streams[sid].Read(m).value.0, f.sid, f.Segment());
      if sid == f.sid {
        ReadKeepsCut(rx.s.streams[sid], sid, At(rx.got, sid), At(tx.written, sid), tx.log, m, f.Segment());
      }
    }
  }

  // The streams after receiving an accepted packet.
  function StreamsAfter(s: Session, p: Packet): map<nat, StreamState> {
    if p.Data? && !TooMany(s, p.frame.sid)
    then s.streams[p.frame.sid := StreamOr(s.streams, p.frame.sid).Receive(p.frame.Segment(), p.frame.fin).0]
    else s.streams
  }

  lemma ReceiveState(s: Session, pn: nat, p: Packet, now: nat)
    requires s.ack.Valid() && pn < U64
    requires p.Data? ==> p.frame.sid in s.streams || p.frame.sid % 2 != s.parity
    ensures var t := s.Receive(pn, p, now).0;
      && t.streams == (if s.replay.Judge(pn) == Replay.Accept then StreamsAfter(s, p) else s.streams)
      && t.replay == (if s.replay.Judge(pn) == Replay.Accept then s.replay.Commit(pn) else s.replay)
  {}

  lemma DeliverState(rx: Party, tx: Party, pn: nat, now: nat, immediate: bool)
    requires Inv(rx, tx) && pn < |tx.log|
    ensures var t := DoDeliver(rx, pn, tx.log[pn], now, immediate).s;
      && t.streams == (if rx.s.replay.Judge(pn) == Replay.Accept then StreamsAfter(rx.s, tx.log[pn]) else rx.s.streams)
      && t.replay == (if rx.s.replay.Judge(pn) == Replay.Accept then rx.s.replay.Commit(pn) else rx.s.replay)
  {
    hide Inv, Session.Receive, StreamsAfter, DoDeliver;
    var p := tx.log[pn];
    FreshIds(rx, tx);
    if p.Data? { SidReaches(rx, tx, pn); }
    ReceiveState(rx.s, pn, p, now);
    GrantApart(rx, pn, p, now, immediate);
  }

  // The grant that may follow at once touches neither streams nor replay window.
  lemma GrantApart(rx: Party, pn: nat, p: Packet, now: nat, immediate: bool)
    requires rx.s.ack.Valid() && pn < U64
    ensures var t, u := DoDeliver(rx, pn, p, now, immediate).s, rx.s.Receive(pn, p, now).0;
      t.streams == u.streams && t.replay == u.replay
  {
    hide Session.Receive;
  }

  lemma SidReaches(rx: Party, tx: Party, pn: nat)
    requires Inv(rx, tx) && pn < |tx.log| && tx.log[pn].Data?
    ensures tx.log[pn].frame.sid in rx.s.streams || tx.log[pn].frame.sid % 2 != rx.s.parity
  {
    FrameReaches(rx, tx, pn);
  }

  // Storing any other packet changes nothing for a segment.
  lemma OtherFrameHeld(rx: Party, tx: Party, qn: nat, pn: nat, f: DataFrame)
    requires Inv(rx, tx) && Carries(tx.log, pn, f) && qn < |tx.log| && qn != pn && tx.log[qn].Data?
    ensures var h := tx.log[qn].frame;
      h.sid == f.sid ==>
        (Kept(StreamOr(rx.s.streams, h.sid).Receive(h.Segment(), h.fin).0, f.Segment()) <==>
         Kept(StreamOr(rx.s.streams, h.sid), f.Segment()))
  {
    var h := tx.log[qn].frame;
    assert FrameOk(h, tx.s.streams, tx.written);
    if h.sid == f.sid && !h.fin {
      CarriedFacts(rx, tx, qn, h);
      CarriedDiffer(tx, rx, pn, f, qn, h);
      StoreKeepsCut(StreamOr(rx.s.streams, h.sid), h.sid, At(rx.got, h.sid), At(tx.written, h.sid), tx.log,
                    h.Segment(), f.Segment());
    }
  }

  lemma FreshHeldNothing(rx: Party, tx: Party, pn: nat, f: DataFrame)
    requires Inv(rx, tx) && Carries(tx.log, pn, f)
    ensures Kept(StreamOr(rx.s.streams, f.sid), f.Segment()) <==> Held(rx.s.streams, f.sid, f.Segment())
  {
    CarriedFacts(rx, tx, pn, f);
  }

  lemma OtherHeld(rx: Party, tx: Party, qn: nat, pn: nat, f: DataFrame)
    requires Inv(rx, tx) && Carries(tx.log, pn, f) && qn < |tx.log| && qn != pn
    ensures Held(StreamsAfter(rx.s, tx.log[qn]), f.sid, f.Segment()) <==> Held(rx.s.streams, f.sid, f.Segment())
  {
    hide Inv, Kept;
    var p := tx.log[qn];
    if p.Data? {
      OtherFrameHeld(rx, tx, qn, pn, f);
      FreshHeldNothing(rx, tx, pn, f);
      ReplaceHeld(rx.s.streams, p.frame.sid,
                  StreamOr(rx.s.streams, p.frame.sid).Receive(p.frame.Segment(), p.frame.fin).0, f.sid, f.Segment());
    }
  }

  // A packet accepted for the first time is stored exactly when the stream cap lets it in.
  lemma AcceptHeld(rx: Party, tx: Party, pn: nat, f: DataFrame)
    requires Inv(rx, tx) && Carries(tx.log, pn, f)
    ensures !TooMany(rx.s, f.sid) <==> Held(StreamsAfter(rx.s, tx.log[pn]), f.sid, f.Segment())
  {
    hide Inv, Kept;
    CarriedFacts(rx, tx, pn, f);
    var a := StreamOr(rx.s.streams, f.sid);
    StoreKeepsCut(a, f.sid, At(rx.got, f.sid), At(tx.written, f.sid), tx.log, f.Segment(), f.Segment());
    ReplaceHeld(rx.s.streams, f.sid, a.Receive(f.Segment(), false).0, f.sid, f.Segment());
  }

  // The read of this action stops inside the segment.
  ghost predicate SeveredBy(a: Action, streams: map<nat, StreamState>, sid: nat, g: Seg) {
    a.Read? && a.sid == sid && sid in streams && Severs(streams[sid], a.maxBytes, g)
  }

  // Once its number is recorded, only a read that stops inside the segment changes whether it is held.
  lemma ActHeld(rx: Party, tx: Party, a: Action, now: nat, pn: nat, f: DataFrame)
    requires Inv(rx, tx) && Carries(tx.log, pn, f) && pn in rx.s.replay.accepted
    ensures Held(Act(rx, tx, a, now).s.streams, f.sid, f.Segment()) <==>
      Held(rx.s.streams, f.sid, f.Segment()) && !SeveredBy(a, rx.s.streams, f.sid, f.Segment())
    ensures pn in Act(rx, tx, a, now).s.replay.accepted
  {
    hide Inv, Act, Held, Carries;
    if a.Receive? {
      ReceiveActHeld(rx, tx, a, now, pn, f);
    } else if a.Read? {
      ReadActHeld(rx, tx, a, now, pn, f);
    } else {
      QuietActHeld(rx, tx, a, now, pn, f);
    }
  }

  lemma ReadActHeld(rx: Party, tx: Party, a: Action, now: nat, pn: nat, f: DataFrame)
    requires Inv(rx, tx) && Carries(tx.log, pn, f) && a.Read?
    ensures Held(Act(rx, tx, a, now).s.streams, f.sid, f.Segment()) <==>
      Held(rx.s.streams, f.sid, f.Segment()) && !SeveredBy(a, rx.s.streams, f.sid, f.Segment())
    ensures Act(rx, tx, a, now).s.replay == rx.s.replay
  {
    hide Inv, DoRead, Kept, Severs;
    FreshIds(rx, tx);
    ReadHeld(rx, tx, a.sid, a.maxBytes, pn, f);
  }

  lemma QuietActHeld(rx: Party, tx: Party, a: Action, now: nat, pn: nat, f: DataFrame)
    requires Inv(rx, tx) && Carries(tx.log, pn, f) && !a.Receive? && !a.Read?
    ensures Held(Act(rx, tx, a, now).s.streams, f.sid, f.Segment()) <==> Held(rx.s.streams, f.sid, f.Segment())
    ensures Act(rx, tx, a, now).s.replay == rx.s.replay
  {
    hide Inv, Act, Held, SameHeld;
    FreshIds(rx, tx);
    CarriedFacts(rx, tx, pn, f);
    QuietHeld(rx, tx, a, now);
    SameHeldHolds(rx.s.streams, Act(rx, tx, a, now).s.streams, f.sid, f.Segment());
  }

  lemma ReceiveActHeld(rx: Party, tx: Party, a: Action, now: nat, pn: nat, f: DataFrame)
    requires Inv(rx, tx) && Carries(tx.log, pn, f) && pn in rx.s.replay.accepted && a.Receive?
    ensures Held(Act(rx, tx, a, now).s.streams, f.sid, f.Segment()) <==> Held(rx.s.streams, f.sid, f.Segment())
    ensures pn in Act(rx, tx, a, now).s.replay.accepted
  {
    hide Inv, StreamsAfter, DoDeliver;
    if a.pn < |tx.log| {
      DeliverState(rx, tx, a.pn, now, a.immediate);
      if a.pn != pn { OtherHeld(rx, tx, a.pn, pn, f); }
    }
  }

  // ---- Whole runs ----

  lemma ActLog(me: Party, peer: Party, a: Action, now: nat)
    requires me.s.ack.Valid() && |peer.log| <= U64
    ensures me.log <= Act(me, peer, a, now).log
  {}

  lemma CarriesOn(log: seq<Packet>, longer: seq<Packet>, pn: nat, f: DataFrame)
    requires log <= longer && Carries(log, pn, f)
    ensures Carries(longer, pn, f)
  {}

  // The step is taken by the receiver of this direction.
  predicate ByReceiver(t: Step, fromClient: bool) { t.byClient != fromClient }

  lemma MoveHeld(w: World, v: World, t: Step, fromClient: bool, pn: nat, f: DataFrame)
    requires Inv(w.client, w.server) && Moves(w, v, t)
    requires Carries(Of(w, fromClient).log, pn, f) && pn in Of(w, !fromClient).s.replay.accepted
    ensures Carries(Of(v, fromClient).log, pn, f) && pn in Of(v, !fromClient).s.replay.accepted
    ensures Held(Of(v, !fromClient).s.streams, f.sid, f.Segment()) <==>
      && Held(Of(w, !fromClient).s.streams, f.sid, f.Segment())
      && !(ByReceiver(t, fromClient) && SeveredBy(t.action, Of(w, !fromClient).s.streams, f.sid, f.Segment()))
  {
    hide Act, Held, SeveredBy;
    var tx, rx := Of(w, fromClient), Of(w, !fromClient);
    if ByReceiver(t, fromClient) {
      ActHeld(rx, tx, t.action, t.now, pn, f);
    } else {
      ActLog(tx, rx, t.action, t.now);
      CarriesOn(tx.log, Act(tx, rx, t.action, t.now).log, pn, f);
    }
  }

  // The receiver accepts packet pn in this step.
  ghost predicate Accepts(w: World, t: Step, fromClient: bool, pn: nat) {
    && ByReceiver(t, fromClient) && t.action.Receive? && t.action.pn == pn && pn < |Of(w, fromClient).log|
    && Of(w, !fromClient).s.replay.Judge(pn) == Replay.Accept
  }

  lemma MoveAccepts(w: World, v: World, t: Step, fromClient: bool, pn: nat, f: DataFrame)
    requires Inv(w.client, w.server) && Moves(w, v, t)
    requires Accepts(w, t, fromClient, pn) && Carries(Of(w, fromClient).log, pn, f)
    ensures Carries(Of(v, fromClient).log, pn, f) && pn in Of(v, !fromClient).s.replay.accepted
    ensures Held(Of(v, !fromClient).s.streams, f.sid, f.Segment()) <==> !TooMany(Of(w, !fromClient).s, f.sid)
  {
    hide Inv, Held, StreamsAfter, DoDeliver;
    var tx, rx := Of(w, fromClient), Of(w, !fromClient);
    InvOf(w, !fromClient);
    FreshIds(rx, tx);
    DeliverState(rx, tx, pn, t.now, t.action.immediate);
    AcceptHeld(rx, tx, pn, f);
  }

  // Step j is a read of the receiver that stops inside the segment.
  ghost predicate SeversAt(r: Trace, fromClient: bool, sid: nat, g: Seg, j: nat)
    requires j < |r.steps| && |r.worlds| == |r.steps| + 1
  {
    ByReceiver(r.steps[j], fromClient) && SeveredBy(r.steps[j].action, Of(r.worlds[j], !fromClient).s.streams, sid, g)
  }

  ghost predicate SeveredBetween(r: Trace, fromClient: bool, sid: nat, g: Seg, i: nat, n: nat)
    requires n <= |r.steps| && |r.worlds| == |r.steps| + 1
  {
    exists j | i < j < n :: SeversAt(r, fromClient, sid, g, j)
  }

  lemma SeveredStep(r: Trace, fromClient: bool, sid: nat, g: Seg, i: nat, n: nat)
    requires i < n < |r.steps| && |r.worlds| == |r.steps| + 1
    ensures SeveredBetween(r, fromClient, sid, g, i, n + 1) <==>
      SeveredBetween(r, fromClient, sid, g, i, n) || SeversAt(r, fromClient, sid, g, n)
  {}

  // The fate of every data segment whose packet was accepted at step i: at any later time it has been read or waits
  // to be read if and only if the stream cap let it in and no read since stopped inside it.
  lemma {:induction false} SegmentFate(r: Trace, c: nat, s: nat, fromClient: bool, pn: nat, f: DataFrame,
        i: nat, n: nat)
    requires IsRun(r, c, s) && i < n < |r.worlds|
    requires Accepts(r.worlds[i], r.steps[i], fromClient, pn) && Carries(Of(r.worlds[i], fromClient).log, pn, f)
    ensures Carries(Of(r.worlds[n], fromClient).log, pn, f) && pn in Of(r.worlds[n], !fromClient).s.replay.accepted
    ensures Held(Of(r.worlds[n], !fromClient).s.streams, f.sid, f.Segment()) <==>
      !TooMany(Of(r.worlds[i], !fromClient).s, f.sid) && !SeveredBetween(r, fromClient, f.sid, f.Segment(), i, n)
    decreases n
  {
    hide Held, Carries, Accepts, Moves, TooMany, SeversAt, Inv;
    RunInv(r, c, s, n - 1);
    StepOf(r, c, s, n - 1);
    if n == i + 1 {
      MoveAccepts(r.worlds[i], r.worlds[n], r.steps[i], fromClient, pn, f);
    } else {
      SegmentFate(r, c, s, fromClient, pn, f, i, n - 1);
      FateStep(r, c, s, fromClient, pn, f, n - 1);
      SeveredStep(r, fromClient, f.sid, f.Segment(), i, n - 1);
    }
  }

  lemma FateStep(r: Trace, c: nat, s: nat, fromClient: bool, pn: nat, f: DataFrame, n: nat)
    requires IsRun(r, c, s) && n < |r.steps|
    requires Carries(Of(r.worlds[n], fromClient).log, pn, f) && pn in Of(r.worlds[n], !fromClient).s.replay.accepted
    ensures Carries(Of(r.worlds[n + 1], fromClient).log, pn, f)
    ensures pn in Of(r.worlds[n + 1], !fromClient).s.replay.accepted
    ensures Held(Of(r.worlds[n + 1], !fromClient).s.streams, f.sid, f.Segment()) <==>
      && Held(Of(r.worlds[n], !fromClient).s.streams, f.sid, f.Segment())
      && !SeversAt(r, fromClient, f.sid, f.Segment(), n)
  {
    hide Held, Carries, Moves, Inv;
    RunInv(r, c, s, n);
    StepOf(r, c, s, n);
    MoveHeld(r.worlds[n], r.worlds[n + 1], r.steps[n], fromClient, pn, f);
  }

  // ---- What the stream cap refuses ----

  // At the cap no action opens a stream.
  lemma FullKeepsStreams(me: Party, peer: Party, a: Action, now: nat, sid: nat)
    requires Inv(me, peer) && TooMany(me.s, sid)
    ensures TooMany(Act(me, peer, a, now).s, sid)
  {
    if a.Receive? {
      if a.pn < |peer.log| { FullDeliver(me, peer, a.pn, now, a.immediate, sid); }
    } else if a.Read? {
      FullRead(me, peer, a.sid, a.maxBytes, sid);
    } else {
      FullQuiet(me, peer, a, now, sid);
    }
  }

  lemma CapKept(me: Party, peer: Party, a: Action, now: nat)
    requires me.s.ack.Valid() && |peer.log| <= U64
    ensures Act(me, peer, a, now).s.maxStreams == me.s.maxStreams
  {
    hide DoDeliver;
    if a.Receive? && a.pn < |peer.log| { DeliverCap(me, a.pn, peer.log[a.pn], now, a.immediate); }
  }

  lemma DeliverCap(me: Party, pn: nat, p: Packet, now: nat, immediate: bool)
    requires me.s.ack.Valid() && pn < U64
    ensures DoDeliver(me, pn, p, now, immediate).s.maxStreams == me.s.maxStreams
  {}

  lemma SameKeysTooMany(s: Session, t: Session, sid: nat)
    requires TooMany(s, sid) && t.streams.Keys == s.streams.Keys && t.maxStreams == s.maxStreams
    ensures TooMany(t, sid)
  {
    assert |t.streams| == |t.streams.Keys| == |s.streams|;
  }

  lemma FullDeliver(me: Party, peer: Party, pn: nat, now: nat, immediate: bool, sid: nat)
    requires Inv(me, peer) && TooMany(me.s, sid) && pn < |peer.log|
    ensures TooMany(Act(me, peer, Action.Receive(pn, immediate), now).s, sid)
  {
    hide Inv, DoDeliver;
    FreshIds(me, peer);
    DeliverState(me, peer, pn, now, immediate);
    CapKept(me, peer, Action.Receive(pn, immediate), now);
    var t := DoDeliver(me, pn, peer.log[pn], now, immediate).s;
    assert t.streams.Keys == me.s.streams.Keys;
    SameKeysTooMany(me.s, t, sid);
  }

  lemma FullRead(me: Party, peer: Party, k: nat, m: nat, sid: nat)
    requires Inv(me, peer) && TooMany(me.s, sid)
    ensures TooMany(Act(me, peer, Action.Read(k, m), 0).s, sid)
  {
    hide Inv, DoRead;
    FreshIds(me, peer);
    ReadStep(me, peer, k, m);
    ReadState(me, k, m);
    CapKept(me, peer, Action.Read(k, m), 0);
    assert DoRead(me, k, m).s.streams.Keys == me.s.streams.Keys;
    SameKeysTooMany(me.s, DoRead(me, k, m).s, sid);
  }

  lemma FullQuiet(me: Party, peer: Party, a: Action, now: nat, sid: nat)
    requires Inv(me, peer) && TooMany(me.s, sid) && !a.Receive? && !a.Read?
    ensures TooMany(Act(me, peer, a, now).s, sid)
  {
    FullKeys(me, peer, a, now);
    CapKept(me, peer, a, now);
    hide Act, Inv;
    SameKeysTooMany(me.s, Act(me, peer, a, now).s, sid);
  }

  lemma FullKeys(me: Party, peer: Party, a: Action, now: nat)
    requires me.s.ack.Valid() && |peer.log| <= U64 && |me.s.streams| >= me.s.maxStreams && !a.Receive? && !a.Read?
    ensures Act(me, peer, a, now).s.streams.Keys == me.s.streams.Keys
  {}

  lemma MoveRefused(w: World, v: World, t: Step, client: bool, sid: nat)
    requires Inv(w.client, w.server) && Moves(w, v, t) && TooMany(Of(w, client).s, sid)
    ensures TooMany(Of(v, client).s, sid)
  {
    hide Act, TooMany;
    if t.byClient == client { FullKeepsStreams(Of(w, client), Of(w, !client), t.action, t.now, sid); }
  }

  lemma {:induction false} StaysRefused(r: Trace, c: nat, s: nat, client: bool, sid: nat, i: nat, n: nat)
    requires IsRun(r, c, s) && i <= n < |r.worlds| && TooMany(Of(r.worlds[i], client).s, sid)
    ensures TooMany(Of(r.worlds[n], client).s, sid)
    decreases n
  {
    hide TooMany, Moves, Inv;
    if i < n {
      StaysRefused(r, c, s, client, sid, i, n - 1);
      RunInv(r, c, s, n - 1);
      StepOf(r, c, s, n - 1);
      MoveRefused(r.worlds[n - 1], r.worlds[n], r.steps[n - 1], client, sid);
    }
  }

  // A packet refused by the stream cap is recorded, so no retransmission is let in again; its stream never opens
  // at the receiver and nothing of it is ever read.
  lemma RefusedForever(r: Trace, c: nat, s: nat, fromClient: bool, pn: nat, f: DataFrame, i: nat, n: nat)
    requires IsRun(r, c, s) && i < n < |r.worlds|
    requires Accepts(r.worlds[i], r.steps[i], fromClient, pn) && Carries(Of(r.worlds[i], fromClient).log, pn, f)
    requires TooMany(Of(r.worlds[i], !fromClient).s, f.sid)
    ensures var rx := Of(r.worlds[n], !fromClient);
      rx.s.replay.Judge(pn) != Replay.Accept && f.sid !in rx.s.streams && At(rx.got, f.sid) == []
  {
    SegmentFate(r, c, s, fromClient, pn, f, i, n);
    StaysRefused(r, c, s, !fromClient, f.sid, i, n);
    RunInv(r, c, s, n);
    NeverRead(Of(r.worlds[n], !fromClient), Of(r.worlds[n], fromClient), f.sid);
  }

  // ---- Everything is cut ----

  // Byte p of the stream was cut into some numbered packet.
  ghost predicate CutAt(log: seq<Packet>, sid: nat, p: nat) {
    exists i | 0 <= i < |log| ::
      log[i].Data? && !log[i].frame.fin && log[i].frame.sid == sid &&
      log[i].frame.offset <= p < End(log[i].frame.Segment())
  }

  // No byte below the unsent ones was skipped.
  ghost predicate Covered(me: Party) {
    forall sid, p: nat | sid in me.s.streams && p < me.s.streams[sid].Unsent() :: CutAt(me.log, sid, p)
  }

  lemma CutStays(log: seq<Packet>, longer: seq<Packet>, sid: nat, p: nat)
    requires log <= longer && CutAt(log, sid, p)
    ensures CutAt(longer, sid, p)
  {
    var i :| 0 <= i < |log| && log[i].Data? && !log[i].frame.fin && log[i].frame.sid == sid &&
      log[i].frame.offset <= p < End(log[i].frame.Segment());
    assert longer[i] == log[i];
  }

  // The unsent part of no stream moved, and new streams have sent nothing.
  ghost predicate SameUnsent(a: map<nat, StreamState>, b: map<nat, StreamState>) {
    forall sid | sid in b :: if sid in a then b[sid].Unsent() == a[sid].Unsent() else b[sid].Unsent() == 0
  }

  lemma CoveredStays(me: Party, me': Party)
    requires Covered(me) && me.log <= me'.log && SameUnsent(me.s.streams, me'.s.streams)
    ensures Covered(me')
  {
    forall sid, p: nat | sid in me'.s.streams && p < me'.s.streams[sid].Unsent() ensures CutAt(me'.log, sid, p) {
      CutStays(me.log, me'.log, sid, p);
    }
  }

  lemma ReplacedUnsent(a: map<nat, StreamState>, sid: nat, st: StreamState)
    requires st.Unsent() == StreamOr(a, sid).Unsent()
    ensures SameUnsent(a, a[sid := st])
  {}

  lemma SameUnsentRefl(a: map<nat, StreamState>)
    ensures SameUnsent(a, a)
  {}

  lemma WriteUnsent(me: Party, sid: nat, data: seq<byte>)
    ensures SameUnsent(me.s.streams, DoWrite(me, sid, data).s.streams)
  {
    SameUnsentRefl(me.s.streams);
    if sid in me.s.streams { ReplacedUnsent(me.s.streams, sid, me.s.streams[sid].Write(data).0); }
  }

  lemma OpenUnsent(me: Party)
    requires IdsFresh(me.s.streams, me.s.parity, me.s.nextStreamId)
    ensures SameUnsent(me.s.streams, DoOpen(me).s.streams)
  {}

  lemma FinishUnsent(me: Party, sid: nat)
    ensures SameUnsent(me.s.streams, DoFinish(me, sid).s.streams)
  {
    SameUnsentRefl(me.s.streams);
    if sid in me.s.streams { ReplacedUnsent(me.s.streams, sid, me.s.streams[sid].Finish()); }
  }

  lemma FinUnsent(me: Party, sid: nat, now: nat)
    requires me.s.HasFin(sid)
    ensures SameUnsent(me.s.streams, DoFin(me, sid, now).s.streams)
  {
    ReplacedUnsent(me.s.streams, sid, me.s.streams[sid].(finFlushed := true));
  }

  lemma ReadUnsent(me: Party, peer: Party, sid: nat, m: nat)
    requires Inv(me, peer)
    ensures SameUnsent(me.s.streams, DoRead(me, sid, m).s.streams)
  {
    hide DoRead, Inv, StreamState.Read;
    SameUnsentRefl(me.s.streams);
    ReadStep(me, peer, sid, m);
    ReadState(me, sid, m);
    if sid in me.s.streams {
      StreamFacts(me, peer, sid);
      ReadLink(me.s.streams[sid], sid, At(me.got, sid), At(peer.written, sid), peer.log, m);
      ReplacedUnsent(me.s.streams, sid, me.s.streams[sid].Read(m).value.0);
    }
  }

  lemma DeliverUnsent(me: Party, peer: Party, pn: nat, now: nat, immediate: bool)
    requires Inv(me, peer) && pn < |peer.log|
    ensures SameUnsent(me.s.streams, DoDeliver(me, pn, peer.log[pn], now, immediate).s.streams)
  {
    hide DoDeliver, Inv;
    SameUnsentRefl(me.s.streams);
    DeliverState(me, peer, pn, now, immediate);
    var p := peer.log[pn];
    if p.Data? {
      ReplacedUnsent(me.s.streams, p.frame.sid,
                     StreamOr(me.s.streams, p.frame.sid).Receive(p.frame.Segment(), p.frame.fin).0);
    }
  }

  // Only cutting a segment moves the unsent part of a stream.
  lemma ActUnsent(me: Party, peer: Party, a: Action, now: nat)
    requires Inv(me, peer) && !a.FlushSegment?
    ensures SameUnsent(me.s.streams, Act(me, peer, a, now).s.streams)
  {
    hide SameUnsent, Inv, DoOpen, DoWrite, DoFinish, DoFin, DoRead, DoDeliver;
    SameUnsentRefl(me.s.streams);
    FreshIds(me, peer);
    match a {
      case Open => OpenUnsent(me);
      case Write(sid, data) => WriteUnsent(me, sid, data);
      case Finish(sid) => FinishUnsent(me, sid);
      case FlushFin(sid) => if me.s.HasFin(sid) { FinUnsent(me, sid, now); }
      case Read(sid, m) => ReadUnsent(me, peer, sid, m);
      case Receive(pn, immediate) => if pn < |peer.log| { DeliverUnsent(me, peer, pn, now, immediate); }
      case _ => ControlHeld(me, peer, a, now);
    }
  }

  // The segment cut next begins where the last one ended.
  lemma SegmentCovers(me: Party, sid: nat, now: nat)
    requires Covered(me) && me.s.HasSegment(sid) && Sending(me.s.streams[sid], At(me.written, sid))
    ensures Covered(DoSegment(me, sid, now))
  {
    var me' := DoSegment(me, sid, now);
    PollSendCuts(me.s.streams[sid], At(me.written, sid), SEGMENT);
    var q := me.s.FlushSegment(sid, now).1;
    forall k, p: nat | k in me'.s.streams && p < me'.s.streams[k].Unsent() ensures CutAt(me'.log, k, p) {
      if p < me.s.streams[k].Unsent() {
        CutStays(me.log, me'.log, k, p);
      } else {
        assert me'.log[|me.log|] == q;
      }
    }
  }

  lemma ActCovered(me: Party, peer: Party, a: Action, now: nat)
    requires Inv(me, peer) && Covered(me)
    ensures Covered(Act(me, peer, a, now))
  {
    if a.FlushSegment? {
      CutCovered(me, peer, a.sid, now);
    } else {
      QuietCovered(me, peer, a, now);
    }
  }

  lemma QuietCovered(me: Party, peer: Party, a: Action, now: nat)
    requires Inv(me, peer) && Covered(me) && !a.FlushSegment?
    ensures Covered(Act(me, peer, a, now))
  {
    hide Act, Covered, SameUnsent, Inv;
    FreshIds(me, peer);
    ActUnsent(me, peer, a, now);
    ActLog(me, peer, a, now);
    CoveredStays(me, Act(me, peer, a, now));
  }

  lemma CutCovered(me: Party, peer: Party, sid: nat, now: nat)
    requires Inv(me, peer) && Covered(me)
    ensures Covered(Act(me, peer, Action.FlushSegment(sid), now))
  {
    hide Covered, Inv;
    if me.s.nextPn < U64 && me.s.HasSegment(sid) {
      StreamFacts(me, peer, sid);
      SegmentCovers(me, sid, now);
    }
  }

  lemma {:induction false} RunCovered(r: Trace, c: nat, s: nat, n: nat, client: bool)
    requires IsRun(r, c, s) && n < |r.worlds|
    ensures Covered(Of(r.worlds[n], client))
  {
    hide Covered, Moves, Inv;
    if n == 0 {
      StartCovered(c, s, client);
    } else {
      RunCovered(r, c, s, n - 1, client);
      RunInv(r, c, s, n - 1);
      StepOf(r, c, s, n - 1);
      MoveCovered(r.worlds[n - 1], r.worlds[n], r.steps[n - 1], client);
    }
  }

  lemma StartCovered(c: nat, s: nat, client: bool)
    ensures Covered(Of(Start(c, s), client))
  {}

  lemma MoveCovered(w: World, v: World, t: Step, client: bool)
    requires Inv(w.client, w.server) && Moves(w, v, t) && Covered(Of(w, client))
    ensures Covered(Of(v, client))
  {
    hide Act, Covered;
    if t.byClient == client { ActCovered(Of(w, client), Of(w, !client), t.action, t.now); }
  }

  // ---- Everything arrives ----

  // Every piece of the stream that was cut is held by its receiver.
  ghost predicate AllHeld(log: seq<Packet>, sid: nat, st: StreamState) {
    forall g: Seg | WasCut(log, sid, g) :: Kept(st, g)
  }

  // Pieces of w, covering all of it.
  ghost predicate CutsWhole(log: seq<Packet>, sid: nat, w: seq<byte>) {
    && LogOrdered(log) && (forall g: Seg | WasCut(log, sid, g) :: PieceOf(g, w))
    && (forall p: nat | p < |w| :: CutAt(log, sid, p))
  }

  lemma PieceAt(log: seq<Packet>, sid: nat, p: nat) returns (g: Seg)
    requires CutAt(log, sid, p)
    ensures WasCut(log, sid, g) && g.0 <= p < End(g)
  {
    var i :| 0 <= i < |log| && log[i].Data? && !log[i].frame.fin && log[i].frame.sid == sid &&
      log[i].frame.offset <= p < End(log[i].frame.Segment());
    g := log[i].frame.Segment();
  }

  // A last read returns the rest of the stream exactly when nothing is lost and its budget suffices.
  lemma LastReadOf(st: StreamState, sid: nat, got: seq<byte>, w: seq<byte>, log: seq<Packet>, m: nat)
    requires StreamLink(st, sid, got, w, log) && CutsWhole(log, sid, w)
    ensures st.Read(m).Some?
    ensures got + st.Read(m).value.1 == w <==> AllHeld(log, sid, st) && st.recvOffset + m >= |w|
  {
    hide StreamState.Read;
    ReadKeeps(st, w, m);
    var t := st.Read(m).value.0;
    SliceJoin(w, 0, st.recvOffset, t.recvOffset);
    assert got + st.Read(m).value.1 == w[..t.recvOffset];
    if t.recvOffset == |w| {
      forall g: Seg | WasCut(log, sid, g) ensures Kept(st, g) { ReadKeepsCut(st, sid, got, w, log, m, g); }
    } else if AllHeld(log, sid, st) && st.recvOffset + m >= |w| {
      var g := PieceAt(log, sid, t.recvOffset);
      ReadKeepsCut(st, sid, got, w, log, m, g);
      HeadFirst(t, w, g);
      assert false;
    }
  }

  lemma FlushedCutsWhole(tx: Party, rx: Party, sid: nat)
    requires Inv(tx, rx) && Covered(tx) && sid in tx.s.streams && tx.s.streams[sid].sendBuf == []
    ensures CutsWhole(tx.log, sid, At(tx.written, sid))
  {
    StreamFacts(tx, rx, sid);
    var w := At(tx.written, sid);
    forall g: Seg | WasCut(tx.log, sid, g) ensures PieceOf(g, w) {
      var i :| 0 <= i < |tx.log| && tx.log[i].Data? && !tx.log[i].frame.fin && tx.log[i].frame.sid == sid &&
        tx.log[i].frame.Segment() == g;
      assert FrameOk(tx.log[i].frame, tx.s.streams, tx.written);
    }
  }

  // In every run, once everything written on a stream has been cut into packets, the next read brings what was read
  // to exactly what was written if and only if every packet of the stream is held and the budget suffices.
  // SegmentFate says which packets are held.
  lemma EverythingArrives(r: Trace, c: nat, s: nat, n: nat, fromClient: bool, sid: nat, m: nat)
    requires IsRun(r, c, s) && n < |r.worlds|
    requires sid in Of(r.worlds[n], fromClient).s.streams
    requires Of(r.worlds[n], fromClient).s.streams[sid].sendBuf == []
    ensures var w := r.worlds[n];
      var tx, rx := Of(w, fromClient), Of(w, !fromClient);
      var st := StreamOr(rx.s.streams, sid);
      At(DoRead(rx, sid, m).got, sid) == At(tx.written, sid) <==>
        AllHeld(tx.log, sid, st) && st.recvOffset + m >= |At(tx.written, sid)|
  {
    RunInv(r, c, s, n);
    RunCovered(r, c, s, n, fromClient);
    Arrives(Of(r.worlds[n], fromClient), Of(r.worlds[n], !fromClient), sid, m);
  }

  lemma Arrives(tx: Party, rx: Party, sid: nat, m: nat)
    requires Inv(tx, rx) && Covered(tx) && sid in tx.s.streams && tx.s.streams[sid].sendBuf == []
    ensures var st := StreamOr(rx.s.streams, sid);
      At(DoRead(rx, sid, m).got, sid) == At(tx.written, sid) <==>
        AllHeld(tx.log, sid, st) && st.recvOffset + m >= |At(tx.written, sid)|
  {
    hide Inv, DoRead, AllHeld, StreamState.Read, Covered;
    FlushedCutsWhole(tx, rx, sid);
    InvBoth(tx, rx);
    var w := At(tx.written, sid);
    ReadStep(rx, tx, sid, m);
    ReadGot(rx, sid, m);
    if sid in rx.s.streams {
      StreamFacts(rx, tx, sid);
      LastReadOf(rx.s.streams[sid], sid, At(rx.got, sid), w, tx.log, m);
    } else {
      NeverRead(rx, tx, sid);
      UnopenedHolds(tx.log, sid, w);
    }
  }

  lemma InvBoth(a: Party, b: Party)
    requires Inv(a, b)
    ensures Inv(b, a)
  {}

  lemma ReadGot(rx: Party, sid: nat, m: nat)
    requires rx.s.ReadStream(sid, m).Some?
    ensures sid in rx.s.streams ==> rx.s.streams[sid].Read(m).Some?
    ensures At(DoRead(rx, sid, m).got, sid) ==
      if sid in rx.s.streams then At(rx.got, sid) + rx.s.streams[sid].Read(m).value.1 else At(rx.got, sid)
  {}

  lemma UnopenedHolds(log: seq<Packet>, sid: nat, w: seq<byte>)
    requires CutsWhole(log, sid, w)
    ensures AllHeld(log, sid, Stream.New()) <==> w == []
  {
    if w != [] { var g := PieceAt(log, sid, 0); }
  }
}
