// Two sessions and a network that drops, duplicates and reorders their packets.
module TwoParty {
  import opened Bytes
  import opened Stream
  import opened Session
  import Ack = AckRanges
  import Arq
  import Replay

  // A session with its history: every packet it ever numbered, what its application wrote
  // and read on each stream, and the acknowledged bytes already passed to congestion control.
  datatype Party = Party(
    s: Session, log: seq<Packet>, written: map<nat, seq<byte>>, got: map<nat, seq<byte>>, drained: nat)

  function At(m: map<nat, seq<byte>>, sid: nat): seq<byte> { if sid in m then m[sid] else [] }

  // ---- Sums over a log ----

  function WireSum(log: seq<Packet>): nat {
    if log == [] then 0 else WireSum(log[..|log| - 1]) + log[|log| - 1].WireSize()
  }

  // Payload bytes of the packets numbered in acc.
  function PayloadSum(log: seq<Packet>, acc: set<nat>): nat {
    if log == [] then 0
    else PayloadSum(log[..|log| - 1], acc) + (if |log| - 1 in acc then log[|log| - 1].PayloadSize() else 0)
  }

  function AllPayload(log: seq<Packet>): nat {
    if log == [] then 0 else AllPayload(log[..|log| - 1]) + log[|log| - 1].PayloadSize()
  }

  // Bytes waiting in the send buffers of the streams numbered below n.
  function Buffered(streams: map<nat, StreamState>, n: nat): nat
    decreases n, streams
  {
    if n == 0 then 0 else Buffered(streams, n - 1) + (if n - 1 in streams then |streams[n - 1].sendBuf| else 0)
  }

  lemma SumSnoc(log: seq<Packet>, p: Packet, acc: set<nat>)
    ensures WireSum(log + [p]) == WireSum(log) + p.WireSize()
    ensures AllPayload(log + [p]) == AllPayload(log) + p.PayloadSize()
    ensures |log| !in acc ==> PayloadSum(log + [p], acc) == PayloadSum(log, acc)
  {
    assert (log + [p])[..|log|] == log;
  }

  lemma {:induction false} PayloadBound(log: seq<Packet>, acc: set<nat>)
    ensures PayloadSum(log, acc) <= AllPayload(log)
  {
    if log != [] { PayloadBound(log[..|log| - 1], acc); }
  }

  lemma {:induction false} PayloadSame(log: seq<Packet>, acc: set<nat>, n: nat)
    requires n >= |log|
    ensures PayloadSum(log, acc + {n}) == PayloadSum(log, acc)
  {
    if log != [] { PayloadSame(log[..|log| - 1], acc, n); }
  }

  lemma {:induction false} PayloadAdd(log: seq<Packet>, acc: set<nat>, pn: nat)
    requires pn < |log| && pn !in acc
    ensures PayloadSum(log, acc + {pn}) == PayloadSum(log, acc) + log[pn].PayloadSize()
  {
    var n := |log| - 1;
    if pn == n { PayloadSame(log[..n], acc, n); } else { PayloadAdd(log[..n], acc, pn); }
  }

  lemma {:induction false} BufferedSet(streams: map<nat, StreamState>, n: nat, sid: nat, st: StreamState)
    ensures Buffered(streams[sid := st], n) ==
      Buffered(streams, n) + (if sid < n then |st.sendBuf| else 0)
      - (if sid < n && sid in streams then |streams[sid].sendBuf| else 0)
    ensures sid < n && sid in streams ==> |streams[sid].sendBuf| <= Buffered(streams, n)
  {
    if n > 0 { BufferedSet(streams, n - 1, sid, st); }
  }

  // ---- The invariant, piece by piece ----

  ghost predicate StreamSends(st: StreamState, w: seq<byte>) {
    Sending(st, w) && st.sendMax == st.recvMax == DEFAULT_WINDOW
  }

  ghost predicate SendSide(streams: map<nat, StreamState>, written: map<nat, seq<byte>>) {
    && (forall sid | sid in streams :: sid < U32 && StreamSends(streams[sid], At(written, sid)))
    && (forall sid | sid in written :: sid in streams)
  }

  // A numbered data frame is a piece of what was written and already cut off, or the final mark.
  ghost predicate FrameOk(f: DataFrame, streams: map<nat, StreamState>, written: map<nat, seq<byte>>) {
    && f.sid in streams
    && (if f.fin then f.data == [] && streams[f.sid].finSent && f.offset == |At(written, f.sid)|
        else PieceOf(f.Segment(), At(written, f.sid)) && End(f.Segment()) <= streams[f.sid].Unsent())
  }

  ghost predicate LogSound(log: seq<Packet>, streams: map<nat, StreamState>, written: map<nat, seq<byte>>) {
    forall i | 0 <= i < |log| && log[i].Data? :: FrameOk(log[i].frame, streams, written)
  }

  ghost predicate Before(p: Packet, q: Packet) {
    p.Data? && q.Data? && !p.frame.fin && !q.frame.fin && p.frame.sid == q.frame.sid ==>
      End(p.frame.Segment()) <= q.frame.offset
  }

  ghost predicate LogOrdered(log: seq<Packet>) { forall i, j | 0 <= i < j < |log| :: Before(log[i], log[j]) }

  ghost predicate EntryOk(x: Arq.Entry<Packet>, log: seq<Packet>) {
    x.0 < |log| && log[x.0].Data? && x.1.data == log[x.0] && x.1.size == log[x.0].WireSize()
  }

  ghost predicate ArqSound(entries: seq<Arq.Entry<Packet>>, log: seq<Packet>) {
    Arq.Ascending(entries) && forall x | x in entries :: EntryOk(x, log)
  }

  ghost predicate Credit(streams: map<nat, StreamState>, send: Flow, log: seq<Packet>) {
    AllPayload(log) + Buffered(streams, U32) <= send.consumed <= send.limit
  }

  ghost predicate IdsFresh(streams: map<nat, StreamState>, parity: nat, next: nat) {
    parity < 2 && next % 2 == parity && forall sid | sid in streams && sid % 2 == parity :: sid < next
  }

  ghost predicate AckBacked(received: seq<nat>, accepted: set<nat>) { forall n | n in received :: n in accepted }

  ghost predicate AckLog(log: seq<Packet>, accepted: set<nat>) {
    forall i, k: nat | 0 <= i < |log| && log[i].Ack? && Arq.Inside(log[i].ranges, k) :: k in accepted
  }

  // What one party keeps true on its own.
  ghost predicate Good(p: Party) {
    && p.s.nextPn == |p.log| <= U64
    && SendSide(p.s.streams, p.written)
    && LogSound(p.log, p.s.streams, p.written) && LogOrdered(p.log)
    && ArqSound(p.s.arq.entries, p.log)
    && p.drained + p.s.ccBytes + Arq.TotalSize(p.s.arq.entries) == WireSum(p.log)
    && Credit(p.s.streams, p.s.send, p.log) && IdsFresh(p.s.streams, p.s.parity, p.s.nextStreamId)
    && p.s.ack.Valid() && AckBacked(p.s.ack.received, p.s.replay.accepted)
    && AckLog(p.log, p.s.replay.accepted)
  }

  // The segment was cut by the sender into some numbered packet.
  ghost predicate WasCut(log: seq<Packet>, sid: nat, g: Seg) {
    exists i | 0 <= i < |log| ::
      log[i].Data? && !log[i].frame.fin && log[i].frame.sid == sid && log[i].frame.Segment() == g
  }

  ghost predicate StreamLink(st: StreamState, sid: nat, got: seq<byte>, w: seq<byte>, log: seq<Packet>) {
    && Receiving(st, w) && got == w[..st.recvOffset]
    && (forall i | 0 <= i < |st.recvBuf| :: WasCut(log, sid, st.recvBuf[i]))
  }

  ghost predicate Reassembled(streams: map<nat, StreamState>, got: map<nat, seq<byte>>, written: map<nat, seq<byte>>,
          log: seq<Packet>) {
    && (forall sid | sid in streams :: StreamLink(streams[sid], sid, At(got, sid), At(written, sid), log))
    && (forall sid | sid in got :: sid in streams)
  }

  ghost predicate FinOk(st: StreamState, sid: nat, streams: map<nat, StreamState>, written: map<nat, seq<byte>>) {
    st.finReceived.Some? ==> sid in streams && streams[sid].finSent && st.finReceived.value == |At(written, sid)|
  }

  ghost predicate Outstanding(entries: seq<Arq.Entry<Packet>>, log: seq<Packet>, accepted: set<nat>) {
    forall pn: nat | pn < |log| && log[pn].Data? :: Arq.HasKey(entries, pn) || pn in accepted
  }

  ghost predicate Limits(sendLimit: nat, recvLimit: nat, log: seq<Packet>) {
    sendLimit <= recvLimit && forall i | 0 <= i < |log| && log[i].MaxData? :: log[i].limit <= recvLimit
  }

  ghost predicate FinsOk(rx: map<nat, StreamState>, tx: map<nat, StreamState>, written: map<nat, seq<byte>>) {
    forall sid | sid in rx :: FinOk(rx[sid], sid, tx, written)
  }

  ghost predicate Sent(accepted: set<nat>, log: seq<Packet>) { forall n | n in accepted :: n < |log| }

  // A stream the sender did not open itself was opened by the receiver.
  ghost predicate Opened(tx: map<nat, StreamState>, parity: nat, rx: map<nat, StreamState>) {
    forall sid | sid in tx :: sid % 2 == parity || sid in rx
  }

  // What ties the receiver r to the sender s.
  ghost predicate Link(s: Party, r: Party) {
    && Sent(r.s.replay.accepted, s.log)
    && Outstanding(s.s.arq.entries, s.log, r.s.replay.accepted)
    && Reassembled(r.s.streams, r.got, s.written, s.log)
    && FinsOk(r.s.streams, s.s.streams, s.written)
    && r.s.recvConsumed <= PayloadSum(s.log, r.s.replay.accepted)
    && Limits(s.s.send.limit, r.s.recv.limit, r.log)
    && Opened(s.s.streams, s.s.parity, r.s.streams)
  }

  ghost predicate Inv(a: Party, b: Party) {
    Good(a) && Good(b) && Link(a, b) && Link(b, a) && a.s.parity != b.s.parity
  }

  // ---- Steps of one party ----

  datatype Action =
    | Open
    | Write(sid: nat, data: seq<byte>)
    | Finish(sid: nat)
    | FlushSegment(sid: nat)
    | FlushFin(sid: nat)
    | FlushAck
    | FlushMaxData
    | FlushOther(eliciting: bool)
    | Receive(pn: nat, immediate: bool)
    | Read(sid: nat, maxBytes: nat)
    | Retransmit
    | DrainCc

  function Emitted(p: Party, s: Session, q: Packet): Party { p.(s := s, log := p.log + [q]) }

  function DoOpen(me: Party): Party { if me.s.nextStreamId < U32 then me.(s := me.s.Open().0) else me }

  function DoWrite(me: Party, sid: nat, data: seq<byte>): Party {
    var (s, r) := me.s.Send(sid, data);
    me.(s := s, written := if r.Ok? then me.written[sid := At(me.written, sid) + data] else me.written)
  }

  function DoFinish(me: Party, sid: nat): Party { me.(s := me.s.FinishStream(sid)) }

  function DoSegment(me: Party, sid: nat, now: nat): Party
    requires me.s.HasSegment(sid)
  {
    Emitted(me, me.s.FlushSegment(sid, now).0, me.s.FlushSegment(sid, now).1)
  }

  function DoFin(me: Party, sid: nat, now: nat): Party
    requires me.s.HasFin(sid)
  {
    Emitted(me, me.s.FlushFin(sid, now).0, me.s.FlushFin(sid, now).1)
  }

  function DoAck(me: Party): Party { Emitted(me, me.s.FlushAck().0, me.s.FlushAck().1) }

  function DoMaxData(me: Party): Party
    requires me.s.pendingMaxData.Some?
  {
    Emitted(me, me.s.FlushMaxData().0, me.s.FlushMaxData().1)
  }

  function DoOther(me: Party, eliciting: bool): Party { Emitted(me, me.s.Emit(Other(eliciting), 0), Other(eliciting)) }

  function DoReceive(me: Party, pn: nat, p: Packet, now: nat): Party
    requires me.s.ack.Valid() && pn < U64
  {
    me.(s := me.s.Receive(pn, p, now).0)
  }

  // The connection flushes a grant at once after a packet was received without error.
  function DoDeliver(me: Party, pn: nat, p: Packet, now: nat, immediate: bool): Party
    requires me.s.ack.Valid() && pn < U64
  {
    var m, o := DoReceive(me, pn, p, now), me.s.Receive(pn, p, now).1;
    if immediate && o.Some? && o.value.Ok? && m.s.pendingMaxData.Some? && m.s.nextPn < U64 then DoMaxData(m) else m
  }

  function DoRead(me: Party, sid: nat, maxBytes: nat): Party {
    var r := me.s.ReadStream(sid, maxBytes);
    if r.None? || r.value.1.Err? then me
    else me.(s := r.value.0, got := me.got[sid := At(me.got, sid) + r.value.1.value])
  }

  function DoRetransmit(me: Party, now: nat): Party { me.(s := me.s.(arq := me.s.arq.DrainExpired(now).0)) }

  function DoDrainCc(me: Party): Party { me.(s := me.s.(ccBytes := 0), drained := me.drained + me.s.ccBytes) }

  // An action that is not enabled changes nothing; packet numbers stop at 2^64 and stream ids at 2^32.
  function Act(me: Party, peer: Party, a: Action, now: nat): Party
    requires me.s.ack.Valid() && |peer.log| <= U64
  {
    var numbered := me.s.nextPn < U64;
    match a
    case Open => DoOpen(me)
    case Write(sid, data) => DoWrite(me, sid, data)
    case Finish(sid) => DoFinish(me, sid)
    case FlushSegment(sid) => if numbered && me.s.HasSegment(sid) then DoSegment(me, sid, now) else me
    case FlushFin(sid) => if numbered && me.s.HasFin(sid) then DoFin(me, sid, now) else me
    case FlushAck => if numbered && me.s.ack.pending then DoAck(me) else me
    case FlushMaxData => if numbered && me.s.pendingMaxData.Some? then DoMaxData(me) else me
    case FlushOther(e) => if numbered then DoOther(me, e) else me
    case Receive(pn, immediate) => if pn < |peer.log| then DoDeliver(me, pn, peer.log[pn], now, immediate) else me
    case Read(sid, maxBytes) => DoRead(me, sid, maxBytes)
    case Retransmit => DoRetransmit(me, now)
    case DrainCc => DoDrainCc(me)
  }

  // ---- Appending a packet to a log ----

  lemma LogSoundSnoc(log: seq<Packet>, q: Packet, streams: map<nat, StreamState>, written: map<nat, seq<byte>>)
    requires LogSound(log, streams, written) && (q.Data? ==> FrameOk(q.frame, streams, written))
    ensures LogSound(log + [q], streams, written)
  {}

  lemma LogOrderedSnoc(log: seq<Packet>, q: Packet)
    requires LogOrdered(log) && forall i | 0 <= i < |log| :: Before(log[i], q)
    ensures LogOrdered(log + [q])
  {}

  lemma ArqSoundSnoc(entries: seq<Arq.Entry<Packet>>, log: seq<Packet>, q: Packet)
    requires ArqSound(entries, log)
    ensures ArqSound(entries, log + [q])
  {
    forall x | x in entries ensures EntryOk(x, log + [q]) { assert EntryOk(x, log); }
  }

  lemma ArqSoundSent(entries: seq<Arq.Entry<Packet>>, log: seq<Packet>, q: Packet, now: nat)
    requires ArqSound(entries, log) && q.Data?
    ensures var e := Arq.Put(entries, |log|, Arq.InFlight(q, q.WireSize(), now, 0));
      && ArqSound(e, log + [q]) && Arq.TotalSize(e) == Arq.TotalSize(entries) + q.WireSize()
      && Arq.HasKey(e, |log|) && (forall pn: nat | Arq.HasKey(entries, pn) :: Arq.HasKey(e, pn))
  {
    var f := Arq.InFlight(q, q.WireSize(), now, 0);
    var e := Arq.Put(entries, |log|, f);
    Arq.PutFacts(entries, |log|, f);
    KeyBelow(entries, log);
    Arq.FindFacts(entries, |log|);
    Arq.PutSize(entries, |log|, f);
    forall x | x in e ensures EntryOk(x, log + [q]) { if x in entries { assert EntryOk(x, log); } }
    MemberKey(e, (|log|, f));
    forall pn: nat | Arq.HasKey(entries, pn) ensures Arq.HasKey(e, pn) {
      var i :| 0 <= i < |entries| && entries[i].0 == pn;
      assert entries[i] in entries && EntryOk(entries[i], log);
      MemberKey(e, entries[i]);
    }
  }

  lemma MemberKey(e: seq<Arq.Entry<Packet>>, x: Arq.Entry<Packet>)
    requires x in e
    ensures Arq.HasKey(e, x.0)
  {
    var i :| 0 <= i < |e| && e[i] == x;
  }

  lemma KeyBelow(entries: seq<Arq.Entry<Packet>>, log: seq<Packet>)
    requires ArqSound(entries, log)
    ensures forall pn: nat | Arq.HasKey(entries, pn) :: pn < |log|
  {
    forall pn: nat | Arq.HasKey(entries, pn) ensures pn < |log| {
      var i :| 0 <= i < |entries| && entries[i].0 == pn;
      assert entries[i] in entries && EntryOk(entries[i], log);
    }
  }

  lemma AckLogSnoc(log: seq<Packet>, q: Packet, accepted: set<nat>)
    requires AckLog(log, accepted)
    requires q.Ack? ==> forall k: nat | Arq.Inside(q.ranges, k) :: k in accepted
    ensures AckLog(log + [q], accepted)
  {}

  lemma WasCutSnoc(log: seq<Packet>, q: Packet, sid: nat, g: Seg)
    requires WasCut(log, sid, g)
    ensures WasCut(log + [q], sid, g)
  {
    var i :| 0 <= i < |log| && log[i].Data? && !log[i].frame.fin && log[i].frame.sid == sid &&
      log[i].frame.Segment() == g;
    assert (log + [q])[i] == log[i];
  }

  lemma StreamLinkSnoc(st: StreamState, sid: nat, got: seq<byte>, w: seq<byte>, log: seq<Packet>, q: Packet)
    requires StreamLink(st, sid, got, w, log)
    ensures StreamLink(st, sid, got, w, log + [q])
  {
    forall i | 0 <= i < |st.recvBuf|
      ensures WasCut(log + [q], sid, st.recvBuf[i])
    {
      WasCutSnoc(log, q, sid, st.recvBuf[i]);
    }
  }

  lemma ReassembledSnoc(streams: map<nat, StreamState>, got: map<nat, seq<byte>>, written: map<nat, seq<byte>>,
          log: seq<Packet>, q: Packet)
    requires Reassembled(streams, got, written, log)
    ensures Reassembled(streams, got, written, log + [q])
  {
    forall sid | sid in streams ensures StreamLink(streams[sid], sid, At(got, sid), At(written, sid), log + [q]) {
      StreamLinkSnoc(streams[sid], sid, At(got, sid), At(written, sid), log, q);
    }
  }

  // ---- Emitting a packet ----

  // Nothing the receive side of a stream depends on has changed.
  ghost predicate SameRecv(a: StreamState, b: StreamState) {
    a.recvOffset == b.recvOffset && a.recvBuf == b.recvBuf && a.finReceived == b.finReceived && a.finSent == b.finSent
  }

  ghost predicate SameStreams(a: map<nat, StreamState>, b: map<nat, StreamState>) {
    a.Keys == b.Keys && forall sid | sid in a :: SameRecv(a[sid], b[sid])
  }

  // me' is me with packet q appended and only send-side progress.
  ghost predicate Emits(me: Party, me': Party, q: Packet) {
    && me'.log == me.log + [q] && me'.written == me.written && me'.got == me.got
    && me'.s.parity == me.s.parity && SameStreams(me.s.streams, me'.s.streams)
    && me'.s.send.limit == me.s.send.limit && me'.s.recvConsumed == me.s.recvConsumed
    && me'.s.replay == me.s.replay
  }

  lemma EmitOut(me: Party, me': Party, peer: Party, q: Packet)
    requires Link(me, peer) && Emits(me, me', q)
    requires Outstanding(me'.s.arq.entries, me'.log, peer.s.replay.accepted)
    ensures Link(me', peer)
  {
    ReassembledSnoc(peer.s.streams, peer.got, me.written, me.log, q);
    SumSnoc(me.log, q, peer.s.replay.accepted);
    forall sid | sid in peer.s.streams ensures FinOk(peer.s.streams[sid], sid, me'.s.streams, me'.written) {
      assert FinOk(peer.s.streams[sid], sid, me.s.streams, me.written);
      if sid in me.s.streams { assert SameRecv(me.s.streams[sid], me'.s.streams[sid]); }
    }
  }

  lemma SameStreamLink(a: StreamState, b: StreamState, sid: nat, got: seq<byte>, w: seq<byte>, log: seq<Packet>)
    requires SameRecv(a, b) && StreamLink(a, sid, got, w, log)
    ensures StreamLink(b, sid, got, w, log)
  {}

  lemma EmitIn(me: Party, me': Party, peer: Party, q: Packet)
    requires Link(peer, me) && Emits(me, me', q)
    requires Limits(peer.s.send.limit, me'.s.recv.limit, me'.log)
    ensures Link(peer, me')
  {
    forall sid | sid in me'.s.streams
      ensures StreamLink(me'.s.streams[sid], sid, At(me.got, sid), At(peer.written, sid), peer.log)
      ensures FinOk(me'.s.streams[sid], sid, peer.s.streams, peer.written)
    {
      assert SameRecv(me.s.streams[sid], me'.s.streams[sid]);
      assert FinOk(me.s.streams[sid], sid, peer.s.streams, peer.written);
      SameStreamLink(me.s.streams[sid], me'.s.streams[sid], sid, At(me.got, sid), At(peer.written, sid), peer.log);
    }
  }

  // ---- Control packets ----

  // me' is me after emitting the control packet q, with only its ack flag or grant changed.
  ghost predicate ControlEmits(me: Party, me': Party, q: Packet) {
    && !q.Data? && me' == me.(log := me.log + [q], s := me'.s)
    && me'.s == me.s.(
      nextPn := me.s.nextPn + 1, ack := me'.s.ack, pendingMaxData := me'.s.pendingMaxData, recv := me'.s.recv)
    && me'.s.ack.received == me.s.ack.received && me'.s.ack.Valid()
  }

  lemma ControlGood(me: Party, me': Party, q: Packet)
    requires Good(me) && me.s.nextPn < U64 && ControlEmits(me, me', q)
    requires q.Ack? ==> forall k: nat | Arq.Inside(q.ranges, k) :: k in me.s.replay.accepted
    ensures Good(me')
  {
    LogSoundSnoc(me.log, q, me.s.streams, me.written);
    LogOrderedSnoc(me.log, q);
    ArqSoundSnoc(me.s.arq.entries, me.log, q);
    SumSnoc(me.log, q, {});
    AckLogSnoc(me.log, q, me.s.replay.accepted);
  }

  lemma OutstandingSnoc(entries: seq<Arq.Entry<Packet>>, log: seq<Packet>, accepted: set<nat>, q: Packet)
    requires Outstanding(entries, log, accepted) && !q.Data?
    ensures Outstanding(entries, log + [q], accepted)
  {
    forall pn: nat | pn < |log + [q]| && (log + [q])[pn].Data? ensures Arq.HasKey(entries, pn) || pn in accepted {
      assert pn < |log| && log[pn].Data?;
    }
  }

  lemma LimitsSnoc(sendLimit: nat, old_: nat, recvLimit: nat, log: seq<Packet>, q: Packet)
    requires Limits(sendLimit, old_, log) && old_ <= recvLimit && (q.MaxData? ==> q.limit <= recvLimit)
    ensures Limits(sendLimit, recvLimit, log + [q])
  {}

  lemma ControlLinks(me: Party, me': Party, peer: Party, q: Packet)
    requires Link(me, peer) && Link(peer, me) && ControlEmits(me, me', q)
    requires me'.s.recv.limit >= me.s.recv.limit && (q.MaxData? ==> q.limit <= me'.s.recv.limit)
    ensures Link(me', peer) && Link(peer, me')
  {
    OutstandingSnoc(me.s.arq.entries, me.log, peer.s.replay.accepted, q);
    LimitsSnoc(peer.s.send.limit, me.s.recv.limit, me'.s.recv.limit, me.log, q);
    SameStreamsRefl(me.s.streams);
    EmitOut(me, me', peer, q);
    EmitIn(me, me', peer, q);
  }

  lemma SameStreamsRefl(streams: map<nat, StreamState>)
    ensures SameStreams(streams, streams)
  {}

  lemma ControlStep(me: Party, me': Party, peer: Party, q: Packet)
    requires Inv(me, peer) && me.s.nextPn < U64 && ControlEmits(me, me', q)
    requires q.Ack? ==> forall k: nat | Arq.Inside(q.ranges, k) :: k in me.s.replay.accepted
    requires me'.s.recv.limit >= me.s.recv.limit && (q.MaxData? ==> q.limit <= me'.s.recv.limit)
    ensures Inv(me', peer)
  {
    ControlGood(me, me', q);
    ControlLinks(me, me', peer, q);
  }

  // An acknowledgement lists only packets that were accepted.
  lemma AckCovered(me: Party)
    requires Good(me)
    ensures forall k: nat | Arq.Inside(Ack.Runs(me.s.ack.received), k) :: k in me.s.replay.accepted
  {
    Ack.RunsAreRuns(me.s.ack.received);
    var r := Ack.Runs(me.s.ack.received);
    forall k: nat | Arq.Inside(r, k) ensures k in me.s.replay.accepted {
      var i :| 0 <= i < |r| && r[i].0 <= k <= r[i].1;
      assert Ack.Within(k, r[i]) && Ack.Covers(r, k);
    }
  }

  lemma AckStep(me: Party, peer: Party)
    requires Inv(me, peer) && me.s.nextPn < U64
    ensures Inv(DoAck(me), peer)
  {
    AckCovered(me);
    ControlStep(me, DoAck(me), peer, me.s.FlushAck().1);
  }

  lemma MaxDataStep(me: Party, peer: Party)
    requires Inv(me, peer) && me.s.nextPn < U64 && me.s.pendingMaxData.Some?
    ensures Inv(DoMaxData(me), peer)
  {
    ControlStep(me, DoMaxData(me), peer, me.s.FlushMaxData().1);
  }

  lemma OtherStep(me: Party, peer: Party, eliciting: bool)
    requires Inv(me, peer) && me.s.nextPn < U64
    ensures Inv(DoOther(me, eliciting), peer)
  {
    ControlStep(me, DoOther(me, eliciting), peer, Other(eliciting));
  }

  // ---- Data packets ----

  // The stream made send-side progress only.
  ghost predicate Advances(a: StreamState, b: StreamState, w: seq<byte>) {
    SameRecv(a, b) && StreamSends(b, w) && b.Unsent() >= a.Unsent()
  }

  lemma AdvanceSendSide(streams: map<nat, StreamState>, written: map<nat, seq<byte>>, sid: nat, st: StreamState)
    requires SendSide(streams, written) && sid in streams && StreamSends(st, At(written, sid))
    ensures SendSide(streams[sid := st], written)
  {
    forall k | k in streams[sid := st] ensures k < U32 && StreamSends(streams[sid := st][k], At(written, k)) {}
  }

  lemma AdvanceSame(streams: map<nat, StreamState>, sid: nat, st: StreamState)
    requires sid in streams && SameRecv(streams[sid], st)
    ensures SameStreams(streams, streams[sid := st])
  {
    assert streams[sid := st].Keys == streams.Keys;
  }

  lemma AdvanceLog(log: seq<Packet>, streams: map<nat, StreamState>, written: map<nat, seq<byte>>, sid: nat,
          st: StreamState)
    requires LogSound(log, streams, written) && sid in streams && Advances(streams[sid], st, At(written, sid))
    ensures LogSound(log, streams[sid := st], written)
  {
    forall i | 0 <= i < |log| && log[i].Data? ensures FrameOk(log[i].frame, streams[sid := st], written) {
      assert FrameOk(log[i].frame, streams, written);
    }
  }

  // me' is me after numbering the data frame f of a stream that advanced to st.
  ghost predicate DataEmits(me: Party, me': Party, f: DataFrame, st: StreamState, now: nat) {
    var q := Data(f);
    && f.sid in me.s.streams && Advances(me.s.streams[f.sid], st, At(me.written, f.sid))
    && |st.sendBuf| + |f.data| == |me.s.streams[f.sid].sendBuf|
    && me' == me.(log := me.log + [q], s := me.s.(
      streams := me.s.streams[f.sid := st], nextPn := me.s.nextPn + 1,
      arq := me.s.arq.OnSent(me.s.nextPn, q, q.WireSize(), now)))
  }

  // Everything cut earlier on the stream lies below the new frame.
  ghost predicate Follows(log: seq<Packet>, q: Packet) { forall i | 0 <= i < |log| :: Before(log[i], q) }

  lemma DataCredit(s: Session, log: seq<Packet>, f: DataFrame, st: StreamState)
    requires Credit(s.streams, s.send, log) && f.sid in s.streams && f.sid < U32
    requires |st.sendBuf| + |f.data| == |s.streams[f.sid].sendBuf|
    ensures Credit(s.streams[f.sid := st], s.send, log + [Data(f)])
  {
    SumSnoc(log, Data(f), {});
    BufferedSet(s.streams, U32, f.sid, st);
  }

  lemma DataArq(me: Party, me': Party, f: DataFrame, st: StreamState, now: nat)
    requires Good(me) && DataEmits(me, me', f, st, now)
    ensures ArqSound(me'.s.arq.entries, me'.log)
    ensures me'.drained + me'.s.ccBytes + Arq.TotalSize(me'.s.arq.entries) == WireSum(me'.log)
    ensures forall pn: nat | Arq.HasKey(me.s.arq.entries, pn) :: Arq.HasKey(me'.s.arq.entries, pn)
    ensures Arq.HasKey(me'.s.arq.entries, |me.log|)
  {
    SumSnoc(me.log, Data(f), {});
    ArqSoundSent(me.s.arq.entries, me.log, Data(f), now);
  }

  lemma DataGood(me: Party, me': Party, f: DataFrame, st: StreamState, now: nat)
    requires Good(me) && me.s.nextPn < U64 && DataEmits(me, me', f, st, now)
    requires FrameOk(f, me.s.streams[f.sid := st], me.written) && Follows(me.log, Data(f))
    ensures Good(me')
  {
    DataCredit(me.s, me.log, f, st);
    DataArq(me, me', f, st, now);
    AdvanceSendSide(me.s.streams, me.written, f.sid, st);
    AdvanceLog(me.log, me.s.streams, me.written, f.sid, st);
    LogSoundSnoc(me.log, Data(f), me'.s.streams, me.written);
    LogOrderedSnoc(me.log, Data(f));
    AckLogSnoc(me.log, Data(f), me.s.replay.accepted);
  }

  lemma DataOutstanding(entries: seq<Arq.Entry<Packet>>, log: seq<Packet>, accepted: set<nat>, q: Packet, now: nat)
    requires ArqSound(entries, log) && Outstanding(entries, log, accepted) && q.Data?
    ensures Outstanding(Arq.Put(entries, |log|, Arq.InFlight(q, q.WireSize(), now, 0)), log + [q], accepted)
  {
    ArqSoundSent(entries, log, q, now);
    OutstandingSent(entries, Arq.Put(entries, |log|, Arq.InFlight(q, q.WireSize(), now, 0)), log, accepted, q);
  }

  lemma OutstandingSent(e: seq<Arq.Entry<Packet>>, e': seq<Arq.Entry<Packet>>, log: seq<Packet>, accepted: set<nat>,
          q: Packet)
    requires Outstanding(e, log, accepted) && Arq.HasKey(e', |log|)
    requires forall pn: nat | Arq.HasKey(e, pn) :: Arq.HasKey(e', pn)
    ensures Outstanding(e', log + [q], accepted)
  {
    forall pn: nat | pn < |log + [q]| && (log + [q])[pn].Data? ensures Arq.HasKey(e', pn) || pn in accepted {
      if pn < |log| { assert log[pn].Data?; }
    }
  }

  lemma DataEmitsIsEmit(me: Party, me': Party, f: DataFrame, st: StreamState, now: nat)
    requires DataEmits(me, me', f, st, now)
    ensures Emits(me, me', Data(f))
  {
    AdvanceSame(me.s.streams, f.sid, st);
  }

  lemma DataOut(me: Party, me': Party, peer: Party, f: DataFrame, st: StreamState, now: nat)
    requires me.s.nextPn == |me.log| && ArqSound(me.s.arq.entries, me.log)
    requires Link(me, peer) && DataEmits(me, me', f, st, now)
    ensures Link(me', peer)
  {
    DataEmitsIsEmit(me, me', f, st, now);
    DataOutstanding(me.s.arq.entries, me.log, peer.s.replay.accepted, Data(f), now);
    EmitOut(me, me', peer, Data(f));
  }

  lemma DataIn(me: Party, me': Party, peer: Party, f: DataFrame, st: StreamState, now: nat)
    requires Link(peer, me) && DataEmits(me, me', f, st, now)
    ensures Link(peer, me')
  {
    DataEmitsIsEmit(me, me', f, st, now);
    LimitsSnoc(peer.s.send.limit, me.s.recv.limit, me.s.recv.limit, me.log, Data(f));
    EmitIn(me, me', peer, Data(f));
  }

  lemma DataStep(me: Party, me': Party, peer: Party, f: DataFrame, st: StreamState, now: nat)
    requires Inv(me, peer) && me.s.nextPn < U64 && DataEmits(me, me', f, st, now)
    requires FrameOk(f, me.s.streams[f.sid := st], me.written) && Follows(me.log, Data(f))
    ensures Inv(me', peer)
  {
    DataGood(me, me', f, st, now);
    DataOut(me, me', peer, f, st, now);
    DataIn(me, me', peer, f, st, now);
  }

  lemma SegmentStep(me: Party, peer: Party, sid: nat, now: nat)
    requires Inv(me, peer) && me.s.nextPn < U64 && me.s.HasSegment(sid)
    ensures Inv(DoSegment(me, sid, now), peer)
  {
    var w := At(me.written, sid);
    PollSendCuts(me.s.streams[sid], w, SEGMENT);
    var (st, g) := me.s.streams[sid].PollSend(SEGMENT);
    var f := DataFrame(sid, g.value.0, g.value.1, false);
    forall i | 0 <= i < |me.log| ensures Before(me.log[i], Data(f)) {
      if me.log[i].Data? { assert FrameOk(me.log[i].frame, me.s.streams, me.written); }
    }
    DataStep(me, DoSegment(me, sid, now), peer, f, st, now);
  }

  lemma FinAdvances(a: StreamState, w: seq<byte>)
    requires StreamSends(a, w)
    ensures Advances(a, a.(finFlushed := true), w)
  {}

  lemma FinFollows(log: seq<Packet>, f: DataFrame)
    requires f.fin
    ensures Follows(log, Data(f))
  {
    forall i | 0 <= i < |log| ensures Before(log[i], Data(f)) {}
  }

  lemma FinEmits(me: Party, sid: nat, now: nat)
    requires me.s.HasFin(sid)
    requires Advances(me.s.streams[sid], me.s.streams[sid].(finFlushed := true), At(me.written, sid))
    ensures DataEmits(me, DoFin(me, sid, now), DataFrame(sid, me.s.streams[sid].sendOffset, [], true),
                      me.s.streams[sid].(finFlushed := true), now)
  {
    FinState(me.s, sid, now);
  }

  lemma FinState(s: Session, sid: nat, now: nat)
    requires s.HasFin(sid)
    ensures var q := Data(DataFrame(sid, s.streams[sid].sendOffset, [], true));
      s.FlushFin(sid, now) == (s.(
        streams := s.streams[sid := s.streams[sid].(finFlushed := true)], nextPn := s.nextPn + 1,
        arq := s.arq.OnSent(s.nextPn, q, q.WireSize(), now)), q)
  {}

  lemma FinFrame(streams: map<nat, StreamState>, written: map<nat, seq<byte>>, sid: nat)
    requires SendSide(streams, written) && sid in streams && streams[sid].ShouldSendFin()
    ensures StreamSends(streams[sid], At(written, sid))
    ensures FrameOk(DataFrame(sid, streams[sid].sendOffset, [], true),
                    streams[sid := streams[sid].(finFlushed := true)], written)
  {
    assert StreamSends(streams[sid], At(written, sid));
  }

  lemma FinStep(me: Party, peer: Party, sid: nat, now: nat)
    requires Inv(me, peer) && me.s.nextPn < U64 && me.s.HasFin(sid)
    ensures Inv(DoFin(me, sid, now), peer)
  {
    var st := me.s.streams[sid].(finFlushed := true);
    var f := DataFrame(sid, me.s.streams[sid].sendOffset, [], true);
    FinFrame(me.s.streams, me.written, sid);
    FinAdvances(me.s.streams[sid], At(me.written, sid));
    FinEmits(me, sid, now);
    FinFollows(me.log, f);
    DataStep(me, DoFin(me, sid, now), peer, f, st, now);
  }

  // ---- A new stream ----

  ghost predicate AddsStream(a: map<nat, StreamState>, b: map<nat, StreamState>, sid: nat) {
    sid !in a && b == a[sid := Stream.New()]
  }

  lemma AddSendSide(a: map<nat, StreamState>, b: map<nat, StreamState>, sid: nat, written: map<nat, seq<byte>>)
    requires SendSide(a, written) && AddsStream(a, b, sid) && sid < U32
    ensures SendSide(b, written)
  {
    forall k | k in b ensures k < U32 && StreamSends(b[k], At(written, k)) {
      if k != sid { assert StreamSends(a[k], At(written, k)); }
    }
  }

  lemma AddLog(log: seq<Packet>, a: map<nat, StreamState>, b: map<nat, StreamState>, sid: nat,
          written: map<nat, seq<byte>>)
    requires LogSound(log, a, written) && AddsStream(a, b, sid)
    ensures LogSound(log, b, written)
  {
    forall i | 0 <= i < |log| && log[i].Data? ensures FrameOk(log[i].frame, b, written) {
      assert FrameOk(log[i].frame, a, written);
    }
  }

  lemma AddReassembled(a: map<nat, StreamState>, b: map<nat, StreamState>, sid: nat, got: map<nat, seq<byte>>,
          written: map<nat, seq<byte>>, log: seq<Packet>)
    requires Reassembled(a, got, written, log) && AddsStream(a, b, sid)
    ensures Reassembled(b, got, written, log)
  {
    forall k | k in b ensures StreamLink(b[k], k, At(got, k), At(written, k), log) {
      if k != sid { assert StreamLink(a[k], k, At(got, k), At(written, k), log); }
    }
  }

  lemma AddFins(peerStreams: map<nat, StreamState>, a: map<nat, StreamState>, b: map<nat, StreamState>, sid: nat,
          written: map<nat, seq<byte>>)
    requires FinsOk(peerStreams, a, written)
    requires AddsStream(a, b, sid)
    ensures FinsOk(peerStreams, b, written)
  {
    forall k | k in peerStreams
      ensures FinOk(peerStreams[k], k, b, written)
    {
      assert FinOk(peerStreams[k], k, a, written);
    }
  }

  lemma OpenIds(s: Session)
    requires IdsFresh(s.streams, s.parity, s.nextStreamId) && |s.streams| < s.maxStreams
    ensures AddsStream(s.streams, s.Open().0.streams, s.nextStreamId)
    ensures IdsFresh(s.Open().0.streams, s.parity, s.Open().0.nextStreamId)
  {}

  lemma OpenCredit(s: Session, log: seq<Packet>)
    requires Credit(s.streams, s.send, log) && IdsFresh(s.streams, s.parity, s.nextStreamId)
    requires |s.streams| < s.maxStreams
    ensures Credit(s.Open().0.streams, s.send, log)
  {
    OpenIds(s);
    BufferedSet(s.streams, U32, s.nextStreamId, Stream.New());
  }

  lemma OpenGood(me: Party)
    requires Good(me) && me.s.nextStreamId < U32 && |me.s.streams| < me.s.maxStreams
    ensures AddsStream(me.s.streams, DoOpen(me).s.streams, me.s.nextStreamId) && Good(DoOpen(me))
  {
    var sid := me.s.nextStreamId;
    OpenIds(me.s);
    AddSendSide(me.s.streams, me.s.Open().0.streams, sid, me.written);
    AddLog(me.log, me.s.streams, me.s.Open().0.streams, sid, me.written);
    OpenCredit(me.s, me.log);
  }

  lemma OpenOut(me: Party, peer: Party)
    requires Good(me) && Link(me, peer) && me.s.nextStreamId < U32 && |me.s.streams| < me.s.maxStreams
    ensures Link(DoOpen(me), peer)
  {
    AddFins(peer.s.streams, me.s.streams, DoOpen(me).s.streams, me.s.nextStreamId, me.written);
  }

  lemma OpenIn(me: Party, peer: Party)
    requires Good(me) && Link(peer, me) && me.s.nextStreamId < U32 && |me.s.streams| < me.s.maxStreams
    ensures Link(peer, DoOpen(me))
  {
    var b := DoOpen(me).s.streams;
    AddReassembled(me.s.streams, b, me.s.nextStreamId, me.got, peer.written, peer.log);
    forall k | k in b ensures FinOk(b[k], k, peer.s.streams, peer.written) {
      if k != me.s.nextStreamId { assert FinOk(me.s.streams[k], k, peer.s.streams, peer.written); }
    }
  }

  lemma OpenStep(me: Party, peer: Party)
    requires Inv(me, peer)
    ensures Inv(DoOpen(me), peer)
  {
    if me.s.nextStreamId < U32 && |me.s.streams| < me.s.maxStreams {
      OpenGood(me);
      OpenOut(me, peer);
      OpenIn(me, peer);
    }
  }

  // ---- Retransmission and congestion feedback ----

  // Only the retransmission bookkeeping of entries changed.
  ghost predicate Restamps(me: Party, me': Party, now: nat) {
    && me' == me.(s := me.s.(arq := me'.s.arq))
    && me'.s.arq.entries == Arq.StampAll(me.s.arq.entries, now, me.s.arq.rtt.rto)
  }

  lemma RestampGood(me: Party, me': Party, now: nat)
    requires Good(me) && Restamps(me, me', now)
    ensures Good(me')
  {
    Arq.StampKeeps(me.s.arq.entries, now, me.s.arq.rtt.rto);
    StampSound(me.s.arq.entries, me.log, now, me.s.arq.rtt.rto);
  }

  lemma RestampLinks(me: Party, me': Party, peer: Party, now: nat)
    requires Link(me, peer) && Link(peer, me) && Restamps(me, me', now)
    ensures Link(me', peer) && Link(peer, me')
  {
    StampOutstanding(me.s.arq.entries, me.log, peer.s.replay.accepted, now, me.s.arq.rtt.rto);
  }

  lemma RetransmitStep(me: Party, peer: Party, now: nat)
    requires Inv(me, peer)
    ensures Inv(DoRetransmit(me, now), peer)
  {
    RestampGood(me, DoRetransmit(me, now), now);
    RestampLinks(me, DoRetransmit(me, now), peer, now);
  }

  lemma StampSound(e: seq<Arq.Entry<Packet>>, log: seq<Packet>, now: nat, rto: nat)
    requires ArqSound(e, log)
    ensures ArqSound(Arq.StampAll(e, now, rto), log)
  {
    var t := Arq.StampAll(e, now, rto);
    forall x | x in t ensures EntryOk(x, log) {
      var i :| 0 <= i < |t| && t[i] == x;
      assert e[i] in e && EntryOk(e[i], log);
    }
  }

  lemma StampOutstanding(e: seq<Arq.Entry<Packet>>, log: seq<Packet>, accepted: set<nat>, now: nat, rto: nat)
    requires Outstanding(e, log, accepted)
    ensures Outstanding(Arq.StampAll(e, now, rto), log, accepted)
  {
    forall pn: nat | pn < |log| && log[pn].Data? ensures Arq.HasKey(Arq.StampAll(e, now, rto), pn) || pn in accepted {
      if Arq.HasKey(e, pn) {
        var i :| 0 <= i < |e| && e[i].0 == pn;
        assert Arq.StampAll(e, now, rto)[i].0 == pn;
      }
    }
  }

  lemma DrainCcStep(me: Party, peer: Party)
    requires Inv(me, peer)
    ensures Inv(DoDrainCc(me), peer)
  {}

  // ---- Writing and finishing ----

  // The bytes written on sid grow by data.
  ghost predicate Extends(a: map<nat, seq<byte>>, b: map<nat, seq<byte>>, sid: nat, data: seq<byte>) {
    b == a[sid := At(a, sid) + data]
  }

  lemma PieceGrows(g: Seg, w: seq<byte>, data: seq<byte>)
    requires PieceOf(g, w)
    ensures PieceOf(g, w + data)
  {
    assert (w + data)[g.0..End(g)] == w[g.0..End(g)];
  }

  lemma StreamLinkGrows(st: StreamState, sid: nat, got: seq<byte>, w: seq<byte>, data: seq<byte>, log: seq<Packet>)
    requires StreamLink(st, sid, got, w, log)
    ensures StreamLink(st, sid, got, w + data, log)
  {
    forall i | 0 <= i < |st.recvBuf| ensures PieceOf(st.recvBuf[i], w + data) { PieceGrows(st.recvBuf[i], w, data); }
    assert (w + data)[..st.recvOffset] == w[..st.recvOffset];
  }

  lemma ReassembledGrows(streams: map<nat, StreamState>, got: map<nat, seq<byte>>, a: map<nat, seq<byte>>,
          b: map<nat, seq<byte>>, sid: nat, data: seq<byte>, log: seq<Packet>)
    requires Reassembled(streams, got, a, log) && Extends(a, b, sid, data)
    ensures Reassembled(streams, got, b, log)
  {
    forall k | k in streams ensures StreamLink(streams[k], k, At(got, k), At(b, k), log) {
      assert StreamLink(streams[k], k, At(got, k), At(a, k), log);
      if k == sid { StreamLinkGrows(streams[k], k, At(got, k), At(a, k), data, log); }
    }
  }

  // The stream buffered more data and was not finished.
  ghost predicate Buffers(a: StreamState, b: StreamState, data: seq<byte>) {
    && !a.finSent && a.sendOffset + |data| <= a.sendMax
    && b == a.(sendBuf := a.sendBuf + data, sendOffset := a.sendOffset + |data|)
  }

  lemma BufferLog(log: seq<Packet>, streams: map<nat, StreamState>, a: map<nat, seq<byte>>, b: map<nat, seq<byte>>,
          sid: nat, st: StreamState, data: seq<byte>)
    requires LogSound(log, streams, a) && sid in streams && Buffers(streams[sid], st, data) && Extends(a, b, sid, data)
    ensures LogSound(log, streams[sid := st], b)
  {
    forall i | 0 <= i < |log| && log[i].Data? ensures FrameOk(log[i].frame, streams[sid := st], b) {
      var f := log[i].frame;
      assert FrameOk(f, streams, a);
      if f.sid == sid { PieceGrows(f.Segment(), At(a, sid), data); }
    }
  }

  lemma BufferSendSide(streams: map<nat, StreamState>, a: map<nat, seq<byte>>, b: map<nat, seq<byte>>, sid: nat,
          st: StreamState, data: seq<byte>)
    requires SendSide(streams, a) && sid in streams && Buffers(streams[sid], st, data) && Extends(a, b, sid, data)
    ensures SendSide(streams[sid := st], b)
  {
    forall k | k in streams[sid := st] ensures k < U32 && StreamSends(streams[sid := st][k], At(b, k)) {
      assert StreamSends(streams[k], At(a, k));
      if k == sid { WriteSending(streams[sid], At(a, sid), data); }
    }
  }

  lemma BufferFins(peerStreams: map<nat, StreamState>, streams: map<nat, StreamState>, a: map<nat, seq<byte>>,
          b: map<nat, seq<byte>>, sid: nat, st: StreamState, data: seq<byte>)
    requires FinsOk(peerStreams, streams, a)
    requires sid in streams && Buffers(streams[sid], st, data) && Extends(a, b, sid, data)
    ensures FinsOk(peerStreams, streams[sid := st], b)
  {
    forall k | k in peerStreams
      ensures FinOk(peerStreams[k], k, streams[sid := st], b)
    {
      assert FinOk(peerStreams[k], k, streams, a);
    }
  }

  lemma SameReassembled(a: map<nat, StreamState>, b: map<nat, StreamState>, got: map<nat, seq<byte>>,
          written: map<nat, seq<byte>>, log: seq<Packet>)
    requires Reassembled(a, got, written, log) && a.Keys == b.Keys
    requires forall k | k in a :: a[k].recvOffset == b[k].recvOffset && a[k].recvBuf == b[k].recvBuf
    ensures Reassembled(b, got, written, log)
  {
    forall k | k in b ensures StreamLink(b[k], k, At(got, k), At(written, k), log) {
      assert StreamLink(a[k], k, At(got, k), At(written, k), log);
    }
  }

  // me' is me after a successful write that leaves its stream as st.
  ghost predicate Writes(me: Party, me': Party, sid: nat, st: StreamState, data: seq<byte>) {
    && sid in me.s.streams && Buffers(me.s.streams[sid], st, data)
    && me.s.send.consumed + |data| <= me.s.send.limit
    && me' == me.(written := me.written[sid := At(me.written, sid) + data], s := me.s.(
      streams := me.s.streams[sid := st], send := me.s.send.(consumed := me.s.send.consumed + |data|)))
  }

  lemma WriteCredit(streams: map<nat, StreamState>, send: Flow, log: seq<Packet>, sid: nat, st: StreamState, n: nat)
    requires Credit(streams, send, log) && sid in streams && sid < U32 && |st.sendBuf| == |streams[sid].sendBuf| + n
    requires send.consumed + n <= send.limit
    ensures Credit(streams[sid := st], send.(consumed := send.consumed + n), log)
  {
    BufferedSet(streams, U32, sid, st);
  }

  lemma IdsKept(a: map<nat, StreamState>, b: map<nat, StreamState>, parity: nat, next: nat)
    requires IdsFresh(a, parity, next) && b.Keys == a.Keys
    ensures IdsFresh(b, parity, next)
  {}

  lemma WriteGood(me: Party, me': Party, sid: nat, st: StreamState, data: seq<byte>)
    requires Good(me) && Writes(me, me', sid, st, data)
    ensures Good(me')
  {
    BufferSendSide(me.s.streams, me.written, me'.written, sid, st, data);
    BufferLog(me.log, me.s.streams, me.written, me'.written, sid, st, data);
    WriteCredit(me.s.streams, me.s.send, me.log, sid, st, |data|);
    assert me.s.streams[sid := st].Keys == me.s.streams.Keys;
    IdsKept(me.s.streams, me.s.streams[sid := st], me.s.parity, me.s.nextStreamId);
  }

  lemma WriteOut(me: Party, me': Party, peer: Party, sid: nat, st: StreamState, data: seq<byte>)
    requires Link(me, peer) && Writes(me, me', sid, st, data)
    ensures Link(me', peer)
  {
    ReassembledGrows(peer.s.streams, peer.got, me.written, me'.written, sid, data, me.log);
    BufferFins(peer.s.streams, me.s.streams, me.written, me'.written, sid, st, data);
  }

  // The receive side of every stream and its final mark are the same.
  ghost predicate SameIn(a: map<nat, StreamState>, b: map<nat, StreamState>) {
    a.Keys == b.Keys && forall k | k in a ::
      a[k].recvOffset == b[k].recvOffset && a[k].recvBuf == b[k].recvBuf && a[k].finReceived == b[k].finReceived
  }

  lemma SameFins(a: map<nat, StreamState>, b: map<nat, StreamState>, streams: map<nat, StreamState>,
          written: map<nat, seq<byte>>)
    requires SameIn(a, b) && FinsOk(a, streams, written)
    ensures FinsOk(b, streams, written)
  {
    forall k | k in b ensures FinOk(b[k], k, streams, written) { assert FinOk(a[k], k, streams, written); }
  }

  lemma StreamsIn(me: Party, me': Party, peer: Party)
    requires Link(peer, me) && SameIn(me.s.streams, me'.s.streams)
    requires me'.got == me.got && me'.log == me.log && me'.s.replay == me.s.replay && me'.s.recv == me.s.recv
    requires me'.s.recvConsumed == me.s.recvConsumed
    ensures Link(peer, me')
  {
    SameReassembled(me.s.streams, me'.s.streams, me.got, peer.written, peer.log);
    SameFins(me.s.streams, me'.s.streams, peer.s.streams, peer.written);
  }

  lemma WriteIn(me: Party, me': Party, peer: Party, sid: nat, st: StreamState, data: seq<byte>)
    requires Link(peer, me) && Writes(me, me', sid, st, data)
    ensures Link(peer, me')
  {
    assert me'.s.streams.Keys == me.s.streams.Keys;
    StreamsIn(me, me', peer);
  }

  // A write that fails may still have spent credit.
  lemma SpendStep(me: Party, peer: Party, n: nat)
    requires Inv(me, peer) && me.s.send.consumed + n <= me.s.send.limit
    ensures Inv(me.(s := me.s.(send := me.s.send.(consumed := me.s.send.consumed + n))), peer)
  {
    SpendGood(me, n);
    SpendLinks(me, peer, n);
  }

  lemma SpendGood(me: Party, n: nat)
    requires Good(me) && me.s.send.consumed + n <= me.s.send.limit
    ensures Good(me.(s := me.s.(send := me.s.send.(consumed := me.s.send.consumed + n))))
  {}

  lemma SpendLinks(me: Party, peer: Party, n: nat)
    requires Link(me, peer) && Link(peer, me)
    ensures var me' := me.(s := me.s.(send := me.s.send.(consumed := me.s.send.consumed + n)));
      Link(me', peer) && Link(peer, me')
  {}

  lemma WriteOkStep(me: Party, me': Party, peer: Party, sid: nat, st: StreamState, data: seq<byte>)
    requires Inv(me, peer) && Writes(me, me', sid, st, data)
    ensures Inv(me', peer)
  {
    WriteGood(me, me', sid, st, data);
    WriteOut(me, me', peer, sid, st, data);
    WriteIn(me, me', peer, sid, st, data);
  }

  // Writing either succeeds, or changes nothing but the credit spent.
  lemma WriteCases(me: Party, sid: nat, data: seq<byte>)
    ensures var me' := DoWrite(me, sid, data);
      || me' == me || (sid in me.s.streams && Writes(me, me', sid, me.s.streams[sid].Write(data).0, data))
      || (&& me.s.send.consumed + |data| <= me.s.send.limit
          && me' == me.(s := me.s.(send := me.s.send.(consumed := me.s.send.consumed + |data|))))
  {
    if sid in me.s.streams { assert me.s.streams[sid := me.s.streams[sid]] == me.s.streams; }
  }

  lemma WriteStep(me: Party, peer: Party, sid: nat, data: seq<byte>)
    requires Inv(me, peer)
    ensures Inv(DoWrite(me, sid, data), peer)
  {
    var me' := DoWrite(me, sid, data);
    WriteCases(me, sid, data);
    if me' != me {
      if sid in me.s.streams && Writes(me, me', sid, me.s.streams[sid].Write(data).0, data) {
        WriteOkStep(me, me', peer, sid, me.s.streams[sid].Write(data).0, data);
      } else {
        SpendStep(me, peer, |data|);
      }
    }
  }

  lemma FinishLog(log: seq<Packet>, streams: map<nat, StreamState>, written: map<nat, seq<byte>>, sid: nat)
    requires LogSound(log, streams, written) && sid in streams
    ensures LogSound(log, streams[sid := streams[sid].Finish()], written)
  {
    forall i | 0 <= i < |log| && log[i].Data?
      ensures FrameOk(log[i].frame, streams[sid := streams[sid].Finish()], written)
    {
      assert FrameOk(log[i].frame, streams, written);
    }
  }

  lemma FinishCredit(s: Session, log: seq<Packet>, sid: nat)
    requires Credit(s.streams, s.send, log) && sid in s.streams
    ensures Credit(s.FinishStream(sid).streams, s.send, log)
  {
    BufferedSet(s.streams, U32, sid, s.streams[sid].Finish());
  }

  lemma FinishGood(me: Party, sid: nat)
    requires Good(me)
    ensures Good(DoFinish(me, sid))
  {
    if sid in me.s.streams {
      assert StreamSends(me.s.streams[sid], At(me.written, sid));
      AdvanceSendSide(me.s.streams, me.written, sid, me.s.streams[sid].Finish());
      FinishLog(me.log, me.s.streams, me.written, sid);
      FinishCredit(me.s, me.log, sid);
      assert me.s.FinishStream(sid).streams.Keys == me.s.streams.Keys;
      IdsKept(me.s.streams, me.s.FinishStream(sid).streams, me.s.parity, me.s.nextStreamId);
    }
  }

  lemma FinishOut(me: Party, peer: Party, sid: nat)
    requires Link(me, peer)
    ensures Link(DoFinish(me, sid), peer)
  {
    var b := DoFinish(me, sid).s.streams;
    assert b.Keys == me.s.streams.Keys;
    forall k | k in peer.s.streams ensures FinOk(peer.s.streams[k], k, b, me.written) {
      assert FinOk(peer.s.streams[k], k, me.s.streams, me.written);
    }
  }

  lemma FinishIn(me: Party, peer: Party, sid: nat)
    requires Link(peer, me)
    ensures Link(peer, DoFinish(me, sid))
  {
    assert DoFinish(me, sid).s.streams.Keys == me.s.streams.Keys;
    StreamsIn(me, DoFinish(me, sid), peer);
  }

  lemma FinishStep(me: Party, peer: Party, sid: nat)
    requires Inv(me, peer)
    ensures Inv(DoFinish(me, sid), peer)
  {
    FinishGood(me, sid);
    FinishOut(me, peer, sid);
    FinishIn(me, peer, sid);
  }

  // ---- The receive side of one stream changes ----

  ghost predicate SameSend(a: StreamState, b: StreamState) {
    && a.sendBuf == b.sendBuf && a.sendOffset == b.sendOffset && a.sendMax == b.sendMax
    && a.recvMax == b.recvMax && a.finSent == b.finSent
  }

  function StreamOr(streams: map<nat, StreamState>, sid: nat): StreamState {
    if sid in streams then streams[sid] else Stream.New()
  }

  // b is a with the receive side of sid, opened if it was not, now as in st.
  ghost predicate SetsRecv(a: map<nat, StreamState>, b: map<nat, StreamState>, sid: nat, st: StreamState) {
    b == a[sid := st] && SameSend(StreamOr(a, sid), st)
  }

  lemma RecvSendSide(a: map<nat, StreamState>, b: map<nat, StreamState>, sid: nat, st: StreamState,
          written: map<nat, seq<byte>>)
    requires SendSide(a, written) && SetsRecv(a, b, sid, st) && sid < U32
    ensures SendSide(b, written)
  {
    assert StreamSends(StreamOr(a, sid), At(written, sid));
    forall k | k in b ensures k < U32 && StreamSends(b[k], At(written, k)) {
      if k == sid {
        SameSends(StreamOr(a, sid), st, At(written, sid));
      } else {
        assert StreamSends(a[k], At(written, k));
      }
    }
  }

  lemma SameSends(a: StreamState, b: StreamState, w: seq<byte>)
    requires SameSend(a, b) && StreamSends(a, w)
    ensures StreamSends(b, w)
  {}

  lemma RecvLog(log: seq<Packet>, a: map<nat, StreamState>, b: map<nat, StreamState>, sid: nat, st: StreamState,
          written: map<nat, seq<byte>>)
    requires LogSound(log, a, written) && SetsRecv(a, b, sid, st)
    ensures LogSound(log, b, written)
  {
    forall i | 0 <= i < |log| && log[i].Data?
      ensures FrameOk(log[i].frame, b, written)
    {
      assert FrameOk(log[i].frame, a, written);
    }
  }

  lemma RecvFins(peerStreams: map<nat, StreamState>, a: map<nat, StreamState>, b: map<nat, StreamState>, sid: nat,
          st: StreamState, written: map<nat, seq<byte>>)
    requires SetsRecv(a, b, sid, st) && FinsOk(peerStreams, a, written)
    ensures FinsOk(peerStreams, b, written)
  {
    forall k | k in peerStreams
      ensures FinOk(peerStreams[k], k, b, written)
    {
      assert FinOk(peerStreams[k], k, a, written);
    }
  }

  lemma RecvCredit(a: map<nat, StreamState>, b: map<nat, StreamState>, sid: nat, st: StreamState, send: Flow,
          log: seq<Packet>)
    requires Credit(a, send, log) && SetsRecv(a, b, sid, st)
    ensures Credit(b, send, log)
  {
    BufferedSet(a, U32, sid, st);
  }

  lemma RecvIds(a: map<nat, StreamState>, b: map<nat, StreamState>, sid: nat, st: StreamState, parity: nat, next: nat)
    requires IdsFresh(a, parity, next) && SetsRecv(a, b, sid, st) && (sid in a || sid % 2 != parity)
    ensures IdsFresh(b, parity, next)
  {}

  // me' is me with the receive side of one stream, and possibly credit and reads, changed.
  ghost predicate Takes(me: Party, me': Party, sid: nat, st: StreamState) {
    && SetsRecv(me.s.streams, me'.s.streams, sid, st) && sid < U32
    && me' == me.(got := me'.got, s := me.s.(
      streams := me.s.streams[sid := st], recvConsumed := me'.s.recvConsumed, pendingMaxData := me'.s.pendingMaxData))
  }

  lemma TakeGood(me: Party, me': Party, sid: nat, st: StreamState)
    requires Good(me) && Takes(me, me', sid, st) && (sid in me.s.streams || sid % 2 != me.s.parity)
    ensures Good(me')
  {
    RecvSendSide(me.s.streams, me'.s.streams, sid, st, me.written);
    RecvLog(me.log, me.s.streams, me'.s.streams, sid, st, me.written);
    RecvCredit(me.s.streams, me'.s.streams, sid, st, me.s.send, me.log);
    RecvIds(me.s.streams, me'.s.streams, sid, st, me.s.parity, me.s.nextStreamId);
  }

  lemma TakeOut(me: Party, me': Party, peer: Party, sid: nat, st: StreamState)
    requires Link(me, peer) && Takes(me, me', sid, st) && (sid in me.s.streams || sid in peer.s.streams)
    ensures Link(me', peer)
  {
    RecvFins(peer.s.streams, me.s.streams, me'.s.streams, sid, st, me.written);
  }

  lemma TakeReassembled(a: map<nat, StreamState>, b: map<nat, StreamState>, sid: nat, st: StreamState,
      got: map<nat, seq<byte>>, got': map<nat, seq<byte>>, written: map<nat, seq<byte>>, log: seq<Packet>)
    requires Reassembled(a, got, written, log) && b == a[sid := st]
    requires StreamLink(st, sid, At(got', sid), At(written, sid), log)
    requires got' == got || got' == got[sid := At(got', sid)]
    ensures Reassembled(b, got', written, log)
  {
    forall k | k in b ensures StreamLink(b[k], k, At(got', k), At(written, k), log) {
      if k != sid { assert StreamLink(a[k], k, At(got, k), At(written, k), log); }
    }
  }

  lemma TakeIn(me: Party, me': Party, peer: Party, sid: nat, st: StreamState)
    requires Link(peer, me) && Takes(me, me', sid, st)
    requires StreamLink(st, sid, At(me'.got, sid), At(peer.written, sid), peer.log)
    requires FinOk(st, sid, peer.s.streams, peer.written)
    requires me'.got == me.got || me'.got == me.got[sid := At(me'.got, sid)]
    requires me'.s.recvConsumed <= PayloadSum(peer.log, me.s.replay.accepted)
    ensures Link(peer, me')
  {
    TakeReassembled(me.s.streams, me'.s.streams, sid, st, me.got, me'.got, peer.written, peer.log);
    forall k | k in me'.s.streams ensures FinOk(me'.s.streams[k], k, peer.s.streams, peer.written) {
      if k != sid { assert FinOk(me.s.streams[k], k, peer.s.streams, peer.written); }
    }
  }

  lemma TakeStep(me: Party, me': Party, peer: Party, sid: nat, st: StreamState)
    requires Inv(me, peer) && Takes(me, me', sid, st)
    requires (sid in me.s.streams || (sid % 2 != me.s.parity && sid in peer.s.streams))
    requires StreamLink(st, sid, At(me'.got, sid), At(peer.written, sid), peer.log)
    requires FinOk(st, sid, peer.s.streams, peer.written)
    requires me'.got == me.got || me'.got == me.got[sid := At(me'.got, sid)]
    requires me'.s.recvConsumed <= PayloadSum(peer.log, me.s.replay.accepted)
    ensures Inv(me', peer)
  {
    TakeGood(me, me', sid, st);
    TakeOut(me, me', peer, sid, st);
    TakeIn(me, me', peer, sid, st);
  }

  // ---- Reading ----

  lemma ReadLink(a: StreamState, sid: nat, got: seq<byte>, w: seq<byte>, log: seq<Packet>, m: nat)
    requires StreamLink(a, sid, got, w, log)
    ensures a.Read(m).Some?
    ensures var (st, out) := a.Read(m).value;
      SameSend(a, st) && st.finReceived == a.finReceived && StreamLink(st, sid, got + out, w, log)
  {
    ReadKeeps(a, w, m);
    var (st, out) := a.Read(m).value;
    ReadLinked(a, st, out, sid, got, w, log, m);
  }

  lemma ReadLinked(a: StreamState, st: StreamState, out: seq<byte>, sid: nat, got: seq<byte>, w: seq<byte>,
          log: seq<Packet>, m: nat)
    requires StreamLink(a, sid, got, w, log) && ReadsNext(a, w, m, st, out)
    ensures StreamLink(st, sid, got + out, w, log)
  {
    forall i | 0 <= i < |st.recvBuf| ensures WasCut(log, sid, st.recvBuf[i]) {
      assert st.recvBuf[i] == a.recvBuf[|a.recvBuf| - |st.recvBuf| + i];
    }
    assert got + out == w[..st.recvOffset];
  }

  lemma ReadTakes(me: Party, sid: nat, m: nat)
    requires sid in me.s.streams && sid < U32 && me.s.streams[sid].Read(m).Some?
    requires SameSend(me.s.streams[sid], me.s.streams[sid].Read(m).value.0)
    ensures var (st, out) := me.s.streams[sid].Read(m).value;
      var me' := DoRead(me, sid, m);
      && me.s.ReadStream(sid, m).Some? && Takes(me, me', sid, st) && At(me'.got, sid) == At(me.got, sid) + out
      && me'.got == me.got[sid := At(me'.got, sid)] && me'.s.recvConsumed == me.s.recvConsumed
  {}

  lemma StreamFacts(me: Party, peer: Party, sid: nat)
    requires Inv(me, peer) && sid in me.s.streams
    ensures sid < U32 && StreamSends(me.s.streams[sid], At(me.written, sid))
    ensures StreamLink(me.s.streams[sid], sid, At(me.got, sid), At(peer.written, sid), peer.log)
    ensures FinOk(me.s.streams[sid], sid, peer.s.streams, peer.written)
    ensures me.s.recvConsumed <= PayloadSum(peer.log, me.s.replay.accepted)
  {}

  // A read never runs out of range, and keeps the invariant.
  lemma ReadStep(me: Party, peer: Party, sid: nat, m: nat)
    requires Inv(me, peer)
    ensures me.s.ReadStream(sid, m).Some? && Inv(DoRead(me, sid, m), peer)
  {
    if sid in me.s.streams {
      StreamFacts(me, peer, sid);
      ReadLink(me.s.streams[sid], sid, At(me.got, sid), At(peer.written, sid), peer.log, m);
      ReadTakes(me, sid, m);
      TakeStep(me, DoRead(me, sid, m), peer, sid, me.s.streams[sid].Read(m).value.0);
    }
  }

  // ---- Receiving: the number is recorded first ----

  // me with packet number pn recorded by the replay window and the acknowledgement tracker.
  function Marked(me: Party, pn: nat, eliciting: bool, now: nat): Party
    requires me.s.ack.Valid() && pn < U64
  {
    me.(s := me.s.(replay := me.s.replay.Commit(pn), ack := me.s.ack.OnReceived(pn, eliciting, now)))
  }

  lemma AckLogGrows(log: seq<Packet>, a: set<nat>, b: set<nat>)
    requires AckLog(log, a) && a <= b
    ensures AckLog(log, b)
  {}

  lemma MarkGood(me: Party, pn: nat, eliciting: bool, now: nat)
    requires Good(me) && pn < U64 && me.s.replay.Judge(pn) == Replay.Accept
    ensures Good(Marked(me, pn, eliciting, now))
  {
    Ack.RetainFacts(me.s.ack.received, pn, me.s.ack.Top(pn));
    AckLogGrows(me.log, me.s.replay.accepted, me.s.replay.accepted + {pn});
  }

  lemma OutstandingGrows(entries: seq<Arq.Entry<Packet>>, log: seq<Packet>, a: set<nat>, b: set<nat>)
    requires Outstanding(entries, log, a) && a <= b
    ensures Outstanding(entries, log, b)
  {}

  lemma MarkLinks(me: Party, peer: Party, pn: nat, eliciting: bool, now: nat)
    requires me.s.ack.Valid() && pn < |peer.log| <= U64 && me.s.replay.Judge(pn) == Replay.Accept
    requires Link(me, peer) && Link(peer, me)
    ensures Link(Marked(me, pn, eliciting, now), peer) && Link(peer, Marked(me, pn, eliciting, now))
    ensures me.s.recvConsumed + peer.log[pn].PayloadSize() <= PayloadSum(peer.log, me.s.replay.Commit(pn).accepted)
  {
    PayloadAdd(peer.log, me.s.replay.accepted, pn);
    OutstandingGrows(peer.s.arq.entries, peer.log, me.s.replay.accepted, me.s.replay.accepted + {pn});
  }

  lemma MarkStep(me: Party, peer: Party, pn: nat, eliciting: bool, now: nat)
    requires Inv(me, peer) && pn < |peer.log| && me.s.replay.Judge(pn) == Replay.Accept
    ensures var m := Marked(me, pn, eliciting, now);
      Inv(m, peer) && m.s.recvConsumed + peer.log[pn].PayloadSize() <= PayloadSum(peer.log, m.s.replay.accepted)
  {
    MarkGood(me, pn, eliciting, now);
    MarkLinks(me, peer, pn, eliciting, now);
  }

  // ---- Receiving a data frame ----

  // Two segments cut on one stream are the same or disjoint.
  lemma CutsApart(log: seq<Packet>, sid: nat, g: Seg, h: Seg)
    requires LogOrdered(log) && WasCut(log, sid, g) && WasCut(log, sid, h)
    ensures Apart(g, h)
  {
    var i :| 0 <= i < |log| && log[i].Data? && !log[i].frame.fin && log[i].frame.sid == sid &&
      log[i].frame.Segment() == g;
    var j :| 0 <= j < |log| && log[j].Data? && !log[j].frame.fin && log[j].frame.sid == sid &&
      log[j].frame.Segment() == h;
    if i < j { assert Before(log[i], log[j]); } else if j < i { assert Before(log[j], log[i]); }
  }

  // The stream that an honest frame reaches: nothing is refused, nothing is misplaced.
  lemma SegmentLinks(a: StreamState, sid: nat, got: seq<byte>, w: seq<byte>, log: seq<Packet>, g: Seg)
    requires StreamLink(a, sid, got, w, log) && LogOrdered(log) && |w| <= a.recvMax && PieceOf(g, w)
    requires WasCut(log, sid, g)
    ensures a.Receive(g, false).1.Ok? && SameSend(a, a.Receive(g, false).0)
    ensures a.Receive(g, false).0.finReceived == a.finReceived
    ensures StreamLink(a.Receive(g, false).0, sid, got, w, log)
  {
    forall i | 0 <= i < |a.recvBuf| ensures Apart(g, a.recvBuf[i]) { CutsApart(log, sid, g, a.recvBuf[i]); }
    ReceiveKeeps(a, w, g, false);
    var t := a.Receive(g, false).0;
    if End(g) > a.recvOffset {
      InsertSegFacts(a.recvBuf, g);
      forall i | 0 <= i < |t.recvBuf| ensures WasCut(log, sid, t.recvBuf[i]) { assert t.recvBuf[i] in t.recvBuf; }
    }
  }

  lemma NewLinks(sid: nat, w: seq<byte>, log: seq<Packet>)
    ensures StreamLink(Stream.New(), sid, [], w, log)
  {}

  // What the invariant says of the receiving stream of an honest frame, opened or not.
  ghost predicate Receiver(me: Party, peer: Party, sid: nat) {
    var a := StreamOr(me.s.streams, sid);
    && sid < U32 && |At(peer.written, sid)| <= a.recvMax
    && (sid in me.s.streams || (sid % 2 != me.s.parity && sid in peer.s.streams))
    && StreamLink(a, sid, At(me.got, sid), At(peer.written, sid), peer.log)
    && FinOk(a, sid, peer.s.streams, peer.written)
  }

  lemma OpenedReceiver(me: Party, peer: Party, sid: nat)
    requires Inv(me, peer) && sid in peer.s.streams && sid in me.s.streams
    ensures Receiver(me, peer, sid)
  {
    StreamFacts(peer, me, sid);
    StreamFacts(me, peer, sid);
  }

  lemma UnopenedFacts(me: Party, peer: Party, sid: nat)
    requires Inv(me, peer) && sid in peer.s.streams && sid !in me.s.streams
    ensures sid % 2 != me.s.parity && sid !in me.got && sid < U32 && |At(peer.written, sid)| <= DEFAULT_WINDOW
  {
    assert StreamSends(peer.s.streams[sid], At(peer.written, sid));
  }

  lemma UnopenedReceiver(me: Party, peer: Party, sid: nat)
    requires sid in peer.s.streams && sid !in me.s.streams
    requires sid % 2 != me.s.parity && sid !in me.got && sid < U32 && |At(peer.written, sid)| <= DEFAULT_WINDOW
    ensures Receiver(me, peer, sid)
  {
    NewLinks(sid, At(peer.written, sid), peer.log);
  }

  lemma ReceiverFacts(me: Party, peer: Party, sid: nat)
    requires Inv(me, peer) && sid in peer.s.streams
    ensures Receiver(me, peer, sid)
  {
    if sid in me.s.streams {
      OpenedReceiver(me, peer, sid);
    } else {
      UnopenedFacts(me, peer, sid);
      UnopenedReceiver(me, peer, sid);
    }
  }

  lemma FrameReceived(me: Party, peer: Party, f: DataFrame, pn: nat)
    requires Receiver(me, peer, f.sid) && FrameOk(f, peer.s.streams, peer.written) && LogOrdered(peer.log)
    requires pn < |peer.log| && peer.log[pn] == Data(f)
    ensures var a := StreamOr(me.s.streams, f.sid);
      var (st, o) := a.Receive(f.Segment(), f.fin);
      && o.Ok? && SameSend(a, st) && FinOk(st, f.sid, peer.s.streams, peer.written)
      && StreamLink(st, f.sid, At(me.got, f.sid), At(peer.written, f.sid), peer.log)
  {
    if !f.fin {
      assert WasCut(peer.log, f.sid, f.Segment());
      SegmentLinks(StreamOr(me.s.streams, f.sid), f.sid, At(me.got, f.sid), At(peer.written, f.sid), peer.log,
                   f.Segment());
    }
  }

  // Whether the frame would open one stream too many.
  predicate TooMany(s: Session, sid: nat) { sid !in s.streams && |s.streams| >= s.maxStreams }

  lemma HandleTakes(me: Party, f: DataFrame)
    requires f.sid < U32 && (f.sid in me.s.streams || f.sid % 2 != me.s.parity) && !TooMany(me.s, f.sid)
    requires SameSend(StreamOr(me.s.streams, f.sid), StreamOr(me.s.streams, f.sid).Receive(f.Segment(), f.fin).0)
    ensures var (s', o) := me.s.HandleData(f);
      && Takes(me, me.(s := s'), f.sid, StreamOr(me.s.streams, f.sid).Receive(f.Segment(), f.fin).0)
      && o == StreamOr(me.s.streams, f.sid).Receive(f.Segment(), f.fin).1
      && s'.recvConsumed == me.s.recvConsumed + |f.data|
  {}

  // The outcome of handling an honest data frame: refused only by the stream cap.
  lemma DataReceived(me: Party, peer: Party, f: DataFrame, pn: nat)
    requires Inv(me, peer) && pn < |peer.log| && peer.log[pn] == Data(f)
    requires me.s.recvConsumed + |f.data| <= PayloadSum(peer.log, me.s.replay.accepted)
    ensures var (s', o) := me.s.HandleData(f); Inv(me.(s := s'), peer) && (o.Ok? <==> !TooMany(me.s, f.sid))
  {
    assert FrameOk(f, peer.s.streams, peer.written);
    ReceiverFacts(me, peer, f.sid);
    if !TooMany(me.s, f.sid) {
      FrameReceived(me, peer, f, pn);
      HandleTakes(me, f);
      TakeStep(me, me.(s := me.s.HandleData(f).0), peer, f.sid,
               StreamOr(me.s.streams, f.sid).Receive(f.Segment(), f.fin).0);
    } else {
      assert me.(s := me.s.HandleData(f).0) == me;
    }
  }

  // ---- Receiving an acknowledgement or a grant ----

  // me with tracker a, and bytes more of congestion feedback.
  function Released(me: Party, a: Arq.ArqState<Packet>, bytes: nat): Party {
    me.(s := me.s.(arq := a, ccBytes := me.s.ccBytes + bytes))
  }

  lemma ReleaseSound(e: seq<Arq.Entry<Packet>>, e': seq<Arq.Entry<Packet>>, log: seq<Packet>, ranges: seq<Ack.Range>,
          bytes: nat)
    requires ArqSound(e, log) && Arq.WithoutRanges(e, e', bytes, ranges)
    ensures ArqSound(e', log)
  {}

  lemma ReleaseOutstanding(e: seq<Arq.Entry<Packet>>, e': seq<Arq.Entry<Packet>>, log: seq<Packet>,
          ranges: seq<Ack.Range>, bytes: nat, accepted: set<nat>)
    requires Outstanding(e, log, accepted) && Arq.WithoutRanges(e, e', bytes, ranges)
    requires forall k: nat | Arq.Inside(ranges, k) :: k in accepted
    ensures Outstanding(e', log, accepted)
  {
    forall pn: nat | pn < |log| && log[pn].Data? ensures Arq.HasKey(e', pn) || pn in accepted {
      if Arq.HasKey(e, pn) && pn !in accepted {
        var i :| 0 <= i < |e| && e[i].0 == pn;
        assert e[i] in e && e[i] in e';
        MemberKey(e', e[i]);
      }
    }
  }

  lemma ReleaseGood(me: Party, a: Arq.ArqState<Packet>, ranges: seq<Ack.Range>, bytes: nat)
    requires Good(me) && Arq.WithoutRanges(me.s.arq.entries, a.entries, bytes, ranges)
    ensures Good(Released(me, a, bytes))
  {
    ReleaseSound(me.s.arq.entries, a.entries, me.log, ranges, bytes);
  }

  lemma ReleaseLinks(me: Party, peer: Party, a: Arq.ArqState<Packet>, bytes: nat)
    requires Link(me, peer) && Link(peer, me) && Outstanding(a.entries, me.log, peer.s.replay.accepted)
    ensures Link(Released(me, a, bytes), peer) && Link(peer, Released(me, a, bytes))
  {}

  lemma ReleaseStep(me: Party, peer: Party, a: Arq.ArqState<Packet>, ranges: seq<Ack.Range>, bytes: nat)
    requires Inv(me, peer) && Arq.WithoutRanges(me.s.arq.entries, a.entries, bytes, ranges)
    requires forall k: nat | Arq.Inside(ranges, k) :: k in peer.s.replay.accepted
    ensures Inv(Released(me, a, bytes), peer)
  {
    ReleaseGood(me, a, ranges, bytes);
    ReleaseOutstanding(me.s.arq.entries, a.entries, me.log, ranges, bytes, peer.s.replay.accepted);
    ReleaseLinks(me, peer, a, bytes);
  }

  lemma PeerAcksAccepted(peer: Party, pn: nat)
    requires Good(peer) && pn < |peer.log| && peer.log[pn].Ack?
    ensures forall k: nat | Arq.Inside(peer.log[pn].ranges, k) :: k in peer.s.replay.accepted
  {}

  lemma AckReceived(me: Party, peer: Party, pn: nat, now: nat)
    requires Inv(me, peer) && pn < |peer.log| && peer.log[pn].Ack?
    ensures Inv(me.(s := me.s.HandleAck(peer.log[pn].ranges, now)), peer)
  {
    var ranges := peer.log[pn].ranges;
    Arq.AckRangesRemove(me.s.arq, ranges, now);
    PeerAcksAccepted(peer, pn);
    var (a, bytes) := me.s.arq.AckRanges(ranges, now);
    ReleaseStep(me, peer, a, ranges, bytes);
  }

  lemma GrantReceived(me: Party, peer: Party, pn: nat)
    requires Inv(me, peer) && pn < |peer.log| && peer.log[pn].MaxData?
    ensures Inv(me.(s := me.s.(send := me.s.send.UpdateLimit(peer.log[pn].limit))), peer)
  {}

  // What receiving does once the number is recorded.
  function Handled(m: Party, p: Packet, now: nat): Party {
    match p
    case Data(f) => m.(s := m.s.HandleData(f).0)
    case Ack(ranges) => m.(s := m.s.HandleAck(ranges, now))
    case MaxData(l) => m.(s := m.s.(send := m.s.send.UpdateLimit(l)))
    case Other(_) => m
  }

  lemma ReceiveIs(me: Party, pn: nat, p: Packet, now: nat)
    requires me.s.ack.Valid() && pn < U64 && me.s.replay.Judge(pn) == Replay.Accept
    ensures DoReceive(me, pn, p, now) == Handled(Marked(me, pn, p.AckEliciting(), now), p, now)
  {}

  lemma HandleStep(m: Party, peer: Party, pn: nat, now: nat)
    requires Inv(m, peer) && pn < |peer.log|
    requires m.s.recvConsumed + peer.log[pn].PayloadSize() <= PayloadSum(peer.log, m.s.replay.accepted)
    ensures Inv(Handled(m, peer.log[pn], now), peer)
  {
    match peer.log[pn] {
      case Data(f) => DataReceived(m, peer, f, pn);
      case Ack(_) => AckReceived(m, peer, pn, now);
      case MaxData(_) => GrantReceived(m, peer, pn);
      case Other(_) =>
    }
  }

  // Receiving any packet the peer ever numbered, any number of times, in any order.
  lemma ReceiveStep(me: Party, peer: Party, pn: nat, now: nat)
    requires Inv(me, peer) && pn < |peer.log|
    ensures Inv(DoReceive(me, pn, peer.log[pn], now), peer)
  {
    var p := peer.log[pn];
    if me.s.replay.Judge(pn) == Replay.Accept {
      MarkStep(me, peer, pn, p.AckEliciting(), now);
      HandleStep(Marked(me, pn, p.AckEliciting(), now), peer, pn, now);
      ReceiveIs(me, pn, p, now);
    }
  }

  lemma DeliverStep(me: Party, peer: Party, pn: nat, now: nat, immediate: bool)
    requires Inv(me, peer) && pn < |peer.log|
    ensures Inv(DoDeliver(me, pn, peer.log[pn], now, immediate), peer)
  {
    ReceiveStep(me, peer, pn, now);
    var m := DoReceive(me, pn, peer.log[pn], now);
    if m.s.pendingMaxData.Some? && m.s.nextPn < U64 { MaxDataStep(m, peer); }
  }

  lemma FlushDataStep(me: Party, peer: Party, a: Action, now: nat)
    requires Inv(me, peer) && (a.FlushSegment? || a.FlushFin?)
    ensures Inv(Act(me, peer, a, now), peer)
  {
    hide Inv;
    if me.s.nextPn < U64 {
      if a.FlushSegment? && me.s.HasSegment(a.sid) { SegmentStep(me, peer, a.sid, now); }
      if a.FlushFin? && me.s.HasFin(a.sid) { FinStep(me, peer, a.sid, now); }
    }
  }

  lemma FlushControlStep(me: Party, peer: Party, a: Action, now: nat)
    requires Inv(me, peer) && (a.FlushAck? || a.FlushMaxData? || a.FlushOther?)
    ensures Inv(Act(me, peer, a, now), peer)
  {
    hide Inv;
    if me.s.nextPn < U64 {
      if a.FlushAck? { AckStep(me, peer); }
      if a.FlushMaxData? && me.s.pendingMaxData.Some? { MaxDataStep(me, peer); }
      if a.FlushOther? { OtherStep(me, peer, a.eliciting); }
    }
  }

  lemma ApplicationStep(me: Party, peer: Party, a: Action, now: nat)
    requires Inv(me, peer) && (a.Open? || a.Write? || a.Finish? || a.Read?)
    ensures Inv(Act(me, peer, a, now), peer)
  {
    hide Inv;
    match a {
      case Open => OpenStep(me, peer);
      case Write(sid, data) => WriteStep(me, peer, sid, data);
      case Finish(sid) => FinishStep(me, peer, sid);
      case Read(sid, m) => ReadStep(me, peer, sid, m);
    }
  }

  lemma NetworkStep(me: Party, peer: Party, a: Action, now: nat)
    requires Inv(me, peer) && (a.Receive? || a.Retransmit? || a.DrainCc?)
    ensures Inv(Act(me, peer, a, now), peer)
  {
    hide Inv;
    match a {
      case Receive(pn, immediate) => if pn < |peer.log| { DeliverStep(me, peer, pn, now, immediate); }
      case Retransmit => RetransmitStep(me, peer, now);
      case DrainCc => DrainCcStep(me, peer);
    }
  }

  // Every action of either party keeps the invariant.
  lemma ActStep(me: Party, peer: Party, a: Action, now: nat)
    requires Inv(me, peer)
    ensures Inv(Act(me, peer, a, now), peer)
  {
    hide Inv, Act;
    if a.FlushSegment? || a.FlushFin? { FlushDataStep(me, peer, a, now); }
    else if a.FlushAck? || a.FlushMaxData? || a.FlushOther? { FlushControlStep(me, peer, a, now); }
    else if a.Open? || a.Write? || a.Finish? || a.Read? { ApplicationStep(me, peer, a, now); }
    else { NetworkStep(me, peer, a, now); }
  }
}
