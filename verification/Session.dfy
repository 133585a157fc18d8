// The session layer: streams, credit, packet numbers, acknowledgement and retransmission state.
module Session {
  import opened Options
  import opened Bytes
  import opened Stream
  import Ack = AckRanges
  import Arq
  import Replay

  const SEGMENT: nat := 1386  // MAX_PAYLOAD - 14

  // ---- Credit windows ----

  datatype Flow = Flow(limit: nat, consumed: nat)
  {
    function Reserve(n: nat): (Flow, Outcome<()>) {
      if consumed + n > limit then (this, Err(FlowControlBlocked(SaturatingSub(limit, consumed), n)))
      else (this.(consumed := consumed + n), Ok(()))
    }

    function UpdateLimit(l: nat): Flow { if l > limit then this.(limit := l) else this }
  }

  // ---- Packets ----

  datatype DataFrame = DataFrame(sid: nat, offset: nat, data: seq<byte>, fin: bool)
  {
    function Segment(): Seg { (offset, data) }
  }

  datatype Packet =
    | Data(frame: DataFrame)
    | Ack(ranges: seq<Ack.Range>)
    | MaxData(limit: nat)
    | Other(eliciting: bool)
  {
    // Bytes on the wire of a data packet: header, frame header, data, tag.
    function WireSize(): nat { if Data? then 32 + 16 + |frame.data| + 16 else 0 }

    function PayloadSize(): nat { if Data? then |frame.data| else 0 }

    predicate AckEliciting() { Data? || (Other? && eliciting) }
  }

  datatype Session = Session(
    parity: nat, maxStreams: nat,
    streams: map<nat, StreamState>, nextStreamId: nat,
    send: Flow, recv: Flow, recvConsumed: nat, pendingMaxData: Option<nat>,
    arq: Arq.ArqState<Packet>, ack: Ack.AckState, replay: Replay.Window,
    nextPn: nat, ccBytes: nat)
  {
    // ---- Application side ----

    function Open(): (Session, Option<nat>) {
      if |streams| >= maxStreams then (this, None)
      else
        var grown := streams[nextStreamId := Stream.New()];
        (this.(streams := grown, nextStreamId := nextStreamId + 2), Some(nextStreamId))
    }

    // Credit is reserved before the stream is looked up.
    function Send(sid: nat, data: seq<byte>): (Session, Outcome<nat>) {
      var (w, r) := send.Reserve(|data|);
      if r.Err? then (this, Err(r.error))
      else
        var paid := this.(send := w);
        if sid !in streams then (paid, Err(UnknownStream))
        else
          var (st, o) := streams[sid].Write(data);
          (paid.(streams := streams[sid := st]), o)
    }

    function FinishStream(sid: nat): Session {
      if sid in streams then this.(streams := streams[sid := streams[sid].Finish()]) else this
    }

    function ReadStream(sid: nat, maxBytes: nat): Option<(Session, Outcome<seq<byte>>)> {
      if sid !in streams then Some((this, Err(UnknownStream)))
      else
        var r := streams[sid].Read(maxBytes);
        if r.None? then None
        else Some((this.(streams := streams[sid := r.value.0]), Ok(r.value.1)))
    }

    // ---- Flush, one packet at a time ----

    // Number a data packet and hand it to the retransmission tracker.
    function Emit(p: Packet, now: nat): Session {
      var s := this.(nextPn := nextPn + 1);
      if p.Data? then s.(arq := arq.OnSent(nextPn, p, p.WireSize(), now)) else s
    }

    predicate HasSegment(sid: nat) { sid in streams && streams[sid].sendBuf != [] && streams[sid].Unsent() >= 0 }

    function FlushSegment(sid: nat, now: nat): (Session, Packet)
      requires HasSegment(sid)
    {
      var (st, g) := streams[sid].PollSend(SEGMENT);
      var p := Data(DataFrame(sid, g.value.0, g.value.1, false));
      (this.(streams := streams[sid := st]).Emit(p, now), p)
    }

    predicate HasFin(sid: nat) { sid in streams && streams[sid].ShouldSendFin() }

    function FlushFin(sid: nat, now: nat): (Session, Packet)
      requires HasFin(sid)
    {
      var p := Data(DataFrame(sid, streams[sid].sendOffset, [], true));
      (this.(streams := streams[sid := streams[sid].(finFlushed := true)]).Emit(p, now), p)
    }

    function FlushAck(): (Session, Packet) {
      var p := Ack(Ack.Runs(ack.received));
      (this.(ack := ack.(pending := false)).Emit(p, 0), p)
    }

    function FlushMaxData(): (Session, Packet)
      requires pendingMaxData.Some?
    {
      var p := MaxData(pendingMaxData.value);
      (this.(pendingMaxData := None, recv := recv.UpdateLimit(pendingMaxData.value)).Emit(p, 0), p)
    }

    // ---- Receive ----

    function HandleData(f: DataFrame): (Session, Outcome<()>) {
      if f.sid !in streams && f.sid % 2 == parity then (this, Err(ProtocolViolation))
      else if f.sid !in streams && |streams| >= maxStreams then (this, Err(ProtocolViolation))
      else
        var total := recvConsumed + |f.data|;
        var asks := 2 * total > recv.limit && pendingMaxData.None?;
        var pend := if asks then Some(total + DEFAULT_WINDOW) else pendingMaxData;
        var st0 := if f.sid in streams then streams[f.sid] else Stream.New();
        var (st, o) := st0.Receive(f.Segment(), f.fin);
        (this.(recvConsumed := total, pendingMaxData := pend, streams := streams[f.sid := st]), o)
    }

    function HandleAck(ranges: seq<Ack.Range>, now: nat): Session {
      var (a, bytes) := arq.AckRanges(ranges, now);
      this.(arq := a, ccBytes := ccBytes + bytes)
    }

    // A packet that the replay window rejects leaves the session as it was.
    function Receive(pn: nat, p: Packet, now: nat): (Session, Option<Outcome<()>>)
      requires ack.Valid() && pn < U64
    {
      if replay.Judge(pn) != Replay.Accept then (this, None)
      else
        var s := this.(replay := replay.Commit(pn), ack := ack.OnReceived(pn, p.AckEliciting(), now));
        match p
        case Data(f) => var (t, o) := s.HandleData(f); (t, Some(o))
        case Ack(ranges) => (s.HandleAck(ranges, now), Some(Ok(())))
        case MaxData(l) => (s.(send := send.UpdateLimit(l)), Some(Ok(())))
        case Other(_) => (s, Some(Ok(())))
    }
  }

  function NewSession(parity: nat, maxStreams: nat): Session {
    Session(parity, maxStreams, map[], if parity == 1 then 1 else 2,
            Flow(DEFAULT_WINDOW, 0), Flow(DEFAULT_WINDOW, 0), 0, None,
            Arq.New(), Ack.New(), Replay.Window(0, {}), 0, 0)
  }
}
