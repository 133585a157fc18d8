// The session as an object: its methods refine the session functions.
module Endpoint {
  import opened Options
  import opened Bytes
  import opened Stream
  import opened Session
  import opened Flush
  import FlowControl
  import Ack = AckRanges
  import Arq
  import Replay

  // Packets already collected in front of a flush result.
  ghost function Before(ps: seq<Packet>, r: (Session, seq<Packet>)): (Session, seq<Packet>) { (r.0, ps + r.1) }

  lemma BeforeNothing(r: (Session, seq<Packet>))
    ensures Before([], r) == r
  {
    assert [] + r.1 == r.1;
  }

  lemma SegmentRound(ps: seq<Packet>, s: Session, sid: nat, now: nat)
    requires s.HasSegment(sid)
    ensures var (t, p) := s.FlushSegment(sid, now);
      Before(ps, FlushStream(s, sid, now)) == Before(ps + [p], FlushStream(t, sid, now))
  {
    var (t, p) := s.FlushSegment(sid, now);
    assert ps + ([p] + FlushStream(t, sid, now).1) == ps + [p] + FlushStream(t, sid, now).1;
  }

  lemma StreamRound(ps: seq<Packet>, s: Session, sids: seq<nat>, now: nat)
    requires sids != []
    ensures var (t, qs) := FlushStream(s, sids[0], now);
      Before(ps, FlushStreams(s, sids, now)) == Before(ps + qs, FlushStreams(t, sids[1..], now))
  {
    var (t, qs) := FlushStream(s, sids[0], now);
    assert ps + (qs + FlushStreams(t, sids[1..], now).1) == ps + qs + FlushStreams(t, sids[1..], now).1;
  }

  lemma SegmentShrinks(s: Session, sid: nat, now: nat)
    requires s.HasSegment(sid)
    ensures var t := s.FlushSegment(sid, now).0;
      sid in t.streams && t.streams[sid].Unsent() >= 0 && |t.streams[sid].sendBuf| < |s.streams[sid].sendBuf|
  {}

  lemma NoStreams(s: Session, now: nat)
    ensures FlushStreams(s, [], now) == (s, [])
  {}

  // The bytes of the send side are consistent, as every run keeps them.
  ghost predicate Sound(streams: map<nat, StreamState>) { forall k | k in streams :: streams[k].Unsent() >= 0 }

  lemma FlushSound(s: Session, sid: nat, now: nat)
    requires Sound(s.streams) && sid in s.streams
    ensures Sound(FlushStream(s, sid, now).0.streams) && FlushStream(s, sid, now).0.streams.Keys == s.streams.Keys
  {
    FlushCarries(s, sid, now);
  }

  // The session after n more bytes were counted.
  function Charged(s: Session, n: nat): Session {
    var total := s.recvConsumed + n;
    s.(recvConsumed := total,
       pendingMaxData := if 2 * total > s.recv.limit && s.pendingMaxData.None? then Some(total + DEFAULT_WINDOW)
                         else s.pendingMaxData)
  }

  // The streams with sid opened, if it was not.
  function OpenedFor(streams: map<nat, StreamState>, sid: nat): (m: map<nat, StreamState>)
    ensures sid in m
  {
    if sid in streams then streams else streams[sid := Stream.New()]
  }

  // The streams with a frame handed to its stream, and what the stream answers.
  function Stored(streams: map<nat, StreamState>, f: DataFrame): (map<nat, StreamState>, Outcome<()>)
    requires f.sid in streams
  {
    var (st, o) := streams[f.sid].Receive(f.Segment(), f.fin);
    (streams[f.sid := st], o)
  }

  predicate Refused(s: Session, sid: nat) {
    sid !in s.streams && (sid % 2 == s.parity || |s.streams| >= s.maxStreams)
  }

  lemma HandleIs(s: Session, f: DataFrame)
    ensures s.HandleData(f) ==
      if Refused(s, f.sid) then (s, Err(ProtocolViolation))
      else
        var (streams, o) := Stored(OpenedFor(s.streams, f.sid), f);
        (Charged(s, |f.data|).(streams := streams), o)
  {
    hide StreamState.Receive;
    if f.sid !in s.streams {
      var st := Stream.New().Receive(f.Segment(), f.fin).0;
      assert s.streams[f.sid := Stream.New()][f.sid := st] == s.streams[f.sid := st];
    }
  }

  lemma ChargeApart(s: Session, n: nat)
    ensures Charged(s, n).streams == s.streams
  {}

  // What an accepted packet does once its number is recorded.
  function Dispatched(s: Session, p: Packet, now: nat): (Session, Outcome<()>) {
    match p
    case Data(f) => s.HandleData(f)
    case Ack(ranges) => (s.HandleAck(ranges, now), Ok(()))
    case MaxData(l) => (s.(send := s.send.UpdateLimit(l)), Ok(()))
    case Other(_) => (s, Ok(()))
  }

  lemma ReceiveIs(s: Session, pn: nat, p: Packet, now: nat)
    requires s.ack.Valid() && pn < U64
    ensures var t := s.(replay := s.replay.Commit(pn), ack := s.ack.OnReceived(pn, p.AckEliciting(), now));
      s.Receive(pn, p, now) ==
      if s.replay.Judge(pn) != Replay.Accept then (s, None)
      else (Dispatched(t, p, now).0, Some(Dispatched(t, p, now).1))
  {}

  // The values of the stream objects.
  ghost function Views(streams: map<nat, ByteStream>): map<nat, StreamState>
    reads streams.Values
  {
    map k | k in streams :: streams[k].View()
  }

  // No object stands for two streams.
  ghost predicate Separate(streams: map<nat, ByteStream>) {
    forall j, k | j in streams && k in streams && j != k :: streams[j] != streams[k]
  }

  // The session composed of its parts: stream objects, retransmission and acknowledgement trackers, replay window.
  class SessionObject {
    const parity: nat
    const maxStreams: nat
    var streams: map<nat, ByteStream>
    var nextStreamId: nat
    const sendWindow: FlowControl.FlowWindow
    const recvWindow: FlowControl.FlowWindow
    var recvConsumed: nat
    var pendingMaxData: Option<nat>
    const arq: Arq.Tracker<Packet>
    const ack: Ack.Tracker
    const replay: Replay.ReplayWindow
    var nextPn: nat
    var ccBytes: nat

    ghost function Repr(): set<object>
      reads this, replay
    {
      {this, sendWindow, recvWindow, arq, ack, replay, replay.bitmap} + streams.Values
    }

    ghost predicate Valid()
      reads this, replay, replay.bitmap
    {
      replay.Valid() && Separate(streams) && sendWindow != recvWindow
    }

    ghost function View(): Session
      reads Repr()
    {
      Session(parity, maxStreams, Views(streams), nextStreamId, sendWindow.View(), recvWindow.View(), recvConsumed,
              pendingMaxData, arq.View(), ack.View(), replay.View(), nextPn, ccBytes)
    }

    // A client opens odd stream ids, a server even ones.
    constructor (isClient: bool, max: nat)
      ensures Valid() && fresh(Repr()) && View() == NewSession(if isClient then 1 else 0, max)
    {
      parity, maxStreams := if isClient then 1 else 0, max;
      streams, nextStreamId := map[], if isClient then 1 else 2;
      sendWindow := new FlowControl.FlowWindow(DEFAULT_WINDOW);
      recvWindow := new FlowControl.FlowWindow(DEFAULT_WINDOW);
      recvConsumed, pendingMaxData := 0, None;
      arq := new Arq.Tracker<Packet>();
      ack := new Ack.Tracker();
      replay := new Replay.ReplayWindow();
      nextPn, ccBytes := 0, 0;
    }

    // A fresh stream object under this id.
    method AddStream(sid: nat) returns (st: ByteStream)
      requires Valid()
      modifies this`streams
      ensures Valid() && fresh(st) && streams == old(streams)[sid := st] && st.View() == Stream.New()
      ensures fresh(streams.Values - old(streams.Values))
      ensures View() == old(View()).(streams := old(View()).streams[sid := Stream.New()])
    {
      st := new ByteStream();
      streams := streams[sid := st];
      assert Views(streams) == old(Views(streams))[sid := st.View()];
    }

    method OpenStream() returns (id: Option<nat>)
      requires Valid()
      modifies this`streams, this`nextStreamId
      ensures Valid() && fresh(streams.Values - old(streams.Values)) && (View(), id) == old(View()).Open()
    {
      hide Views, Separate;
      SameSize(streams);
      if |streams| >= maxStreams {
        return None;
      }
      id := Some(nextStreamId);
      var st := AddStream(nextStreamId);
      nextStreamId := nextStreamId + 2;
    }

    method Send(sid: nat, data: seq<byte>) returns (r: Outcome<nat>)
      requires Valid()
      modifies sendWindow, streams.Values
      ensures Valid() && (View(), r) == old(View()).Send(sid, data)
    {
      var reserved := sendWindow.TryReserve(|data|);
      if reserved.Err? {
        return Err(reserved.error);
      }
      if sid !in streams {
        return Err(UnknownStream);
      }
      r := streams[sid].Write(data);
      assert Views(streams) == old(Views(streams))[sid := streams[sid].View()];
    }

    method FinishStream(sid: nat)
      requires Valid()
      modifies streams.Values
      ensures Valid() && View() == old(View()).FinishStream(sid)
    {
      if sid in streams {
        streams[sid].finSent := true;
        assert Views(streams) == old(Views(streams))[sid := streams[sid].View()];
      }
    }

    // Number a data packet and hand it to the retransmission tracker.
    method Transmit(p: Packet, now: nat)
      modifies this`nextPn, arq
      ensures View() == old(View()).Emit(p, now)
    {
      if p.Data? {
        arq.OnSent(nextPn, p, p.WireSize(), now);
      }
      nextPn := nextPn + 1;
    }

    method PollSegment(sid: nat, now: nat) returns (p: Option<Packet>)
      requires Valid() && sid in streams && streams[sid].View().Unsent() >= 0
      modifies this`nextPn, arq, streams.Values
      ensures Valid()
      ensures p.Some? <==> old(View()).HasSegment(sid)
      ensures p.Some? ==> (View(), p.value) == old(View()).FlushSegment(sid, now)
      ensures p.None? ==> View() == old(View())
    {
      var g := streams[sid].PollSend(SEGMENT);
      assert Views(streams) == old(Views(streams))[sid := streams[sid].View()];
      if g.None? {
        return None;
      }
      var q := Data(DataFrame(sid, g.value.0, g.value.1, false));
      Transmit(q, now);
      return Some(q);
    }

    // The final mark, once nothing is left to send.
    method PollFin(sid: nat, now: nat) returns (p: Option<Packet>)
      requires Valid() && sid in streams
      modifies this`nextPn, arq, streams.Values
      ensures Valid()
      ensures p.Some? <==> old(View()).HasFin(sid)
      ensures p.Some? ==> (View(), p.value) == old(View()).FlushFin(sid, now)
      ensures p.None? ==> View() == old(View())
    {
      var st := streams[sid];
      if !(st.finSent && !st.finFlushed && st.sendBuf == []) {
        return None;
      }
      var q := Data(DataFrame(sid, st.sendOffset, [], true));
      st.finFlushed := true;
      assert Views(streams) == old(Views(streams))[sid := streams[sid].View()];
      Transmit(q, now);
      return Some(q);
    }

    method DrainStream(sid: nat, now: nat) returns (ps: seq<Packet>)
      requires Valid() && sid in streams && streams[sid].View().Unsent() >= 0
      modifies this`nextPn, arq, streams.Values
      ensures Valid() && (View(), ps) == FlushStream(old(View()), sid, now)
    {
      hide Session.FlushSegment;
      ps := [];
      ghost var goal := FlushStream(View(), sid, now);
      BeforeNothing(goal);
      var p := PollSegment(sid, now);
      ghost var s := old(View());
      while p.Some?
        invariant Valid() && sid in s.streams && s.streams[sid].Unsent() >= 0
        invariant Before(ps, FlushStream(s, sid, now)) == goal
        invariant p.Some? <==> s.HasSegment(sid)
        invariant p.Some? ==> (View(), p.value) == s.FlushSegment(sid, now)
        invariant p.None? ==> View() == s
        decreases |s.streams[sid].sendBuf|
      {
        SegmentRound(ps, s, sid, now);
        SegmentShrinks(s, sid, now);
        ps := ps + [p.value];
        s := View();
        p := PollSegment(sid, now);
      }
      var q := PollFin(sid, now);
      if q.Some? {
        ps := ps + [q.value];
      } else {
        assert ps + [] == ps;
      }
    }

    // Streams in the given order.
    method DrainStreams(sids: seq<nat>, now: nat) returns (ps: seq<Packet>)
      requires Valid() && Sound(View().streams) && forall k | k in sids :: k in streams
      modifies this`nextPn, arq, streams.Values
      ensures Valid() && (View(), ps) == FlushStreams(old(View()), sids, now)
    {
      hide FlushStream, FlushStreams, Separate;
      ps := [];
      ghost var goal := FlushStreams(View(), sids, now);
      BeforeNothing(goal);
      assert sids[0..] == sids;
      for i := 0 to |sids|
        invariant Valid() && Sound(View().streams)
        invariant Before(ps, FlushStreams(View(), sids[i..], now)) == goal
      {
        assert sids[i..][1..] == sids[i + 1..];
        StreamRound(ps, View(), sids[i..], now);
        FlushSound(View(), sids[i], now);
        var qs := DrainStream(sids[i], now);
        ps := ps + qs;
      }
      assert sids[|sids|..] == [];
      NoStreams(View(), now);
      assert ps + [] == ps;
    }

    // The streams, then a pending ACK, then a pending grant.
    method FlushPackets(sids: seq<nat>, now: nat) returns (ps: seq<Packet>)
      requires Valid() && Sound(View().streams) && forall k | k in sids :: k in streams
      modifies this, recvWindow, arq, ack, streams.Values
      ensures Valid() && (View(), ps) == FlushAll(old(View()), sids, now)
    {
      hide FlushStreams, FlushControl, Views, Separate, Sound;
      ps := DrainStreams(sids, now);
      var qs := ControlPackets();
      ps := ps + qs;
    }

    method ControlPackets() returns (ps: seq<Packet>)
      requires Valid()
      modifies this, recvWindow, arq, ack
      ensures Valid() && streams == old(streams) && (View(), ps) == FlushControl(old(View()))
    {
      ps := [];
      if ack.ackPending {
        var p := AckPacket();
        ps := [p];
      }
      if pendingMaxData.Some? {
        var q := GrantPacket();
        ps := ps + [q];
      }
    }

    method AckPacket() returns (p: Packet)
      modifies this`nextPn, arq, ack
      ensures (View(), p) == old(View()).FlushAck()
    {
      var ranges := PendingRanges();
      p := Packet.Ack(ranges);
      Transmit(p, 0);
    }

    method GrantPacket() returns (p: Packet)
      requires pendingMaxData.Some? && sendWindow != recvWindow
      modifies this`nextPn, this`pendingMaxData, recvWindow, arq
      ensures (View(), p) == old(View()).FlushMaxData()
    {
      var limit := pendingMaxData.value;
      pendingMaxData := None;
      p := MaxData(limit);
      Transmit(p, 0);
      recvWindow.UpdateLimit(limit);
    }

    method PendingRanges() returns (ranges: seq<Ack.Range>)
      modifies ack
      ensures ranges == Ack.Runs(old(ack.received)) && ack.View() == old(ack.View()).(pending := false)
    {
      ack.ackPending := false;
      if ack.received == [] {
        return [];
      }
      ranges := Ack.BuildRanges(ack.received);
    }

    // Hand a frame to its stream.
    method StoreFrame(f: DataFrame) returns (r: Outcome<()>)
      requires Valid() && f.sid in streams
      modifies streams.Values
      ensures Valid()
      ensures var (m, o) := Stored(old(View()).streams, f);
        r == o && View() == old(View()).(streams := m)
    {
      hide StreamState.Receive;
      r := streams[f.sid].Receive(f.offset, f.data, f.fin);
      assert Views(streams) == old(Views(streams))[f.sid := streams[f.sid].View()];
    }

    // The stream of a frame is opened on first sight.
    method OpenFor(sid: nat)
      requires Valid()
      modifies this`streams
      ensures Valid() && sid in streams && fresh(streams.Values - old(streams.Values))
      ensures View() == old(View()).(streams := OpenedFor(old(View()).streams, sid))
    {
      hide Separate;
      if sid !in streams {
        var st := AddStream(sid);
      }
    }

    // Count the bytes, and ask for more credit past half the window.
    method Charge(n: nat)
      modifies this`recvConsumed, this`pendingMaxData
      ensures View() == Charged(old(View()), n)
    {
      recvConsumed := recvConsumed + n;
      if recvConsumed * 2 > recvWindow.limit && pendingMaxData.None? {
        pendingMaxData := Some(recvConsumed + DEFAULT_WINDOW);
      }
    }

    method HandleDataFrame(f: DataFrame) returns (r: Outcome<()>)
      requires Valid()
      modifies this`recvConsumed, this`pendingMaxData, this`streams, streams.Values
      ensures Valid() && fresh(streams.Values - old(streams.Values)) && (View(), r) == old(View()).HandleData(f)
    {
      hide Views, Separate, Session.HandleData, Charged, Stored, OpenedFor;
      SameSize(streams);
      HandleIs(View(), f);
      if f.sid !in streams {
        if f.sid % 2 == parity {
          return Err(ProtocolViolation);
        }
        if |streams| >= maxStreams {
          return Err(ProtocolViolation);
        }
      }
      Charge(|f.data|);
      ChargeApart(old(View()), |f.data|);
      OpenFor(f.sid);
      r := StoreFrame(f);
    }

    // Acknowledge start ..= end, one number at a time.
    method AckOneRange(start: nat, end: nat, now: nat) returns (bytes: nat)
      modifies arq
      ensures (arq.View(), bytes) == old(arq.View()).AckRange(start, end, now)
    {
      bytes := 0;
      if start > end {
        return;
      }
      var pn := start;
      ghost var goal := arq.View().AckRange(start, end, now);
      while pn < end
        invariant start <= pn <= end
        invariant var (b, more) := arq.View().AckRange(pn, end, now); goal == (b, bytes + more)
      {
        var r := arq.OnAck(pn, now);
        if r.Some? {
          bytes := bytes + r.value.1;
        }
        pn := pn + 1;
      }
      var r := arq.OnAck(pn, now);
      if r.Some? {
        bytes := bytes + r.value.1;
      }
    }

    method HandleAckFrame(ranges: seq<Ack.Range>, now: nat)
      modifies arq, this`ccBytes
      ensures View() == old(View()).HandleAck(ranges, now)
    {
      var total := 0;
      ghost var goal := arq.View().AckRanges(ranges, now);
      assert ranges[0..] == ranges;
      for i := 0 to |ranges|
        invariant var (b, more) := arq.View().AckRanges(ranges[i..], now); goal == (b, total + more)
        invariant ccBytes == old(ccBytes)
      {
        assert ranges[i..][1..] == ranges[i + 1..];
        var bytes := AckOneRange(ranges[i].0, ranges[i].1, now);
        total := total + bytes;
      }
      ccBytes := ccBytes + total;
    }

    // Record an accepted number, or refuse it.
    method Admit(pn: nat, eliciting: bool, now: nat) returns (ok: bool)
      requires Valid() && ack.View().Valid() && pn < U64
      modifies replay, replay.bitmap, ack
      ensures Valid() && (replay.bitmap == old(replay.bitmap) || fresh(replay.bitmap))
      ensures ok <==> old(replay.View()).Judge(pn) == Replay.Accept
      ensures !ok ==> View() == old(View())
      ensures ok ==> View() == old(View()).(
        replay := old(replay.View()).Commit(pn), ack := old(ack.View()).OnReceived(pn, eliciting, now))
    {
      var v := replay.Commit(pn);
      ok := v == Replay.Accept;
      if ok {
        ack.OnReceived(pn, eliciting, now);
      }
    }

    method Dispatch(p: Packet, now: nat) returns (r: Outcome<()>)
      requires Valid()
      modifies Repr()
      ensures Valid() && replay.bitmap == old(replay.bitmap) && fresh(streams.Values - old(streams.Values))
      ensures (View(), r) == Dispatched(old(View()), p, now)
    {
      hide Session.HandleData, Session.HandleAck, Views, Separate;
      r := Ok(());
      match p {
        case Data(f) => r := HandleDataFrame(f);
        case Ack(ranges) => HandleAckFrame(ranges, now);
        case MaxData(l) => sendWindow.UpdateLimit(l);
        case Other(_) =>
      }
    }

    // None: the replay window rejected the number and nothing changed.
    method ReceivePacket(pn: nat, p: Packet, now: nat) returns (r: Option<Outcome<()>>)
      requires Valid() && View().ack.Valid() && pn < U64
      modifies Repr()
      ensures Valid() && fresh(Repr() - old(Repr())) && (View(), r) == old(View()).Receive(pn, p, now)
    {
      hide Session.Receive, Dispatched, Views, Separate;
      ReceiveIs(View(), pn, p, now);
      var ok := Admit(pn, p.AckEliciting(), now);
      if !ok {
        return None;
      }
      var o := Dispatch(p, now);
      r := Some(o);
    }

    method ReadStream(sid: nat, maxBytes: nat) returns (r: Outcome<seq<byte>>)
      requires Valid() && View().ReadStream(sid, maxBytes).Some?
      modifies streams.Values
      ensures Valid() && old(View()).ReadStream(sid, maxBytes) == Some((View(), r))
    {
      if sid !in streams {
        return Err(UnknownStream);
      }
      var out := streams[sid].Read(maxBytes);
      assert Views(streams) == old(Views(streams))[sid := streams[sid].View()];
      return Ok(out);
    }
  }

  lemma SameSize(streams: map<nat, ByteStream>)
    ensures |Views(streams)| == |streams| && Views(streams).Keys == streams.Keys
  {
    assert Views(streams).Keys == streams.Keys;
    assert |Views(streams)| == |Views(streams).Keys| == |streams.Keys| == |streams|;
  }
}
