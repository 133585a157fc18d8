// Flushing a session: every stream drained into packets, then the pending control packets.
module Flush {
  import opened Bytes
  import opened Stream
  import opened Session
  import opened TwoParty
  import Ack = AckRanges

  // Drain one stream: segments while data remains, then the final mark.
  function FlushStream(s: Session, sid: nat, now: nat): (Session, seq<Packet>)
    decreases if sid in s.streams then |s.streams[sid].sendBuf| else 0
  {
    if s.HasSegment(sid) then
      var (t, p) := s.FlushSegment(sid, now);
      var (u, ps) := FlushStream(t, sid, now);
      (u, [p] + ps)
    else if s.HasFin(sid) then
      var (t, p) := s.FlushFin(sid, now);
      (t, [p])
    else (s, [])
  }

  // The streams in the order given, which the source sorts by priority.
  function FlushStreams(s: Session, sids: seq<nat>, now: nat): (Session, seq<Packet>)
    decreases |sids|
  {
    if sids == [] then (s, [])
    else
      var (t, ps) := FlushStream(s, sids[0], now);
      var (u, qs) := FlushStreams(t, sids[1..], now);
      (u, ps + qs)
  }

  function FlushControl(s: Session): (Session, seq<Packet>) {
    var (t, ps) := if s.ack.pending then var (t, p) := s.FlushAck(); (t, [p]) else (s, []);
    if t.pendingMaxData.Some? then
      var (u, q) := t.FlushMaxData();
      (u, ps + [q])
    else (t, ps)
  }

  function FlushAll(s: Session, sids: seq<nat>, now: nat): (Session, seq<Packet>) {
    var (t, ps) := FlushStreams(s, sids, now);
    var (u, qs) := FlushControl(t);
    (u, ps + qs)
  }

  // ---- What a stream's packets carry ----

  // ps are the frames of sid from offset `from` on, each filled up to one segment, carrying data, then the final mark
  // if fin.
  ghost predicate Carries(ps: seq<Packet>, sid: nat, from: nat, data: seq<byte>, fin: bool)
    decreases |ps|
  {
    if data == [] then ps == if fin then [Data(DataFrame(sid, from, [], true))] else []
    else
      var n := Min(|data|, SEGMENT);
      && ps != [] && ps[0] == Data(DataFrame(sid, from, data[..n], false))
      && Carries(ps[1..], sid, from + n, data[n..], fin)
  }

  // Flushing a stream sends exactly the buffered bytes at their offsets, and leaves nothing to send.
  lemma {:induction false} FlushCarries(s: Session, sid: nat, now: nat)
    requires sid in s.streams && s.streams[sid].Unsent() >= 0
    ensures var (t, ps) := FlushStream(s, sid, now);
      var st := s.streams[sid];
      && Carries(ps, sid, st.Unsent(), st.sendBuf, st.finSent && !st.finFlushed)
      && t.streams == s.streams[sid := st.(sendBuf := [], finFlushed := st.finFlushed || st.finSent)]
      && t.nextPn == s.nextPn + |ps|
    decreases |s.streams[sid].sendBuf|
  {
    var st := s.streams[sid];
    if s.HasSegment(sid) {
      var (t, p) := s.FlushSegment(sid, now);
      FlushCarries(t, sid, now);
      var n := Min(|st.sendBuf|, SEGMENT);
      var (u, ps) := FlushStream(t, sid, now);
      assert ([p] + ps)[1..] == ps;
    } else {
      assert st.sendBuf == [];
      assert s.streams[sid := st] == s.streams;
    }
  }

  // ---- What a whole flush sends ----

  // The data frames of one stream.
  function FramesOf(ps: seq<Packet>, sid: nat): seq<Packet> {
    if ps == [] then []
    else if ps[0].Data? && ps[0].frame.sid == sid then [ps[0]] + FramesOf(ps[1..], sid)
    else FramesOf(ps[1..], sid)
  }

  ghost predicate DataOnly(ps: seq<Packet>) { forall i | 0 <= i < |ps| :: ps[i].Data? }

  // The stream has handed over everything, the final mark included.
  function Emptied(st: StreamState): StreamState {
    st.(sendBuf := [], finFlushed := st.finFlushed || st.finSent)
  }

  ghost predicate Pollable(streams: map<nat, StreamState>) { forall sid | sid in streams :: streams[sid].Unsent() >= 0 }

  lemma {:induction false} FramesAppend(ps: seq<Packet>, qs: seq<Packet>, sid: nat)
    ensures FramesOf(ps + qs, sid) == FramesOf(ps, sid) + FramesOf(qs, sid)
  {
    if ps == [] {
      assert ps + qs == qs;
    } else {
      assert (ps + qs)[1..] == ps[1..] + qs;
      FramesAppend(ps[1..], qs, sid);
    }
  }

  lemma {:induction false} CarriesFrames(ps: seq<Packet>, sid: nat, from: nat, data: seq<byte>, fin: bool, other: nat)
    requires Carries(ps, sid, from, data, fin)
    ensures DataOnly(ps) && FramesOf(ps, other) == if other == sid then ps else []
    decreases |ps|
  {
    if data != [] {
      var n := Min(|data|, SEGMENT);
      CarriesFrames(ps[1..], sid, from + n, data[n..], fin, other);
      assert ps == [ps[0]] + ps[1..];
    }
  }

  lemma {:induction false} StreamLeaves(s: Session, sid: nat, now: nat)
    ensures var t := FlushStream(s, sid, now).0;
      t.ack == s.ack && t.pendingMaxData == s.pendingMaxData && t.recv == s.recv
    decreases if sid in s.streams then |s.streams[sid].sendBuf| else 0
  {
    if s.HasSegment(sid) { StreamLeaves(s.FlushSegment(sid, now).0, sid, now); }
  }

  // What a flush of these streams leaves of one stream, and what it sends for it.
  ghost predicate Sends(s: Session, sids: seq<nat>, t: Session, ps: seq<Packet>, sid: nat) {
    && (sid in t.streams <==> sid in s.streams)
    && (if sid in s.streams && sid in sids then
          && t.streams[sid] == Emptied(s.streams[sid]) && s.streams[sid].Unsent() >= 0
          && Carries(FramesOf(ps, sid), sid, s.streams[sid].Unsent(), s.streams[sid].sendBuf,
                     s.streams[sid].finSent && !s.streams[sid].finFlushed)
        else FramesOf(ps, sid) == [] && (sid in s.streams ==> t.streams[sid] == s.streams[sid]))
  }

  lemma FlushOne(s: Session, first: nat, now: nat, sid: nat)
    requires Pollable(s.streams)
    ensures var (t, ps) := FlushStream(s, first, now);
      Sends(s, [first], t, ps, sid) && DataOnly(ps) && Pollable(t.streams)
  {
    hide FlushStream, Carries;
    if first in s.streams {
      var st, ps := s.streams[first], FlushStream(s, first, now).1;
      FlushCarries(s, first, now);
      CarriesFrames(ps, first, st.Unsent(), st.sendBuf, st.finSent && !st.finFlushed, sid);
    } else {
      FlushUnknown(s, first, now);
    }
  }

  lemma FlushUnknown(s: Session, sid: nat, now: nat)
    requires sid !in s.streams
    ensures FlushStream(s, sid, now) == (s, [])
  {}

  lemma SendsTwice(s: Session, first: nat, a: (Session, seq<Packet>),
                   rest: seq<nat>, b: (Session, seq<Packet>), sid: nat)
    requires Sends(s, [first], a.0, a.1, sid) && Sends(a.0, rest, b.0, b.1, sid)
    ensures Sends(s, [first] + rest, b.0, a.1 + b.1, sid)
  {
    FramesAppend(a.1, b.1, sid);
    assert FramesOf(a.1, sid) + [] == FramesOf(a.1, sid) && [] + FramesOf(b.1, sid) == FramesOf(b.1, sid);
    if sid in s.streams && sid == first {
      assert sid in [first];
      var st := a.0.streams[sid];
      if sid in rest { assert FramesOf(b.1, sid) == []; }
    }
  }

  lemma {:induction false} FlushMany(s: Session, sids: seq<nat>, now: nat, sid: nat)
    requires Pollable(s.streams)
    ensures var (t, ps) := FlushStreams(s, sids, now);
      && Sends(s, sids, t, ps, sid) && DataOnly(ps)
      && t.ack == s.ack && t.pendingMaxData == s.pendingMaxData && t.recv == s.recv
    decreases |sids|
  {
    hide FlushStream, Sends;
    if sids == [] {
      SendsNothing(s, sid);
    } else {
      var a := FlushStream(s, sids[0], now);
      FlushOne(s, sids[0], now, sid);
      StreamLeaves(s, sids[0], now);
      FlushMany(a.0, sids[1..], now, sid);
      SendsTwice(s, sids[0], a, sids[1..], FlushStreams(a.0, sids[1..], now), sid);
      assert [sids[0]] + sids[1..] == sids;
    }
  }

  lemma SendsNothing(s: Session, sid: nat)
    ensures Sends(s, [], s, [], sid)
  {}

  // The control packets that are due.
  function Due(s: Session): seq<Packet> {
    (if s.ack.pending then [Packet.Ack(Ack.Runs(s.ack.received))] else []) +
    (if s.pendingMaxData.Some? then [MaxData(s.pendingMaxData.value)] else [])
  }

  // A whole flush sends for every listed stream exactly its buffered bytes and its final mark, nothing for the others,
  // and then the control packets that are due. Nothing stays pending.
  lemma FlushAllExactly(s: Session, sids: seq<nat>, now: nat, sid: nat)
    requires Pollable(s.streams)
    ensures var (u, ps) := FlushAll(s, sids, now);
      && Sends(s, sids, u, ps, sid) && |ps| >= |Due(s)|
      && ps[|ps| - |Due(s)|..] == Due(s) && DataOnly(ps[..|ps| - |Due(s)|])
      && !u.ack.pending && u.pendingMaxData.None?
      && u.recv.limit == if s.pendingMaxData.Some? && s.pendingMaxData.value > s.recv.limit then s.pendingMaxData.value
                         else s.recv.limit
  {
    hide Carries;
    var (t, ps) := FlushStreams(s, sids, now);
    FlushMany(s, sids, now, sid);
    var (u, qs) := FlushControl(t);
    ControlPackets(t);
    FramesAppend(ps, qs, sid);
    ControlFrames(t, sid);
    assert FramesOf(ps, sid) + [] == FramesOf(ps, sid);
    assert (ps + qs)[|ps|..] == qs && (ps + qs)[..|ps|] == ps;
  }

  lemma ControlPackets(t: Session)
    ensures var (u, qs) := FlushControl(t);
      && qs == Due(t) && u.streams == t.streams && !u.ack.pending && u.pendingMaxData.None?
      && u.recv.limit == if t.pendingMaxData.Some? && t.pendingMaxData.value > t.recv.limit then t.pendingMaxData.value
                         else t.recv.limit
  {}

  lemma ControlFrames(t: Session, sid: nat)
    ensures FramesOf(Due(t), sid) == []
  {
    var acks := if t.ack.pending then [Packet.Ack(Ack.Runs(t.ack.received))] else [];
    var grants := if t.pendingMaxData.Some? then [MaxData(t.pendingMaxData.value)] else [];
    FramesAppend(acks, grants, sid);
    assert FramesOf(acks, sid) == [] && FramesOf(grants, sid) == [];
  }

  // ---- A flush is a sequence of steps of the party ----

  function Flushed(me: Party, r: (Session, seq<Packet>)): Party { me.(s := r.0, log := me.log + r.1) }

  lemma FlushedTwice(me: Party, a: (Session, seq<Packet>), b: (Session, seq<Packet>))
    ensures Flushed(Flushed(me, a), b) == Flushed(me, (b.0, a.1 + b.1))
  {
    assert me.log + a.1 + b.1 == me.log + (a.1 + b.1);
  }

  lemma FlushedNothing(me: Party)
    ensures Flushed(me, (me.s, [])) == me
  {
    assert me.log + [] == me.log;
  }

  lemma SegmentThen(me: Party, peer: Party, sid: nat, now: nat)
    requires Inv(me, peer) && me.s.HasSegment(sid) && me.s.nextPn < U64
    ensures var (t, p) := me.s.FlushSegment(sid, now); Inv(Flushed(me, (t, [p])), peer) && t.nextPn == me.s.nextPn + 1
  {
    SegmentStep(me, peer, sid, now);
  }

  lemma FinThen(me: Party, peer: Party, sid: nat, now: nat)
    requires Inv(me, peer) && me.s.HasFin(sid) && me.s.nextPn < U64
    ensures var (t, p) := me.s.FlushFin(sid, now); Inv(Flushed(me, (t, [p])), peer)
  {
    FinStep(me, peer, sid, now);
  }

  lemma {:induction false} FlushStreamInv(me: Party, peer: Party, sid: nat, now: nat)
    requires Inv(me, peer) && me.s.nextPn + |FlushStream(me.s, sid, now).1| <= U64
    ensures Inv(Flushed(me, FlushStream(me.s, sid, now)), peer)
    decreases if sid in me.s.streams then |me.s.streams[sid].sendBuf| else 0
  {
    if me.s.HasSegment(sid) {
      var (t, p) := me.s.FlushSegment(sid, now);
      var m := Flushed(me, (t, [p]));
      SegmentThen(me, peer, sid, now);
      FlushStreamInv(m, peer, sid, now);
      FlushedTwice(me, (t, [p]), FlushStream(t, sid, now));
    } else if me.s.HasFin(sid) {
      FinThen(me, peer, sid, now);
    } else {
      FlushedNothing(me);
    }
  }

  lemma {:induction false} FlushStreamCount(s: Session, sid: nat, now: nat)
    ensures FlushStream(s, sid, now).0.nextPn == s.nextPn + |FlushStream(s, sid, now).1|
    decreases if sid in s.streams then |s.streams[sid].sendBuf| else 0
  {
    if s.HasSegment(sid) { FlushStreamCount(s.FlushSegment(sid, now).0, sid, now); }
  }

  lemma {:induction false} FlushStreamsCount(s: Session, sids: seq<nat>, now: nat)
    ensures FlushStreams(s, sids, now).0.nextPn == s.nextPn + |FlushStreams(s, sids, now).1|
    decreases |sids|
  {
    if sids != [] {
      FlushStreamCount(s, sids[0], now);
      FlushStreamsCount(FlushStream(s, sids[0], now).0, sids[1..], now);
    }
  }

  lemma {:induction false} FlushStreamsInv(me: Party, peer: Party, sids: seq<nat>, now: nat)
    requires Inv(me, peer) && me.s.nextPn + |FlushStreams(me.s, sids, now).1| <= U64
    ensures Inv(Flushed(me, FlushStreams(me.s, sids, now)), peer)
    decreases |sids|
  {
    if sids == [] {
      FlushedNothing(me);
    } else {
      var a := FlushStream(me.s, sids[0], now);
      FlushStreamCount(me.s, sids[0], now);
      FlushStreamInv(me, peer, sids[0], now);
      FlushStreamsInv(Flushed(me, a), peer, sids[1..], now);
      FlushedTwice(me, a, FlushStreams(a.0, sids[1..], now));
    }
  }

  lemma FlushControlInv(me: Party, peer: Party)
    requires Inv(me, peer) && me.s.nextPn + |FlushControl(me.s).1| <= U64
    ensures Inv(Flushed(me, FlushControl(me.s)), peer)
  {
    var m := if me.s.ack.pending then DoAck(me) else me;
    if me.s.ack.pending { AckStep(me, peer); }
    if m.s.pendingMaxData.Some? { MaxDataStep(m, peer); }
    ControlIs(me);
  }

  // The control packets one by one.
  lemma ControlIs(me: Party)
    ensures var m := if me.s.ack.pending then DoAck(me) else me;
      Flushed(me, FlushControl(me.s)) == if m.s.pendingMaxData.Some? then DoMaxData(m) else m
  {
    FlushedNothing(me);
    if me.s.ack.pending {
      var (t, p) := me.s.FlushAck();
      if t.pendingMaxData.Some? {
        var (u, q) := t.FlushMaxData();
        assert me.log + [p] + [q] == me.log + ([p] + [q]);
      } else { assert [p] + [] == [p]; }
    }
  }

  // The whole flush keeps the two-party invariant.
  lemma FlushAllInv(me: Party, peer: Party, sids: seq<nat>, now: nat)
    requires Inv(me, peer) && me.s.nextPn + |FlushAll(me.s, sids, now).1| <= U64
    ensures Inv(Flushed(me, FlushAll(me.s, sids, now)), peer)
  {
    var a := FlushStreams(me.s, sids, now);
    FlushStreamsCount(me.s, sids, now);
    FlushStreamsInv(me, peer, sids, now);
    FlushControlInv(Flushed(me, a), peer);
    FlushedTwice(me, a, FlushControl(a.0));
  }
}
