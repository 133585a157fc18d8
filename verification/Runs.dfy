// What holds in every reachable state of two sessions.
module Runs {
  import opened Options
  import opened Bytes
  import opened Stream
  import opened Session
  import opened TwoParty
  import Arq
  import Replay

  datatype Step = Step(byClient: bool, action: Action, now: nat)

  datatype World = World(client: Party, server: Party)

  function NewParty(parity: nat, maxStreams: nat): Party { Party(NewSession(parity, maxStreams), [], map[], map[], 0) }

  // The client opens odd stream ids, the server even ones.
  function Start(c: nat, s: nat): World { World(NewParty(1, c), NewParty(0, s)) }

  lemma NewGood(parity: nat, m: nat)
    requires parity < 2
    ensures Good(NewParty(parity, m))
  {
    NothingBuffered(map[], U32);
  }

  lemma {:induction false} NothingBuffered(streams: map<nat, StreamState>, n: nat)
    requires streams == map[]
    ensures Buffered(streams, n) == 0
  {
    if n > 0 { NothingBuffered(streams, n - 1); }
  }

  lemma StartInv(c: nat, s: nat)
    ensures Inv(Start(c, s).client, Start(c, s).server)
  {
    NewGood(1, c);
    NewGood(0, s);
  }

  // What an action needs: 64-bit packet numbers and a sound list of received ones. Every run has both.
  ghost predicate Ready(me: Party, peer: Party) { me.s.ack.Valid() && |peer.log| <= U64 }

  ghost function Next(w: World, t: Step): World {
    if t.byClient then
      if Ready(w.client, w.server) then w.(client := Act(w.client, w.server, t.action, t.now)) else w
    else
      if Ready(w.server, w.client) then w.(server := Act(w.server, w.client, t.action, t.now)) else w
  }

  lemma NextInv(w: World, t: Step)
    requires Inv(w.client, w.server)
    ensures Inv(Next(w, t).client, Next(w, t).server)
  {
    if t.byClient {
      ActStep(w.client, w.server, t.action, t.now);
    } else {
      ActStep(w.server, w.client, t.action, t.now);
    }
  }

  // A run: the worlds passed through, one step between each two.
  datatype Trace = Trace(worlds: seq<World>, steps: seq<Step>)

  ghost predicate Moves(w: World, v: World, t: Step) { v == Next(w, t) }

  ghost predicate IsRun(r: Trace, c: nat, s: nat) {
    && |r.worlds| == |r.steps| + 1 && r.worlds[0] == Start(c, s)
    && (forall i {:trigger r.steps[i]} | 0 <= i < |r.steps| :: Moves(r.worlds[i], r.worlds[i + 1], r.steps[i]))
  }

  lemma StepOf(r: Trace, c: nat, s: nat, i: nat)
    requires IsRun(r, c, s) && i < |r.steps|
    ensures Moves(r.worlds[i], r.worlds[i + 1], r.steps[i])
  {}

  lemma MoveInv(w: World, v: World, t: Step)
    requires Inv(w.client, w.server) && Moves(w, v, t)
    ensures Inv(v.client, v.server)
  {
    NextInv(w, t);
  }

  lemma StepInv(r: Trace, c: nat, s: nat, i: nat)
    requires IsRun(r, c, s) && i + 1 < |r.worlds| && Inv(r.worlds[i].client, r.worlds[i].server)
    ensures Inv(r.worlds[i + 1].client, r.worlds[i + 1].server)
  {
    StepOf(r, c, s, i);
    MoveInv(r.worlds[i], r.worlds[i + 1], r.steps[i]);
  }

  lemma FirstInv(r: Trace, c: nat, s: nat)
    requires IsRun(r, c, s)
    ensures Inv(r.worlds[0].client, r.worlds[0].server)
  {
    StartInv(c, s);
  }

  // What holds of the first world and is kept from each world to the next holds of all.
  lemma {:induction false} Along(holds: World -> bool, worlds: seq<World>, n: nat)
    requires n < |worlds| && holds(worlds[0])
    requires forall i | 0 <= i < |worlds| - 1 :: holds(worlds[i]) ==> holds(worlds[i + 1])
    ensures holds(worlds[n])
  {
    if n > 0 { Along(holds, worlds, n - 1); }
  }

  ghost function Invariant(): World -> bool { (w: World) => Inv(w.client, w.server) }

  // The invariant holds in every world of every run.
  lemma RunInv(r: Trace, c: nat, s: nat, n: nat)
    requires IsRun(r, c, s) && n < |r.worlds|
    ensures Inv(r.worlds[n].client, r.worlds[n].server)
  {
    FirstInv(r, c, s);
    forall i | 0 <= i < |r.worlds| - 1 ensures Invariant()(r.worlds[i]) ==> Invariant()(r.worlds[i + 1]) {
      if Invariant()(r.worlds[i]) { StepInv(r, c, s, i); }
    }
    Along(Invariant(), r.worlds, n);
  }

  // ---- What every run guarantees, in either direction ----

  function Of(w: World, client: bool): Party { if client then w.client else w.server }

  lemma InvOf(w: World, client: bool)
    requires Inv(w.client, w.server)
    ensures Inv(Of(w, client), Of(w, !client))
  {}

  // The bytes read on a stream are a prefix of the bytes written on it.
  lemma PrefixSafety(r: Trace, c: nat, s: nat, n: nat, fromClient: bool, sid: nat)
    requires IsRun(r, c, s) && n < |r.worlds|
    ensures var w := r.worlds[n]; At(Of(w, !fromClient).got, sid) <= At(Of(w, fromClient).written, sid)
  {
    RunInv(r, c, s, n);
    var w := r.worlds[n];
    PrefixOf(Of(w, !fromClient), Of(w, fromClient), sid);
  }

  lemma PrefixOf(rx: Party, tx: Party, sid: nat)
    requires Inv(rx, tx)
    ensures At(rx.got, sid) <= At(tx.written, sid)
  {
    if sid in rx.s.streams { StreamFacts(rx, tx, sid);
  } else {
    NeverRead(rx, tx, sid); }
  }

  lemma NeverRead(rx: Party, tx: Party, sid: nat)
    requires Inv(rx, tx) && sid !in rx.s.streams
    ensures At(rx.got, sid) == []
  {}

  // No read runs out of the range of a buffered segment.
  lemma ReadsInRange(r: Trace, c: nat, s: nat, n: nat, client: bool, sid: nat, maxBytes: nat)
    requires IsRun(r, c, s) && n < |r.worlds|
    ensures Of(r.worlds[n], client).s.ReadStream(sid, maxBytes).Some?
  {
    RunInv(r, c, s, n);
    var w := r.worlds[n];
    ReadStep(Of(w, client), Of(w, !client), sid, maxBytes);
  }

  // A data packet of the peer that the replay window lets through is refused only by the stream cap:
  // never by a receive limit, never for its parity.
  lemma FrameAccepted(r: Trace, c: nat, s: nat, n: nat, fromClient: bool, pn: nat, now: nat)
    requires IsRun(r, c, s) && n < |r.worlds|
    requires pn < |Of(r.worlds[n], fromClient).log| && Of(r.worlds[n], fromClient).log[pn].Data?
    requires Of(r.worlds[n], !fromClient).s.replay.Judge(pn) == Replay.Accept
    ensures var w := r.worlds[n];
      var tx, rx := Of(w, fromClient), Of(w, !fromClient);
      && rx.s.ack.Valid() && pn < U64
      && rx.s.Receive(pn, tx.log[pn], now).1 ==
         Some(if TooMany(rx.s, tx.log[pn].frame.sid) then Err(ProtocolViolation) else Ok(()))
  {
    RunInv(r, c, s, n);
    var w := r.worlds[n];
    FrameOutcome(Of(w, !fromClient), Of(w, fromClient), pn, now);
  }

  // Judged on the receiver as it stands: recording the number does not change the outcome.
  lemma FrameOutcome(rx: Party, tx: Party, pn: nat, now: nat)
    requires Inv(rx, tx) && pn < |tx.log| && tx.log[pn].Data? && rx.s.replay.Judge(pn) == Replay.Accept
    ensures rx.s.Receive(pn, tx.log[pn], now).1 ==
      Some(if TooMany(rx.s, tx.log[pn].frame.sid) then Err(ProtocolViolation) else Ok(()))
  {
    FrameReaches(rx, tx, pn);
    OutcomeOf(rx, pn, tx.log[pn], now);
  }

  lemma FrameReaches(rx: Party, tx: Party, pn: nat)
    requires Inv(rx, tx) && pn < |tx.log| && tx.log[pn].Data?
    ensures var f := tx.log[pn].frame;
      && (f.sid in rx.s.streams || f.sid % 2 != rx.s.parity)
      && StreamOr(rx.s.streams, f.sid).Receive(f.Segment(), f.fin).1.Ok?
  {
    var f := tx.log[pn].frame;
    assert FrameOk(f, tx.s.streams, tx.written);
    ReceiverFacts(rx, tx, f.sid);
    FrameReceived(rx, tx, f, pn);
  }

  lemma OutcomeOf(rx: Party, pn: nat, p: Packet, now: nat)
    requires rx.s.ack.Valid() && pn < U64 && p.Data? && rx.s.replay.Judge(pn) == Replay.Accept
    requires p.frame.sid in rx.s.streams || p.frame.sid % 2 != rx.s.parity
    requires StreamOr(rx.s.streams, p.frame.sid).Receive(p.frame.Segment(), p.frame.fin).1.Ok?
    ensures rx.s.Receive(pn, p, now).1 == Some(if TooMany(rx.s, p.frame.sid) then Err(ProtocolViolation) else Ok(()))
  {}

  // A data packet is in flight until the peer has authenticated and recorded its number,
  // and in-flight plus acknowledged bytes are exactly the bytes sent.
  lemma NothingForgotten(r: Trace, c: nat, s: nat, n: nat, fromClient: bool)
    requires IsRun(r, c, s) && n < |r.worlds|
    ensures var w := r.worlds[n];
      var tx, rx := Of(w, fromClient), Of(w, !fromClient);
      && (forall pn: nat | pn < |tx.log| && tx.log[pn].Data? && !Arq.HasKey(tx.s.arq.entries, pn) ::
            pn in rx.s.replay.accepted)
      && tx.drained + tx.s.ccBytes + Arq.TotalSize(tx.s.arq.entries) == WireSum(tx.log)
  {
    RunInv(r, c, s, n);
    var w := r.worlds[n];
    InFlightOrAccepted(Of(w, fromClient), Of(w, !fromClient));
  }

  lemma InFlightOrAccepted(tx: Party, rx: Party)
    requires Inv(tx, rx)
    ensures forall pn: nat | pn < |tx.log| && tx.log[pn].Data? && !Arq.HasKey(tx.s.arq.entries, pn) ::
      pn in rx.s.replay.accepted
    ensures tx.drained + tx.s.ccBytes + Arq.TotalSize(tx.s.arq.entries) == WireSum(tx.log)
  {}

  // What is retransmitted under a number is the very packet sent under it.
  lemma RetransmitsTheOriginal(r: Trace, c: nat, s: nat, n: nat, client: bool, now: nat, x: (nat, Packet))
    requires IsRun(r, c, s) && n < |r.worlds|
    requires x in Of(r.worlds[n], client).s.arq.DrainExpired(now).1
    ensures var me := Of(r.worlds[n], client); x.0 < |me.log| && me.log[x.0] == x.1 && x.1.Data?
  {
    RunInv(r, c, s, n);
    var me := Of(r.worlds[n], client);
    var e := ExpiredEntry(me.s.arq.entries, now, me.s.arq.rtt.rto, x);
    assert EntryOk(e, me.log);
  }

  lemma {:induction false} ExpiredEntry(e: seq<Arq.Entry<Packet>>, now: nat, rto: nat, x: (nat, Packet))
    returns (y: Arq.Entry<Packet>)
    requires x in Arq.ExpiredOf(e, now, rto)
    ensures y in e && x == (y.0, y.1.data)
  {
    if Arq.Expired(e[0], now, rto) && x == (e[0].0, e[0].1.data) {
      y := e[0];
    } else {
      y := ExpiredEntry(e[1..], now, rto, x);
    }
  }

  // Connection credit: bytes received <= consumed by the sender <= its limit <= the receiver's limit.
  lemma CreditChain(r: Trace, c: nat, s: nat, n: nat, fromClient: bool)
    requires IsRun(r, c, s) && n < |r.worlds|
    ensures var w := r.worlds[n];
      var tx, rx := Of(w, fromClient), Of(w, !fromClient);
      rx.s.recvConsumed <= tx.s.send.consumed <= tx.s.send.limit <= rx.s.recv.limit
  {
    RunInv(r, c, s, n);
    var w := r.worlds[n];
    CreditOf(Of(w, fromClient), Of(w, !fromClient));
  }

  lemma CreditOf(tx: Party, rx: Party)
    requires Inv(tx, rx)
    ensures rx.s.recvConsumed <= tx.s.send.consumed <= tx.s.send.limit <= rx.s.recv.limit
  {
    PayloadBound(tx.log, rx.s.replay.accepted);
  }

  // A stream that reports itself finished was finished by its writer and read to its last byte.
  lemma FinishedMeansDelivered(r: Trace, c: nat, s: nat, n: nat, fromClient: bool, sid: nat)
    requires IsRun(r, c, s) && n < |r.worlds|
    requires sid in Of(r.worlds[n], !fromClient).s.streams
    requires Of(r.worlds[n], !fromClient).s.streams[sid].IsRecvFinished()
    ensures var w := r.worlds[n];
      var tx, rx := Of(w, fromClient), Of(w, !fromClient);
      sid in tx.s.streams && tx.s.streams[sid].finSent && At(rx.got, sid) == At(tx.written, sid)
  {
    RunInv(r, c, s, n);
    var w := r.worlds[n];
    FinishedStream(Of(w, !fromClient), Of(w, fromClient), sid);
  }

  lemma FinishedStream(rx: Party, tx: Party, sid: nat)
    requires Inv(rx, tx) && sid in rx.s.streams && rx.s.streams[sid].IsRecvFinished()
    ensures sid in tx.s.streams && tx.s.streams[sid].finSent && At(rx.got, sid) == At(tx.written, sid)
  {
    StreamFacts(rx, tx, sid);
    ReadToTheEnd(rx.s.streams[sid], sid, At(rx.got, sid), tx.s.streams, tx.written, tx.log);
  }

  lemma ReadToTheEnd(st: StreamState, sid: nat, got: seq<byte>, tx: map<nat, StreamState>,
          written: map<nat, seq<byte>>, log: seq<Packet>)
    requires StreamLink(st, sid, got, At(written, sid), log) && FinOk(st, sid, tx, written) && st.IsRecvFinished()
    ensures sid in tx && tx[sid].finSent && got == At(written, sid)
  {
    assert At(written, sid)[..|At(written, sid)|] == At(written, sid);
  }

  // ---- Grants are flushed at once ----

  const HALF: nat := DEFAULT_WINDOW / 2

  // The granted limit is half a window above what was received, until packet numbers run out.
  ghost predicate Granted(s: Session) {
    || s.nextPn >= U64
    || (s.pendingMaxData.None? && s.recv.limit >= DEFAULT_WINDOW && s.recv.limit >= s.recvConsumed + HALF)
  }

  ghost predicate AllImmediate(steps: seq<Step>) {
    forall i {:trigger steps[i]} | 0 <= i < |steps| && steps[i].action.Receive? :: steps[i].action.immediate
  }

  // The fields Granted depends on are the same, or grew harmlessly.
  ghost predicate SameGrant(a: Session, b: Session) {
    b.nextPn >= a.nextPn && b.pendingMaxData == a.pendingMaxData && b.recv == a.recv && b.recvConsumed == a.recvConsumed
  }

  lemma QuietActs(me: Party, peer: Party, a: Action, now: nat)
    requires me.s.ack.Valid() && |peer.log| <= U64 && !a.Receive? && !a.FlushMaxData?
    ensures SameGrant(me.s, Act(me, peer, a, now).s)
  {}

  // A frame handled without error leaves room, or asks for more.
  ghost predicate Asks(a: Session, b: Session) {
    && b.recv == a.recv && b.nextPn == a.nextPn
    && (b.pendingMaxData.None? ==> b.recv.limit >= b.recvConsumed + HALF)
    && (b.pendingMaxData.Some? ==> b.pendingMaxData.value == b.recvConsumed + DEFAULT_WINDOW)
  }

  lemma HandleAsks(s: Session, f: DataFrame)
    requires s.pendingMaxData.None? && s.recv.limit >= DEFAULT_WINDOW && s.HandleData(f).1.Ok?
    ensures Asks(s, s.HandleData(f).0)
  {}

  lemma ReceiveAsks(s: Session, pn: nat, p: Packet, now: nat)
    requires s.ack.Valid() && pn < U64 && s.pendingMaxData.None? && s.recv.limit >= DEFAULT_WINDOW
    requires s.recv.limit >= s.recvConsumed + HALF
    ensures s.Receive(pn, p, now).1 == Some(Ok(())) ==> Asks(s, s.Receive(pn, p, now).0)
    ensures s.Receive(pn, p, now).1.None? ==> s.Receive(pn, p, now).0 == s
    ensures s.Receive(pn, p, now).1 == Some(Err(ProtocolViolation)) && p.Data? && TooMany(s, p.frame.sid) ==>
      SameGrant(s, s.Receive(pn, p, now).0)
  {
    if s.replay.Judge(pn) == Replay.Accept && p.Data? {
      var t := s.(replay := s.replay.Commit(pn), ack := s.ack.OnReceived(pn, p.AckEliciting(), now));
      if t.HandleData(p.frame).1.Ok? { HandleAsks(t, p.frame); }
    }
  }

  lemma DeliverGrant(me: Party, peer: Party, pn: nat, now: nat)
    requires Inv(me, peer) && pn < |peer.log| && Granted(me.s)
    ensures Granted(DoDeliver(me, pn, peer.log[pn], now, true).s)
  {
    var p := peer.log[pn];
    if me.s.nextPn < U64 {
      if p.Data? && me.s.replay.Judge(pn) == Replay.Accept { FrameOutcome(me, peer, pn, now); }
      DeliverOutcome(me, pn, p, now);
    } else {
      ReceiveKeepsPn(me.s, pn, p, now);
    }
  }

  lemma ReceiveKeepsPn(s: Session, pn: nat, p: Packet, now: nat)
    requires s.ack.Valid() && pn < U64
    ensures s.Receive(pn, p, now).0.nextPn == s.nextPn
  {}

  lemma DeliverOutcome(me: Party, pn: nat, p: Packet, now: nat)
    requires me.s.ack.Valid() && pn < U64 && Granted(me.s) && me.s.nextPn < U64
    requires p.Data? && me.s.replay.Judge(pn) == Replay.Accept ==>
      me.s.Receive(pn, p, now).1 == Some(if TooMany(me.s, p.frame.sid) then Err(ProtocolViolation) else Ok(()))
    ensures Granted(DoDeliver(me, pn, p, now, true).s)
  {
    ReceiveAsks(me.s, pn, p, now);
  }

  lemma DeliverActGrant(me: Party, peer: Party, pn: nat, now: nat)
    requires Inv(me, peer) && Granted(me.s)
    ensures Granted(Act(me, peer, Action.Receive(pn, true), now).s)
  {
    hide Inv, Granted;
    if pn < |peer.log| { DeliverGrant(me, peer, pn, now); }
  }

  // A grant is never left for a later flush.
  lemma FlushActGrant(me: Party, peer: Party, now: nat)
    requires me.s.ack.Valid() && |peer.log| <= U64 && Granted(me.s)
    ensures Granted(Act(me, peer, Action.FlushMaxData, now).s)
  {}

  lemma QuietActGrant(me: Party, peer: Party, a: Action, now: nat)
    requires me.s.ack.Valid() && |peer.log| <= U64 && !a.Receive? && !a.FlushMaxData? && Granted(me.s)
    ensures Granted(Act(me, peer, a, now).s)
  {
    hide Act;
    QuietActs(me, peer, a, now);
  }

  lemma ActGrant(me: Party, peer: Party, a: Action, now: nat)
    requires Inv(me, peer) && Granted(me.s) && (a.Receive? ==> a.immediate)
    ensures Granted(Act(me, peer, a, now).s)
  {
    if a.Receive? {
      DeliverActGrant(me, peer, a.pn, now);
    } else if a.FlushMaxData? {
      FlushActGrant(me, peer, now);
    } else {
      QuietActGrant(me, peer, a, now);
    }
  }

  lemma MoveGrant(w: World, v: World, t: Step, client: bool)
    requires Inv(w.client, w.server) && Moves(w, v, t) && (t.action.Receive? ==> t.action.immediate)
    requires Granted(Of(w, client).s)
    ensures Granted(Of(v, client).s)
  {
    if t.byClient == client { ActGrant(Of(w, client), Of(w, !client), t.action, t.now); }
  }

  lemma StartGrant(c: nat, s: nat, client: bool)
    ensures Granted(Of(Start(c, s), client).s)
  {}

  lemma StepGrant(r: Trace, c: nat, s: nat, i: nat, client: bool)
    requires IsRun(r, c, s) && i + 1 < |r.worlds| && AllImmediate(r.steps) && Granted(Of(r.worlds[i], client).s)
    ensures Granted(Of(r.worlds[i + 1], client).s)
  {
    RunInv(r, c, s, i);
    StepOf(r, c, s, i);
    MoveGrant(r.worlds[i], r.worlds[i + 1], r.steps[i], client);
  }

  // The receiver never lets its grant fall within half a window of what it has received.
  lemma {:induction false} GrantStaysAhead(r: Trace, c: nat, s: nat, n: nat, client: bool)
    requires IsRun(r, c, s) && n < |r.worlds| && AllImmediate(r.steps)
    ensures Granted(Of(r.worlds[n], client).s)
  {
    if n == 0 {
      StartGrant(c, s, client);
    } else {
      GrantStaysAhead(r, c, s, n - 1, client);
      StepGrant(r, c, s, n - 1, client);
    }
  }
}
