// What each action of a party does to the parts of its state.
module Effects {
  import opened Bytes
  import opened Session
  import opened TwoParty
  import Ack = AckRanges
  import Arq
  import Replay

  // An action of the application, or the hand-over of congestion feedback.
  predicate Local(a: Action) { a.Open? || a.Write? || a.Finish? || a.Read? || a.DrainCc? }

  // The action numbers a data packet.
  predicate CutsData(me: Party, a: Action) {
    me.s.nextPn < U64 && ((a.FlushSegment? && me.s.HasSegment(a.sid)) || (a.FlushFin? && me.s.HasFin(a.sid)))
  }

  predicate SendsAck(me: Party, a: Action) { me.s.nextPn < U64 && a.FlushAck? && me.s.ack.pending }

  predicate SendsControl(me: Party, a: Action) {
    me.s.nextPn < U64 && ((a.FlushMaxData? && me.s.pendingMaxData.Some?) || a.FlushOther?)
  }

  // The action takes in packet a.pn of the peer.
  predicate TakesIn(me: Party, peer: Party, a: Action) {
    a.Receive? && a.pn < |peer.log| && me.s.replay.Judge(a.pn) == Replay.Accept
  }

  // The trackers and the log are as before.
  ghost predicate SameTrackers(me: Party, v: Party) {
    v.s.arq == me.s.arq && v.s.ack == me.s.ack && v.s.replay == me.s.replay && v.log == me.log
  }

  lemma LocalKeeps(me: Party, peer: Party, a: Action, now: nat)
    requires me.s.ack.Valid() && |peer.log| <= U64 && Local(a)
    ensures var v := Act(me, peer, a, now);
      SameTrackers(me, v) && v.s.send.limit == me.s.send.limit
  {}

  // A flush, receive or retransmission that is not enabled changes nothing.
  lemma IdleKeeps(me: Party, peer: Party, a: Action, now: nat)
    requires me.s.ack.Valid() && |peer.log| <= U64 && !Local(a) && !a.Retransmit?
    requires !CutsData(me, a) && !SendsAck(me, a) && !SendsControl(me, a) && !TakesIn(me, peer, a)
    ensures Act(me, peer, a, now) == me
  {
    if a.Receive? && a.pn < |peer.log| { RejectedKeeps(me, a.pn, peer.log[a.pn], now, a.immediate); }
  }

  lemma RejectedKeeps(me: Party, pn: nat, p: Packet, now: nat, immediate: bool)
    requires me.s.ack.Valid() && pn < U64 && me.s.replay.Judge(pn) != Replay.Accept
    ensures DoDeliver(me, pn, p, now, immediate) == me
  {}

  // The data packet that a flush numbers.
  function Cut(me: Party, a: Action, now: nat): Packet
    requires CutsData(me, a)
  {
    if a.FlushSegment? then me.s.FlushSegment(a.sid, now).1 else me.s.FlushFin(a.sid, now).1
  }

  lemma CutEffect(me: Party, peer: Party, a: Action, now: nat)
    requires me.s.ack.Valid() && |peer.log| <= U64 && CutsData(me, a)
    ensures var v, q := Act(me, peer, a, now), Cut(me, a, now);
      && q.Data? && v.log == me.log + [q] && v.s.arq == me.s.arq.OnSent(me.s.nextPn, q, q.WireSize(), now)
      && v.s.ack == me.s.ack && v.s.replay == me.s.replay && v.s.send == me.s.send
  {}

  lemma AckEffect(me: Party, peer: Party, a: Action, now: nat)
    requires me.s.ack.Valid() && |peer.log| <= U64 && SendsAck(me, a)
    ensures var v := Act(me, peer, a, now);
      && v.log == me.log + [Packet.Ack(Ack.Runs(me.s.ack.received))]
      && v.s.ack == me.s.ack.(pending := false)
      && v.s.arq == me.s.arq && v.s.replay == me.s.replay && v.s.send == me.s.send
  {}

  lemma ControlEffect(me: Party, peer: Party, a: Action, now: nat)
    requires me.s.ack.Valid() && |peer.log| <= U64 && SendsControl(me, a)
    ensures var v := Act(me, peer, a, now);
      && |v.log| == |me.log| + 1 && me.log <= v.log && !v.log[|me.log|].Data? && !v.log[|me.log|].Ack?
      && v.s.arq == me.s.arq && v.s.ack == me.s.ack && v.s.replay == me.s.replay && v.s.send == me.s.send
  {}

  lemma RetransmitEffect(me: Party, peer: Party, now: nat)
    requires me.s.ack.Valid() && |peer.log| <= U64
    ensures var v := Act(me, peer, Action.Retransmit, now);
      && v.s.arq == me.s.arq.DrainExpired(now).0 && v.log == me.log
      && v.s.ack == me.s.ack && v.s.replay == me.s.replay && v.s.send == me.s.send
  {}

  // The tracker after a packet was taken in.
  function ArqAfter(s: Session, p: Packet, now: nat): Arq.ArqState<Packet> {
    if p.Ack? then s.arq.AckRanges(p.ranges, now).0 else s.arq
  }

  // The limit after a packet was taken in.
  function LimitAfter(s: Session, p: Packet): nat {
    if p.MaxData? && p.limit > s.send.limit then p.limit else s.send.limit
  }

  // What taking in packet pn does to the trackers.
  ghost predicate TookIn(s: Session, t: Session, pn: nat, p: Packet, now: nat)
    requires s.ack.Valid() && pn < U64
  {
    && t.replay == s.replay.Commit(pn) && t.ack == s.ack.OnReceived(pn, p.AckEliciting(), now)
    && t.arq == ArqAfter(s, p, now) && t.send.limit == LimitAfter(s, p)
  }

  lemma TakeEffect(s: Session, pn: nat, p: Packet, now: nat)
    requires s.ack.Valid() && pn < U64 && s.replay.Judge(pn) == Replay.Accept
    ensures TookIn(s, s.Receive(pn, p, now).0, pn, p, now)
  {}

  lemma DeliverEffect(me: Party, peer: Party, a: Action, now: nat)
    requires me.s.ack.Valid() && |peer.log| <= U64 && TakesIn(me, peer, a)
    ensures var v := Act(me, peer, a, now);
      && TookIn(me.s, v.s, a.pn, peer.log[a.pn], now)
      && (v.log == me.log || (|v.log| == |me.log| + 1 && me.log <= v.log && v.log[|me.log|].MaxData?))
  {
    hide Session.Receive, ArqAfter, LimitAfter;
    TakeEffect(me.s, a.pn, peer.log[a.pn], now);
  }

  lemma LogGrows(me: Party, peer: Party, a: Action, now: nat)
    requires me.s.ack.Valid() && |peer.log| <= U64
    ensures me.log <= Act(me, peer, a, now).log
  {}

  // What the invariant says about one side.
  lemma InvFacts(me: Party, peer: Party)
    requires Inv(me, peer)
    ensures me.s.ack.Valid() && |peer.log| <= U64 && me.s.nextPn == |me.log| && ArqSound(me.s.arq.entries, me.log)
    ensures Sent(me.s.replay.accepted, peer.log)
  {}
}
