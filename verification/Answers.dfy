// What acknowledgements do in every run of two sessions: who is answered, who is sent again, and when.
module Answers {
  import opened Bytes
  import opened Session
  import opened TwoParty
  import opened Runs
  import opened Effects
  import Ack = AckRanges
  import Arq
  import ArqRuns
  import Replay

  // ---- One acknowledgement ----

  // An accepted ACK packet takes exactly the covered packets out of the in-flight table, and their bytes become
  // congestion feedback.
  lemma AckTakesOut(s: Session, pn: nat, ranges: seq<Ack.Range>, now: nat)
    requires s.ack.Valid() && pn < U64 && s.replay.Judge(pn) == Replay.Accept && Arq.Ascending(s.arq.entries)
    ensures var t := s.Receive(pn, Packet.Ack(ranges), now).0;
      && (forall x :: x in t.arq.entries <==> x in s.arq.entries && !Arq.Inside(ranges, x.0))
      && t.ccBytes + Arq.TotalSize(t.arq.entries) == s.ccBytes + Arq.TotalSize(s.arq.entries)
  {
    Arq.AckRangesRemove(s.arq, ranges, now);
  }

  // ---- Who is answered ----

  // An accepted ACK packet of the peer covers pn.
  ghost predicate Answered(accepted: set<nat>, log: seq<Packet>, pn: nat) {
    exists q | q in accepted :: q < |log| && log[q].Ack? && Arq.Inside(log[q].ranges, pn)
  }

  // A data packet is in flight exactly until it is answered.
  ghost predicate InFlightUntilAnswered(me: Party, peer: Party) {
    forall pn: nat | pn < |me.log| && me.log[pn].Data? ::
      Arq.HasKey(me.s.arq.entries, pn) <==> !Answered(me.s.replay.accepted, peer.log, pn)
  }

  lemma AnsweredWasSent(me: Party, peer: Party, pn: nat)
    requires Inv(me, peer) && Answered(me.s.replay.accepted, peer.log, pn)
    ensures pn < |me.log|
  {
    var q :| q in me.s.replay.accepted && q < |peer.log| && peer.log[q].Ack? && Arq.Inside(peer.log[q].ranges, pn);
    assert pn in peer.s.replay.accepted;
  }

  // A packet that was not numbered yet is not answered.
  lemma NotYetAnswered(me: Party, peer: Party, pn: nat)
    requires Inv(me, peer) && pn >= |me.log|
    ensures !Answered(me.s.replay.accepted, peer.log, pn)
  {
    if Answered(me.s.replay.accepted, peer.log, pn) { AnsweredWasSent(me, peer, pn); }
  }

  // What the peer numbers later was not accepted before.
  lemma LaterPackets(accepted: set<nat>, log: seq<Packet>, longer: seq<Packet>, pn: nat)
    requires Sent(accepted, log) && log <= longer
    ensures Answered(accepted, longer, pn) <==> Answered(accepted, log, pn)
  {
    if Answered(accepted, log, pn) {
      var q :| q in accepted && q < |log| && log[q].Ack? && Arq.Inside(log[q].ranges, pn);
      assert longer[q] == log[q];
    }
    if Answered(accepted, longer, pn) {
      var q :| q in accepted && q < |longer| && longer[q].Ack? && Arq.Inside(longer[q].ranges, pn);
      assert longer[q] == log[q];
    }
  }

  // One more accepted packet answers what it covers, if it is an ACK.
  lemma OneMoreAccepted(accepted: set<nat>, log: seq<Packet>, q: nat, pn: nat)
    requires q < |log|
    ensures Answered(accepted + {q}, log, pn) <==>
      Answered(accepted, log, pn) || (log[q].Ack? && Arq.Inside(log[q].ranges, pn))
  {
    if Answered(accepted, log, pn) {
      var k :| k in accepted && k < |log| && log[k].Ack? && Arq.Inside(log[k].ranges, pn);
      assert k in accepted + {q};
    }
    if log[q].Ack? && Arq.Inside(log[q].ranges, pn) { assert q in accepted + {q}; }
  }

  lemma KeysWithout(e: seq<Arq.Entry<Packet>>, e': seq<Arq.Entry<Packet>>, ranges: seq<Ack.Range>, pn: nat)
    requires forall x :: x in e' <==> x in e && !Arq.Inside(ranges, x.0)
    ensures Arq.HasKey(e', pn) <==> Arq.HasKey(e, pn) && !Arq.Inside(ranges, pn)
  {
    if Arq.HasKey(e', pn) {
      var i :| 0 <= i < |e'| && e'[i].0 == pn;
      assert e'[i] in e' && e'[i] in e;
      MemberKey(e, e'[i]);
    }
    if Arq.HasKey(e, pn) && !Arq.Inside(ranges, pn) {
      var i :| 0 <= i < |e| && e[i].0 == pn;
      assert e[i] in e && e[i] in e';
      MemberKey(e', e[i]);
    }
  }

  lemma ArqKeys(s: Session, p: Packet, now: nat, pn: nat)
    requires Arq.Ascending(s.arq.entries)
    ensures Arq.HasKey(ArqAfter(s, p, now).entries, pn) <==>
      Arq.HasKey(s.arq.entries, pn) && !(p.Ack? && Arq.Inside(p.ranges, pn))
  {
    if p.Ack? {
      Arq.AckRangesRemove(s.arq, p.ranges, now);
      KeysWithout(s.arq.entries, ArqAfter(s, p, now).entries, p.ranges, pn);
    }
  }

  // The log grew by at most one packet that is not data.
  ghost predicate GrowsWithoutData(log: seq<Packet>, longer: seq<Packet>) {
    log <= longer && |longer| <= |log| + 1 && (|longer| == |log| + 1 ==> !longer[|log|].Data?)
  }

  lemma TakeAnswers(me: Party, peer: Party, a: Action, now: nat)
    requires Inv(me, peer) && TakesIn(me, peer, a) && InFlightUntilAnswered(me, peer)
    ensures InFlightUntilAnswered(Act(me, peer, a, now), peer)
  {
    hide Inv, Act, Answered, ArqAfter;
    InvFacts(me, peer);
    DeliverEffect(me, peer, a, now);
    var v, p := Act(me, peer, a, now), peer.log[a.pn];
    forall pn: nat | pn < |v.log| && v.log[pn].Data?
      ensures Arq.HasKey(v.s.arq.entries, pn) <==> !Answered(v.s.replay.accepted, peer.log, pn)
    {
      assert pn < |me.log| && me.log[pn] == v.log[pn];
      OneMoreAccepted(me.s.replay.accepted, peer.log, a.pn, pn);
      ArqKeys(me.s, p, now, pn);
    }
  }

  lemma InvOther(me: Party, peer: Party)
    requires Inv(me, peer)
    ensures Inv(peer, me)
  {}

  lemma CutAnswers(me: Party, peer: Party, a: Action, now: nat)
    requires Inv(me, peer) && CutsData(me, a) && InFlightUntilAnswered(me, peer)
    ensures InFlightUntilAnswered(Act(me, peer, a, now), peer)
  {
    hide Inv, Act, Answered, Cut;
    InvFacts(me, peer);
    CutEffect(me, peer, a, now);
    var v, q := Act(me, peer, a, now), Cut(me, a, now);
    ArqSoundSent(me.s.arq.entries, me.log, q, now);
    KeyBelow(me.s.arq.entries, me.log);
    NotYetAnswered(me, peer, |me.log|);
    forall pn: nat | pn < |v.log| && v.log[pn].Data?
      ensures Arq.HasKey(v.s.arq.entries, pn) <==> !Answered(v.s.replay.accepted, peer.log, pn)
    {
      PutKeys(me.s.arq.entries, |me.log|, Arq.InFlight(q, q.WireSize(), now, 0), pn);
      if pn < |me.log| { assert me.log[pn] == v.log[pn]; }
    }
  }

  lemma PutKeys(e: seq<Arq.Entry<Packet>>, n: nat, f: Arq.InFlight<Packet>, pn: nat)
    requires Arq.Ascending(e)
    ensures Arq.HasKey(Arq.Put(e, n, f), pn) <==> Arq.HasKey(e, pn) || pn == n
  {
    Arq.PutFacts(e, n, f);
    var t := Arq.Put(e, n, f);
    if Arq.HasKey(t, pn) {
      var i :| 0 <= i < |t| && t[i].0 == pn;
      assert t[i] in t;
      if t[i] in e { MemberKey(e, t[i]); }
    }
    if Arq.HasKey(e, pn) && pn != n {
      var i :| 0 <= i < |e| && e[i].0 == pn;
      assert e[i] in e && e[i] in t;
      MemberKey(t, e[i]);
    }
    if pn == n { MemberKey(t, (n, f)); }
  }

  lemma StampKeys(e: seq<Arq.Entry<Packet>>, now: nat, rto: nat, pn: nat)
    ensures Arq.HasKey(Arq.StampAll(e, now, rto), pn) <==> Arq.HasKey(e, pn)
  {
    Arq.StampKeeps(e, now, rto);
    var t := Arq.StampAll(e, now, rto);
    if Arq.HasKey(e, pn) {
      var i :| 0 <= i < |e| && e[i].0 == pn;
      assert t[i].0 == pn;
    }
    if Arq.HasKey(t, pn) {
      var i :| 0 <= i < |t| && t[i].0 == pn;
      assert e[i].0 == pn;
    }
  }

  // The same keys, the same accepted numbers, and no new data packet.
  lemma QuietAnswers(me: Party, v: Party, peer: Party)
    requires InFlightUntilAnswered(me, peer) && GrowsWithoutData(me.log, v.log) && v.s.replay == me.s.replay
    requires forall pn: nat :: Arq.HasKey(v.s.arq.entries, pn) <==> Arq.HasKey(me.s.arq.entries, pn)
    ensures InFlightUntilAnswered(v, peer)
  {
    forall pn: nat | pn < |v.log| && v.log[pn].Data?
      ensures Arq.HasKey(v.s.arq.entries, pn) <==> !Answered(v.s.replay.accepted, peer.log, pn)
    {
      assert me.log[pn] == v.log[pn];
    }
  }

  lemma RetransmitAnswers(me: Party, peer: Party, now: nat)
    requires Inv(me, peer) && InFlightUntilAnswered(me, peer)
    ensures InFlightUntilAnswered(Act(me, peer, Action.Retransmit, now), peer)
  {
    hide Inv, Act, InFlightUntilAnswered;
    InvFacts(me, peer);
    RetransmitEffect(me, peer, now);
    forall pn: nat
      ensures Arq.HasKey(Act(me, peer, Action.Retransmit, now).s.arq.entries, pn) <==>
        Arq.HasKey(me.s.arq.entries, pn)
    {
      StampKeys(me.s.arq.entries, now, me.s.arq.rtt.rto, pn);
    }
    QuietAnswers(me, Act(me, peer, Action.Retransmit, now), peer);
  }

  lemma ActAnswers(me: Party, peer: Party, a: Action, now: nat)
    requires Inv(me, peer) && InFlightUntilAnswered(me, peer)
    ensures InFlightUntilAnswered(Act(me, peer, a, now), peer)
  {
    hide Inv, Act, InFlightUntilAnswered;
    InvFacts(me, peer);
    if TakesIn(me, peer, a) {
      TakeAnswers(me, peer, a, now);
    } else if CutsData(me, a) {
      CutAnswers(me, peer, a, now);
    } else if a.Retransmit? {
      RetransmitAnswers(me, peer, now);
    } else {
      RestAnswers(me, peer, a, now);
    }
  }

  lemma RestAnswers(me: Party, peer: Party, a: Action, now: nat)
    requires me.s.ack.Valid() && |peer.log| <= U64 && InFlightUntilAnswered(me, peer)
    requires !TakesIn(me, peer, a) && !CutsData(me, a) && !a.Retransmit?
    ensures InFlightUntilAnswered(Act(me, peer, a, now), peer)
  {
    hide Act, InFlightUntilAnswered;
    if Local(a) { LocalKeeps(me, peer, a, now); }
    else if SendsAck(me, a) { AckEffect(me, peer, a, now); }
    else if SendsControl(me, a) { ControlEffect(me, peer, a, now); }
    else { IdleKeeps(me, peer, a, now); }
    QuietAnswers(me, Act(me, peer, a, now), peer);
  }

  // What the peer does changes nothing for the packets of this party.
  lemma PeerAnswers(me: Party, peer: Party, a: Action, now: nat)
    requires Inv(me, peer) && InFlightUntilAnswered(me, peer)
    ensures InFlightUntilAnswered(me, Act(peer, me, a, now))
  {
    hide Inv, Act, Answered;
    InvFacts(me, peer);
    InvOther(me, peer);
    InvFacts(peer, me);
    LogGrows(peer, me, a, now);
    forall pn: nat | pn < |me.log| && me.log[pn].Data?
      ensures Arq.HasKey(me.s.arq.entries, pn) <==>
        !Answered(me.s.replay.accepted, Act(peer, me, a, now).log, pn)
    {
      LaterPackets(me.s.replay.accepted, peer.log, Act(peer, me, a, now).log, pn);
    }
  }

  lemma MoveAnswers(w: World, v: World, t: Step, client: bool)
    requires Inv(w.client, w.server) && Moves(w, v, t) && InFlightUntilAnswered(Of(w, client), Of(w, !client))
    ensures InFlightUntilAnswered(Of(v, client), Of(v, !client))
  {
    hide Act, InFlightUntilAnswered;
    var me, peer := Of(w, client), Of(w, !client);
    if t.byClient == client { ActAnswers(me, peer, t.action, t.now); } else { PeerAnswers(me, peer, t.action, t.now); }
  }

  // In every run a data packet is out of the in-flight table exactly when its sender has accepted an ACK packet whose
  // ranges cover it.
  lemma {:induction false} AnsweredExactly(r: Trace, c: nat, s: nat, n: nat, client: bool)
    requires IsRun(r, c, s) && n < |r.worlds|
    ensures InFlightUntilAnswered(Of(r.worlds[n], client), Of(r.worlds[n], !client))
  {
    hide Moves, Inv, InFlightUntilAnswered;
    if n == 0 {
      StartAnswered(c, s, client);
    } else {
      AnsweredExactly(r, c, s, n - 1, client);
      RunInv(r, c, s, n - 1);
      StepOf(r, c, s, n - 1);
      MoveAnswers(r.worlds[n - 1], r.worlds[n], r.steps[n - 1], client);
    }
  }

  lemma StartAnswered(c: nat, s: nat, client: bool)
    ensures InFlightUntilAnswered(Of(Start(c, s), client), Of(Start(c, s), !client))
  {}

  // ---- Who is sent again, and when ----

  // The numbers whose packets this action puts on the wire.
  ghost function PutsOnWire(me: Party, a: Action, now: nat): set<nat> {
    if CutsData(me, a) then {me.s.nextPn}
    else if a.Retransmit? then ArqRuns.Numbers(me.s.arq.DrainExpired(now).1)
    else {}
  }

  // The time of the last step before world n that put packet pn of this party on the wire.
  ghost function LastSent(r: Trace, client: bool, pn: nat, n: nat): nat
    requires n <= |r.steps| && |r.worlds| == |r.steps| + 1
  {
    if n == 0 then 0
    else
      var t := r.steps[n - 1];
      if t.byClient == client && pn in PutsOnWire(Of(r.worlds[n - 1], client), t.action, t.now) then t.now
      else LastSent(r, client, pn, n - 1)
  }

  // An entry of b carries the time of this step if its packet was put on the wire, and otherwise its old one.
  ghost predicate StampedBy(b: seq<Arq.Entry<Packet>>, a: seq<Arq.Entry<Packet>>, out: set<nat>, now: nat) {
    forall y | y in b ::
      if y.0 in out then y.1.sentAt == now else exists x | x in a :: x.0 == y.0 && x.1.sentAt == y.1.sentAt
  }

  lemma SubsetStamped(b: seq<Arq.Entry<Packet>>, a: seq<Arq.Entry<Packet>>, now: nat)
    requires forall y | y in b :: y in a
    ensures StampedBy(b, a, {}, now)
  {}

  lemma CutStamped(me: Party, a: Action, q: Packet, now: nat)
    requires ArqSound(me.s.arq.entries, me.log) && me.s.nextPn == |me.log|
    ensures StampedBy(me.s.arq.OnSent(me.s.nextPn, q, q.WireSize(), now).entries, me.s.arq.entries, {me.s.nextPn}, now)
  {
    Arq.PutFacts(me.s.arq.entries, me.s.nextPn, Arq.InFlight(q, q.WireSize(), now, 0));
  }

  lemma DrainStamped(a: Arq.ArqState<Packet>, now: nat)
    requires Arq.Ascending(a.entries) && a.rtt.rto > 0
    ensures StampedBy(a.DrainExpired(now).0.entries, a.entries, ArqRuns.Numbers(a.DrainExpired(now).1), now)
  {
    ArqRuns.DrainExactly(a, now);
    var (b, out) := a.DrainExpired(now);
    forall y | y in b.entries
      ensures if y.0 in ArqRuns.Numbers(out) then y.1.sentAt == now
        else exists x | x in a.entries :: x.0 == y.0 && x.1.sentAt == y.1.sentAt
    {
      var i :| 0 <= i < |b.entries| && b.entries[i] == y;
      var x := a.entries[i];
      assert ArqRuns.Restamped(x, y, now, a.rtt.rto) && x in a.entries;
      ArqRuns.ReturnedIff(a, now, x);
    }
  }

  lemma {:induction false} RangeRto(a: Arq.ArqState<Packet>, start: nat, end: nat, now: nat)
    requires a.rtt.rto > 0
    ensures a.AckRange(start, end, now).0.rtt.rto > 0
    decreases end - start
  {
    if start < end { RangeRto(a.OnAck(start, now).0, start + 1, end, now); }
  }

  lemma {:induction false} RangesRto(a: Arq.ArqState<Packet>, ranges: seq<Ack.Range>, now: nat)
    requires a.rtt.rto > 0
    ensures a.AckRanges(ranges, now).0.rtt.rto > 0
    decreases |ranges|
  {
    if ranges != [] {
      RangeRto(a, ranges[0].0, ranges[0].1, now);
      RangesRto(a.AckRange(ranges[0].0, ranges[0].1, now).0, ranges[1..], now);
    }
  }

  // What one action does to the stamps.
  ghost predicate StampStep(me: Party, v: Party, out: set<nat>, now: nat) {
    v.s.arq.rtt.rto > 0 && StampedBy(v.s.arq.entries, me.s.arq.entries, out, now)
  }

  lemma TakeStamps(me: Party, peer: Party, a: Action, now: nat)
    requires Inv(me, peer) && TakesIn(me, peer, a) && me.s.arq.rtt.rto > 0
    ensures StampStep(me, Act(me, peer, a, now), {}, now)
  {
    hide Inv, Act;
    InvFacts(me, peer);
    DeliverEffect(me, peer, a, now);
    var p := peer.log[a.pn];
    if p.Ack? {
      Arq.AckRangesRemove(me.s.arq, p.ranges, now);
      RangesRto(me.s.arq, p.ranges, now);
    }
    SubsetStamped(ArqAfter(me.s, p, now).entries, me.s.arq.entries, now);
  }

  lemma RestStamps(me: Party, peer: Party, a: Action, now: nat)
    requires me.s.ack.Valid() && |peer.log| <= U64 && me.s.arq.rtt.rto > 0
    requires !TakesIn(me, peer, a) && !CutsData(me, a) && !a.Retransmit?
    ensures StampStep(me, Act(me, peer, a, now), {}, now)
  {
    hide Act;
    if Local(a) { LocalKeeps(me, peer, a, now); }
    else if SendsAck(me, a) { AckEffect(me, peer, a, now); }
    else if SendsControl(me, a) { ControlEffect(me, peer, a, now); }
    else { IdleKeeps(me, peer, a, now); }
    SubsetStamped(me.s.arq.entries, me.s.arq.entries, now);
  }

  lemma ActStamps(me: Party, peer: Party, a: Action, now: nat)
    requires Inv(me, peer) && me.s.arq.rtt.rto > 0
    ensures StampStep(me, Act(me, peer, a, now), PutsOnWire(me, a, now), now)
  {
    hide Inv, Act, StampedBy;
    InvFacts(me, peer);
    if TakesIn(me, peer, a) {
      TakeStamps(me, peer, a, now);
    } else if CutsData(me, a) {
      CutEffect(me, peer, a, now);
      CutStamped(me, a, Cut(me, a, now), now);
    } else if a.Retransmit? {
      RetransmitEffect(me, peer, now);
      DrainStamped(me.s.arq, now);
    } else {
      RestStamps(me, peer, a, now);
    }
  }

  ghost predicate StampsAreLast(r: Trace, client: bool, n: nat)
    requires n <= |r.steps| && |r.worlds| == |r.steps| + 1
  {
    var arq := Of(r.worlds[n], client).s.arq;
    arq.rtt.rto > 0 && forall x | x in arq.entries :: x.1.sentAt == LastSent(r, client, x.0, n)
  }

  lemma MoveStamps(w: World, v: World, t: Step, client: bool)
    requires Inv(w.client, w.server) && Moves(w, v, t) && Of(w, client).s.arq.rtt.rto > 0
    ensures t.byClient == client ==>
      StampStep(Of(w, client), Of(v, client), PutsOnWire(Of(w, client), t.action, t.now), t.now)
    ensures t.byClient != client ==> Of(v, client) == Of(w, client)
  {
    hide Act, StampStep, PutsOnWire;
    if t.byClient == client { ActStamps(Of(w, client), Of(w, !client), t.action, t.now); }
  }

  lemma {:induction false} LastSentExactly(r: Trace, c: nat, s: nat, n: nat, client: bool)
    requires IsRun(r, c, s) && n < |r.worlds|
    ensures StampsAreLast(r, client, n)
  {
    hide Moves, Inv, PutsOnWire;
    if n > 0 {
      LastSentExactly(r, c, s, n - 1, client);
      RunInv(r, c, s, n - 1);
      StepOf(r, c, s, n - 1);
      MoveStamps(r.worlds[n - 1], r.worlds[n], r.steps[n - 1], client);
    }
  }

  // In every run, a retransmission round resends a data packet exactly when no accepted ACK covers it and at least the
  // timeout has passed since it was last put on the wire.
  lemma ResentExactly(r: Trace, c: nat, s: nat, n: nat, client: bool, pn: nat, now: nat)
    requires IsRun(r, c, s) && n < |r.worlds|
    requires pn < |Of(r.worlds[n], client).log| && Of(r.worlds[n], client).log[pn].Data?
    ensures var me, peer := Of(r.worlds[n], client), Of(r.worlds[n], !client);
      pn in ArqRuns.Numbers(me.s.arq.DrainExpired(now).1) <==>
        !Answered(me.s.replay.accepted, peer.log, pn) && LastSent(r, client, pn, n) + me.s.arq.rtt.rto <= now
  {
    hide Answered, LastSent, Inv;
    RunInv(r, c, s, n);
    AnsweredExactly(r, c, s, n, client);
    LastSentExactly(r, c, s, n, client);
    var w := r.worlds[n];
    InvOf(w, client);
    InvFacts(Of(w, client), Of(w, !client));
    ResentIff(Of(w, client).s.arq, pn, now);
  }

  lemma ResentIff(a: Arq.ArqState<Packet>, pn: nat, now: nat)
    requires Arq.Ascending(a.entries) && a.rtt.rto > 0
    ensures pn in ArqRuns.Numbers(a.DrainExpired(now).1) ==> Arq.HasKey(a.entries, pn)
    ensures forall x | x in a.entries && x.0 == pn ::
      pn in ArqRuns.Numbers(a.DrainExpired(now).1) <==> x.1.sentAt + a.rtt.rto <= now
    ensures Arq.HasKey(a.entries, pn) ==> exists x | x in a.entries :: x.0 == pn
  {
    forall x | x in a.entries && x.0 == pn
      ensures pn in ArqRuns.Numbers(a.DrainExpired(now).1) <==> x.1.sentAt + a.rtt.rto <= now
    {
      ArqRuns.ReturnedIff(a, now, x);
    }
    ArqRuns.DrainExactly(a, now);
    var out := a.DrainExpired(now).1;
    if pn in ArqRuns.Numbers(out) {
      var i :| 0 <= i < |out| && out[i].0 == pn;
      assert (out[i].0, out[i].1) in out;
      var x :| x in a.entries && x.0 == pn && x.1.data == out[i].1 && ArqRuns.Due(x, now, a.rtt.rto);
      MemberKey(a.entries, x);
    }
    if Arq.HasKey(a.entries, pn) {
      var i :| 0 <= i < |a.entries| && a.entries[i].0 == pn;
      assert a.entries[i] in a.entries;
    }
  }
}
