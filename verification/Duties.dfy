// What a receiver owes its peer in every run of two sessions, and what the sender makes of it.
module Duties {
  import opened Bytes
  import opened Session
  import opened TwoParty
  import opened Runs
  import opened Effects
  import opened Stream
  import Ack = AckRanges
  import Arq
  import Replay

  // ---- The list of received numbers ----

  // It holds exactly the accepted numbers within the retention window below the largest.
  ghost predicate ListsAccepted(me: Party) {
    && (forall k: nat :: k in me.s.ack.received <==>
          k in me.s.replay.accepted && k + Ack.ACK_RETAIN_WINDOW >= me.s.ack.largest)
    && (me.s.replay.accepted != {} ==> me.s.ack.largest in me.s.replay.accepted)
    && (forall k | k in me.s.replay.accepted :: k <= me.s.ack.largest)
  }

  // An acknowledgement of pn has been numbered.
  ghost predicate Acknowledged(log: seq<Packet>, pn: nat) {
    exists q | 0 <= q < |log| :: log[q].Ack? && Arq.Inside(log[q].ranges, pn)
  }

  // pn asks for an acknowledgement and was accepted.
  ghost predicate Asked(me: Party, peer: Party, pn: nat) {
    pn in me.s.replay.accepted && pn < |peer.log| && peer.log[pn].AckEliciting()
  }

  // Whoever asked is acknowledged, or will be by the next ACK, or has fallen out of the retention window.
  ghost predicate NobodyForgotten(me: Party, peer: Party) {
    forall pn: nat | Asked(me, peer, pn) ::
      me.s.ack.pending || Acknowledged(me.log, pn) || pn + Ack.ACK_RETAIN_WINDOW < me.s.ack.largest
  }

  ghost predicate Dutiful(me: Party, peer: Party) { ListsAccepted(me) && NobodyForgotten(me, peer) }

  lemma Longer(log: seq<Packet>, longer: seq<Packet>, pn: nat)
    requires log <= longer && Acknowledged(log, pn)
    ensures Acknowledged(longer, pn)
  {
    var q :| 0 <= q < |log| && log[q].Ack? && Arq.Inside(log[q].ranges, pn);
    assert longer[q] == log[q];
  }

  // An ACK packet covers exactly what the list holds.
  lemma AckCoversList(received: seq<nat>, k: nat)
    requires Ack.Sorted(received)
    ensures Arq.Inside(Ack.Runs(received), k) <==> k in received
  {
    Ack.RunsAreRuns(received);
    var r := Ack.Runs(received);
    if Arq.Inside(r, k) {
      var i :| 0 <= i < |r| && r[i].0 <= k <= r[i].1;
      assert Ack.Within(k, r[i]) && Ack.Covers(r, k);
    }
    if k in received {
      assert Ack.Covers(r, k);
      var i :| 0 <= i < |r| && Ack.Within(k, r[i]);
    }
  }

  lemma TakeLists(me: Party, v: Party, pn: nat, eliciting: bool, now: nat)
    requires ListsAccepted(me) && me.s.ack.Valid() && pn < U64 && me.s.replay.Judge(pn) == Replay.Accept
    requires v.s.ack == me.s.ack.OnReceived(pn, eliciting, now) && v.s.replay == me.s.replay.Commit(pn)
    ensures ListsAccepted(v)
  {
    Ack.RetainFacts(me.s.ack.received, pn, me.s.ack.Top(pn));
    assert me.s.replay.accepted != {} ==> me.s.ack.largest in me.s.ack.received;
  }

  lemma TakeDuties(me: Party, peer: Party, a: Action, now: nat)
    requires Inv(me, peer) && Dutiful(me, peer) && TakesIn(me, peer, a)
    ensures Dutiful(Act(me, peer, a, now), peer)
  {
    hide Inv, Act, Acknowledged, ListsAccepted;
    InvFacts(me, peer);
    DeliverEffect(me, peer, a, now);
    var v, p := Act(me, peer, a, now), peer.log[a.pn];
    TakeLists(me, v, a.pn, p.AckEliciting(), now);
    forall pn: nat | Asked(v, peer, pn)
      ensures v.s.ack.pending || Acknowledged(v.log, pn) || pn + Ack.ACK_RETAIN_WINDOW < v.s.ack.largest
    {
      if pn != a.pn {
        assert Asked(me, peer, pn);
        if Acknowledged(me.log, pn) { Longer(me.log, v.log, pn); }
      }
    }
  }

  lemma AckDuties(me: Party, peer: Party, a: Action, now: nat)
    requires Inv(me, peer) && Dutiful(me, peer) && SendsAck(me, a)
    ensures Dutiful(Act(me, peer, a, now), peer)
  {
    hide Inv, Act;
    InvFacts(me, peer);
    AckEffect(me, peer, a, now);
    var v := Act(me, peer, a, now);
    forall pn: nat | Asked(v, peer, pn)
      ensures Acknowledged(v.log, pn) || pn + Ack.ACK_RETAIN_WINDOW < v.s.ack.largest
    {
      if pn in me.s.ack.received {
        AckCoversList(me.s.ack.received, pn);
        assert v.log[|me.log|].Ack? && Arq.Inside(v.log[|me.log|].ranges, pn);
      }
    }
  }

  lemma QuietDuties(me: Party, v: Party, peer: Party)
    requires Dutiful(me, peer) && v.s.ack == me.s.ack && v.s.replay == me.s.replay && me.log <= v.log
    ensures Dutiful(v, peer)
  {
    hide Acknowledged;
    forall pn: nat | Asked(v, peer, pn)
      ensures v.s.ack.pending || Acknowledged(v.log, pn) || pn + Ack.ACK_RETAIN_WINDOW < v.s.ack.largest
    {
      assert Asked(me, peer, pn);
      if Acknowledged(me.log, pn) { Longer(me.log, v.log, pn); }
    }
  }

  lemma RestDuties(me: Party, peer: Party, a: Action, now: nat)
    requires me.s.ack.Valid() && |peer.log| <= U64 && Dutiful(me, peer) && !TakesIn(me, peer, a) && !SendsAck(me, a)
    ensures Dutiful(Act(me, peer, a, now), peer)
  {
    hide Act, Dutiful, Cut;
    if Local(a) { LocalKeeps(me, peer, a, now); }
    else if CutsData(me, a) { CutEffect(me, peer, a, now); }
    else if SendsControl(me, a) { ControlEffect(me, peer, a, now); }
    else if a.Retransmit? { RetransmitEffect(me, peer, now); }
    else { IdleKeeps(me, peer, a, now); }
    QuietDuties(me, Act(me, peer, a, now), peer);
  }

  lemma ActDuties(me: Party, peer: Party, a: Action, now: nat)
    requires Inv(me, peer) && Dutiful(me, peer)
    ensures Dutiful(Act(me, peer, a, now), peer)
  {
    hide Inv, Act, Dutiful;
    InvFacts(me, peer);
    if TakesIn(me, peer, a) { TakeDuties(me, peer, a, now); }
    else if SendsAck(me, a) { AckDuties(me, peer, a, now); }
    else { RestDuties(me, peer, a, now); }
  }

  lemma PeerDuties(me: Party, peer: Party, longer: Party)
    requires Dutiful(me, peer) && Sent(me.s.replay.accepted, peer.log) && peer.log <= longer.log
    ensures Dutiful(me, longer)
  {
    forall pn: nat | Asked(me, longer, pn) ensures Asked(me, peer, pn) { assert longer.log[pn] == peer.log[pn]; }
  }

  lemma MoveDuties(w: World, v: World, t: Step, client: bool)
    requires Inv(w.client, w.server) && Moves(w, v, t) && Dutiful(Of(w, client), Of(w, !client))
    ensures Dutiful(Of(v, client), Of(v, !client))
  {
    hide Act, Dutiful;
    var me, peer := Of(w, client), Of(w, !client);
    if t.byClient == client {
      ActDuties(me, peer, t.action, t.now);
    } else {
      InvFacts(me, peer);
      LogGrows(peer, me, t.action, t.now);
      PeerDuties(me, peer, Of(v, !client));
    }
  }

  // In every run the list of received numbers is exactly what the window retains of the accepted ones, and every
  // accepted packet that asks for it is acknowledged, or will be by the next ACK, or has left the window.
  lemma {:induction false} DutiesKept(r: Trace, c: nat, s: nat, n: nat, client: bool)
    requires IsRun(r, c, s) && n < |r.worlds|
    ensures Dutiful(Of(r.worlds[n], client), Of(r.worlds[n], !client))
  {
    hide Moves, Inv, Dutiful;
    if n == 0 {
      StartDuties(c, s, client);
    } else {
      DutiesKept(r, c, s, n - 1, client);
      RunInv(r, c, s, n - 1);
      StepOf(r, c, s, n - 1);
      MoveDuties(r.worlds[n - 1], r.worlds[n], r.steps[n - 1], client);
    }
  }

  lemma StartDuties(c: nat, s: nat, client: bool)
    ensures Dutiful(Of(Start(c, s), client), Of(Start(c, s), !client))
  {}

  // In every run an ACK packet covers exactly the accepted numbers that the window retains.
  lemma AckSaysExactly(r: Trace, c: nat, s: nat, n: nat, client: bool, k: nat)
    requires IsRun(r, c, s) && n < |r.worlds|
    ensures var me := Of(r.worlds[n], client).s;
      Arq.Inside(me.FlushAck().1.ranges, k) <==>
        k in me.replay.accepted && k + Ack.ACK_RETAIN_WINDOW >= me.ack.largest
  {
    RunInv(r, c, s, n);
    DutiesKept(r, c, s, n, client);
    AckCoversList(Of(r.worlds[n], client).s.ack.received, k);
  }

  // ---- When an acknowledgement is owed ----

  // Since the last ACK flush of this party a packet that asks for it was taken in.
  ghost predicate Owed(r: Trace, client: bool, n: nat)
    requires n <= |r.steps| && |r.worlds| == |r.steps| + 1
  {
    n > 0 &&
    var t, me, peer := r.steps[n - 1], Of(r.worlds[n - 1], client), Of(r.worlds[n - 1], !client);
    if t.byClient != client then Owed(r, client, n - 1)
    else if t.action.FlushAck? && me.s.nextPn < U64 then false
    else Owed(r, client, n - 1) || (TakesIn(me, peer, t.action) && peer.log[t.action.pn].AckEliciting())
  }

  // The flag after one action.
  ghost predicate OwedAfter(me: Party, peer: Party, a: Action) {
    && !(a.FlushAck? && me.s.nextPn < U64)
    && (me.s.ack.pending || (TakesIn(me, peer, a) && peer.log[a.pn].AckEliciting()))
  }

  lemma ActPending(me: Party, peer: Party, a: Action, now: nat)
    requires me.s.ack.Valid() && |peer.log| <= U64
    ensures Act(me, peer, a, now).s.ack.pending <==> OwedAfter(me, peer, a)
  {
    hide Act, Cut;
    if Local(a) { LocalKeeps(me, peer, a, now); }
    else if TakesIn(me, peer, a) { DeliverEffect(me, peer, a, now); }
    else if CutsData(me, a) { CutEffect(me, peer, a, now); }
    else if SendsAck(me, a) { AckEffect(me, peer, a, now); }
    else if SendsControl(me, a) { ControlEffect(me, peer, a, now); }
    else if a.Retransmit? { RetransmitEffect(me, peer, now); }
    else { IdleKeeps(me, peer, a, now); }
  }

  lemma MovePending(w: World, v: World, t: Step, client: bool)
    requires Inv(w.client, w.server) && Moves(w, v, t)
    ensures t.byClient != client ==> Of(v, client) == Of(w, client)
    ensures t.byClient == client ==>
      (Of(v, client).s.ack.pending <==> OwedAfter(Of(w, client), Of(w, !client), t.action))
  {
    hide Act;
    InvFacts(Of(w, client), Of(w, !client));
    if t.byClient == client { ActPending(Of(w, client), Of(w, !client), t.action, t.now); }
  }

  // In every run an ACK is pending exactly when one is owed.
  lemma {:induction false} PendingExactly(r: Trace, c: nat, s: nat, n: nat, client: bool)
    requires IsRun(r, c, s) && n < |r.worlds|
    ensures Of(r.worlds[n], client).s.ack.pending <==> Owed(r, client, n)
  {
    hide Moves, Inv;
    if n > 0 {
      PendingExactly(r, c, s, n - 1, client);
      RunInv(r, c, s, n - 1);
      StepOf(r, c, s, n - 1);
      MovePending(r.worlds[n - 1], r.worlds[n], r.steps[n - 1], client);
    }
  }

  // ---- Grants ----

  // A grant of the peer that this party has accepted.
  ghost predicate Granted(accepted: set<nat>, log: seq<Packet>, q: nat) {
    q in accepted && q < |log| && log[q].MaxData?
  }

  // The send limit is the largest of the initial window and the accepted grants.
  ghost predicate LimitIsLargest(me: Party, peer: Party) {
    && me.s.send.limit >= DEFAULT_WINDOW
    && (forall q: nat | Granted(me.s.replay.accepted, peer.log, q) :: peer.log[q].limit <= me.s.send.limit)
    && (me.s.send.limit == DEFAULT_WINDOW ||
        exists q | q in me.s.replay.accepted ::
          Granted(me.s.replay.accepted, peer.log, q) && peer.log[q].limit == me.s.send.limit)
  }

  lemma TakeLimit(me: Party, v: Party, peer: Party, pn: nat)
    requires LimitIsLargest(me, peer) && pn < |peer.log| && me.s.replay.Judge(pn) == Replay.Accept
    requires v.s.replay == me.s.replay.Commit(pn) && v.s.send.limit == LimitAfter(me.s, peer.log[pn])
    ensures LimitIsLargest(v, peer)
  {
    forall q: nat | Granted(v.s.replay.accepted, peer.log, q) ensures peer.log[q].limit <= v.s.send.limit {
      if q != pn { assert Granted(me.s.replay.accepted, peer.log, q); }
    }
    if v.s.send.limit != me.s.send.limit {
      assert Granted(v.s.replay.accepted, peer.log, pn);
    } else if me.s.send.limit != DEFAULT_WINDOW {
      var q :| q in me.s.replay.accepted && Granted(me.s.replay.accepted, peer.log, q) &&
        peer.log[q].limit == me.s.send.limit;
      assert Granted(v.s.replay.accepted, peer.log, q);
    }
  }

  lemma ActLimit(me: Party, peer: Party, a: Action, now: nat)
    requires Inv(me, peer) && LimitIsLargest(me, peer)
    ensures LimitIsLargest(Act(me, peer, a, now), peer)
  {
    hide Inv, Act, Cut, LimitIsLargest, LimitAfter;
    InvFacts(me, peer);
    var v := Act(me, peer, a, now);
    if TakesIn(me, peer, a) {
      DeliverEffect(me, peer, a, now);
      TakeLimit(me, v, peer, a.pn);
    } else {
      RestLimit(me, peer, a, now);
      SameLimit(me, v, peer);
    }
  }

  lemma RestLimit(me: Party, peer: Party, a: Action, now: nat)
    requires me.s.ack.Valid() && |peer.log| <= U64 && !TakesIn(me, peer, a)
    ensures var v := Act(me, peer, a, now); v.s.replay == me.s.replay && v.s.send.limit == me.s.send.limit
  {
    hide Act, Cut;
    if Local(a) { LocalKeeps(me, peer, a, now); }
    else if CutsData(me, a) { CutEffect(me, peer, a, now); }
    else if SendsAck(me, a) { AckEffect(me, peer, a, now); }
    else if SendsControl(me, a) { ControlEffect(me, peer, a, now); }
    else if a.Retransmit? { RetransmitEffect(me, peer, now); }
    else { IdleKeeps(me, peer, a, now); }
  }

  lemma SameLimit(me: Party, v: Party, peer: Party)
    requires LimitIsLargest(me, peer) && v.s.replay == me.s.replay && v.s.send.limit == me.s.send.limit
    ensures LimitIsLargest(v, peer)
  {}

  lemma PeerLimit(me: Party, peer: Party, longer: Party)
    requires LimitIsLargest(me, peer) && Sent(me.s.replay.accepted, peer.log) && peer.log <= longer.log
    ensures LimitIsLargest(me, longer)
  {
    forall q: nat ensures Granted(me.s.replay.accepted, longer.log, q) <==> Granted(me.s.replay.accepted, peer.log, q) {
      if q in me.s.replay.accepted { assert longer.log[q] == peer.log[q]; }
    }
    forall q | q in me.s.replay.accepted ensures q < |peer.log| && longer.log[q] == peer.log[q] {}
    if me.s.send.limit != DEFAULT_WINDOW {
      var q :| q in me.s.replay.accepted && Granted(me.s.replay.accepted, peer.log, q) &&
        peer.log[q].limit == me.s.send.limit;
      assert Granted(me.s.replay.accepted, longer.log, q) && longer.log[q].limit == me.s.send.limit;
    }
  }

  lemma MoveLimit(w: World, v: World, t: Step, client: bool)
    requires Inv(w.client, w.server) && Moves(w, v, t) && LimitIsLargest(Of(w, client), Of(w, !client))
    ensures LimitIsLargest(Of(v, client), Of(v, !client))
  {
    hide Act, LimitIsLargest;
    var me, peer := Of(w, client), Of(w, !client);
    if t.byClient == client {
      ActLimit(me, peer, t.action, t.now);
    } else {
      InvFacts(me, peer);
      LogGrows(peer, me, t.action, t.now);
      PeerLimit(me, peer, Of(v, !client));
    }
  }

  // In every run the sender's limit is exactly the largest grant it has accepted, or the initial window.
  lemma {:induction false} LimitExactly(r: Trace, c: nat, s: nat, n: nat, client: bool)
    requires IsRun(r, c, s) && n < |r.worlds|
    ensures LimitIsLargest(Of(r.worlds[n], client), Of(r.worlds[n], !client))
  {
    hide Moves, Inv, LimitIsLargest;
    if n == 0 {
      StartLimit(c, s, client);
    } else {
      LimitExactly(r, c, s, n - 1, client);
      RunInv(r, c, s, n - 1);
      StepOf(r, c, s, n - 1);
      MoveLimit(r.worlds[n - 1], r.worlds[n], r.steps[n - 1], client);
    }
  }

  lemma StartLimit(c: nat, s: nat, client: bool)
    ensures LimitIsLargest(Of(Start(c, s), client), Of(Start(c, s), !client))
  {}

  // A data frame that is let in asks for more credit exactly when more than half of the granted bytes have come in.
  lemma AsksExactly(s: Session, f: DataFrame)
    requires s.pendingMaxData.None? && s.HandleData(f).1.Ok?
    ensures var t := s.HandleData(f).0;
      && t.recvConsumed == s.recvConsumed + |f.data|
      && (t.pendingMaxData.Some? <==> 2 * t.recvConsumed > s.recv.limit)
      && (t.pendingMaxData.Some? ==> t.pendingMaxData.value == t.recvConsumed + DEFAULT_WINDOW)
  {}

  // ---- The granted limit ----

  // The receive limit is the largest of the initial window and the grants this party has sent.
  ghost predicate RecvIsLargest(me: Party) {
    && me.s.recv.limit >= DEFAULT_WINDOW
    && (forall q | 0 <= q < |me.log| && me.log[q].MaxData? :: me.log[q].limit <= me.s.recv.limit)
    && (me.s.recv.limit == DEFAULT_WINDOW ||
        exists q | 0 <= q < |me.log| :: me.log[q].MaxData? && me.log[q].limit == me.s.recv.limit)
  }

  // The action leaves the receive limit alone and sends no grant, or raises the limit to the grant it sends.
  ghost predicate Grants(me: Party, v: Party) {
    || (v.s.recv == me.s.recv && v.log == me.log)
    || (|v.log| == |me.log| + 1 && me.log <= v.log &&
        if v.log[|me.log|].MaxData? then v.s.recv == me.s.recv.UpdateLimit(v.log[|me.log|].limit)
        else v.s.recv == me.s.recv)
  }

  lemma TakeRecv(s: Session, pn: nat, p: Packet, now: nat)
    requires s.ack.Valid() && pn < U64
    ensures s.Receive(pn, p, now).0.recv == s.recv
  {}

  lemma DeliverRecv(me: Party, pn: nat, p: Packet, now: nat, immediate: bool)
    requires me.s.ack.Valid() && pn < U64
    ensures Grants(me, DoDeliver(me, pn, p, now, immediate))
  {
    hide Session.Receive;
    TakeRecv(me.s, pn, p, now);
  }

  lemma ActRecv(me: Party, peer: Party, a: Action, now: nat)
    requires me.s.ack.Valid() && |peer.log| <= U64
    ensures Grants(me, Act(me, peer, a, now))
  {
    hide DoDeliver;
    if a.Receive? && a.pn < |peer.log| { DeliverRecv(me, a.pn, peer.log[a.pn], now, a.immediate); }
  }

  lemma GrantsKeep(me: Party, v: Party)
    requires RecvIsLargest(me) && Grants(me, v)
    ensures RecvIsLargest(v)
  {
    if v.s.recv.limit == me.s.recv.limit {
      if me.s.recv.limit != DEFAULT_WINDOW {
        var q :| 0 <= q < |me.log| && me.log[q].MaxData? && me.log[q].limit == me.s.recv.limit;
        assert v.log[q] == me.log[q];
      }
    } else {
      assert v.log[|me.log|].MaxData? && v.log[|me.log|].limit == v.s.recv.limit;
    }
    forall q | 0 <= q < |v.log| && v.log[q].MaxData? ensures v.log[q].limit <= v.s.recv.limit {
      if q < |me.log| { assert v.log[q] == me.log[q]; }
    }
  }

  lemma MoveRecv(w: World, v: World, t: Step, client: bool)
    requires Inv(w.client, w.server) && Moves(w, v, t) && RecvIsLargest(Of(w, client))
    ensures RecvIsLargest(Of(v, client))
  {
    hide Act, RecvIsLargest, Grants;
    if t.byClient == client {
      InvFacts(Of(w, client), Of(w, !client));
      ActRecv(Of(w, client), Of(w, !client), t.action, t.now);
      GrantsKeep(Of(w, client), Of(v, client));
    }
  }

  // In every run a party admits exactly up to the largest limit it has told its peer.
  lemma {:induction false} GrantedExactly(r: Trace, c: nat, s: nat, n: nat, client: bool)
    requires IsRun(r, c, s) && n < |r.worlds|
    ensures RecvIsLargest(Of(r.worlds[n], client))
  {
    hide Moves, Inv;
    if n > 0 {
      GrantedExactly(r, c, s, n - 1, client);
      RunInv(r, c, s, n - 1);
      StepOf(r, c, s, n - 1);
      MoveRecv(r.worlds[n - 1], r.worlds[n], r.steps[n - 1], client);
    }
  }
}
