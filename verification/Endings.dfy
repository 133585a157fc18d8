// When a stream ends: the final mark over whole runs of two sessions.
module Endings {
  import opened Bytes
  import opened Stream
  import opened Session
  import opened TwoParty
  import opened Runs
  import opened Delivery
  import Replay

  // ---- The writer ----

  // The party had stream sid open and finished it in step i.
  ghost predicate FinishedAt(r: Trace, client: bool, sid: nat, i: nat)
    requires i < |r.steps| && |r.worlds| == |r.steps| + 1
  {
    r.steps[i].byClient == client && r.steps[i].action == Action.Finish(sid) && sid in Of(r.worlds[i], client).s.streams
  }

  ghost predicate FinishedBefore(r: Trace, client: bool, sid: nat, n: nat)
    requires n <= |r.steps| && |r.worlds| == |r.steps| + 1
  {
    exists i | 0 <= i < n :: FinishedAt(r, client, sid, i)
  }

  // What one action does to the writer's mark of an open stream.
  ghost predicate MarkStep(me: Party, v: Party, a: Action, sid: nat) {
    && (sid in me.s.streams ==> sid in v.s.streams)
    && (sid in v.s.streams ==>
          v.s.streams[sid].finSent == (sid in me.s.streams && (me.s.streams[sid].finSent || a == Action.Finish(sid))))
  }

  lemma SetMark(a: map<nat, StreamState>, k: nat, st: StreamState, sid: nat)
    requires st.finSent == StreamOr(a, k).finSent
    ensures sid in a ==> sid in a[k := st]
    ensures sid in a[k := st] ==> a[k := st][sid].finSent == (sid in a && a[sid].finSent)
  {}

  lemma DeliverMark(me: Party, peer: Party, pn: nat, now: nat, immediate: bool, sid: nat)
    requires Inv(me, peer) && pn < |peer.log|
    ensures MarkStep(me, DoDeliver(me, pn, peer.log[pn], now, immediate), Action.Receive(pn, immediate), sid)
  {
    hide Inv, DoDeliver;
    DeliverState(me, peer, pn, now, immediate);
    var p := peer.log[pn];
    if p.Data? {
      SetMark(me.s.streams, p.frame.sid,
              StreamOr(me.s.streams, p.frame.sid).Receive(p.frame.Segment(), p.frame.fin).0, sid);
    }
  }

  lemma ReadMark(me: Party, peer: Party, k: nat, m: nat, sid: nat)
    requires Inv(me, peer)
    ensures MarkStep(me, DoRead(me, k, m), Action.Read(k, m), sid)
  {
    hide Inv, DoRead, StreamState.Read;
    ReadStep(me, peer, k, m);
    ReadState(me, k, m);
    if k in me.s.streams {
      StreamFacts(me, peer, k);
      ReadLink(me.s.streams[k], k, At(me.got, k), At(peer.written, k), peer.log, m);
      SetMark(me.s.streams, k, me.s.streams[k].Read(m).value.0, sid);
    }
  }

  lemma OtherMark(me: Party, peer: Party, a: Action, now: nat, sid: nat)
    requires me.s.ack.Valid() && |peer.log| <= U64 && IdsFresh(me.s.streams, me.s.parity, me.s.nextStreamId)
    requires !a.Receive? && !a.Read?
    ensures MarkStep(me, Act(me, peer, a, now), a, sid)
  {}

  lemma ActMark(me: Party, peer: Party, a: Action, now: nat, sid: nat)
    requires Inv(me, peer)
    ensures MarkStep(me, Act(me, peer, a, now), a, sid)
  {
    hide Inv, MarkStep, DoDeliver, DoRead;
    FreshIds(me, peer);
    match a {
      case Receive(pn, immediate) =>
        if pn < |peer.log| { DeliverMark(me, peer, pn, now, immediate, sid); } else { NoMark(me, a, sid); }
      case Read(k, m) => ReadMark(me, peer, k, m, sid);
      case _ => OtherMark(me, peer, a, now, sid);
    }
  }

  lemma NoMark(me: Party, a: Action, sid: nat)
    requires a.Receive?
    ensures MarkStep(me, me, a, sid)
  {}

  lemma MoveMark(w: World, v: World, t: Step, client: bool, sid: nat)
    requires Inv(w.client, w.server) && Moves(w, v, t)
    ensures t.byClient == client ==> MarkStep(Of(w, client), Of(v, client), t.action, sid)
    ensures t.byClient != client ==> Of(v, client) == Of(w, client)
  {
    hide Act, MarkStep;
    if t.byClient == client { ActMark(Of(w, client), Of(w, !client), t.action, t.now, sid); }
  }

  // In every run a stream is marked finished exactly when its owner finished it while it was open.
  lemma {:induction false} FinishExactly(r: Trace, c: nat, s: nat, n: nat, client: bool, sid: nat)
    requires IsRun(r, c, s) && n < |r.worlds|
    ensures sid in Of(r.worlds[n], client).s.streams ==>
      (Of(r.worlds[n], client).s.streams[sid].finSent <==> FinishedBefore(r, client, sid, n))
    ensures FinishedBefore(r, client, sid, n) ==> sid in Of(r.worlds[n], client).s.streams
  {
    hide Moves, Inv;
    if n > 0 {
      FinishExactly(r, c, s, n - 1, client, sid);
      RunInv(r, c, s, n - 1);
      StepOf(r, c, s, n - 1);
      MoveMark(r.worlds[n - 1], r.worlds[n], r.steps[n - 1], client, sid);
      BeforeNext(r, client, sid, n - 1);
    }
  }

  lemma BeforeNext(r: Trace, client: bool, sid: nat, n: nat)
    requires n < |r.steps| && |r.worlds| == |r.steps| + 1
    ensures FinishedBefore(r, client, sid, n + 1) <==>
      FinishedBefore(r, client, sid, n) || FinishedAt(r, client, sid, n)
  {}

  // ---- Writing in a run ----

  // The answer of the session to a write, in every run: connection credit first, then the stream, its mark, its window.
  lemma SendExactly(r: Trace, c: nat, s: nat, n: nat, client: bool, sid: nat, data: seq<byte>)
    requires IsRun(r, c, s) && n < |r.worlds|
    ensures var me := Of(r.worlds[n], client);
      var (t, o) := me.s.Send(sid, data);
      var w, credit := At(me.written, sid), me.s.send.consumed + |data| <= me.s.send.limit;
      && (o.Ok? <==> credit && sid in me.s.streams && !FinishedBefore(r, client, sid, n) &&
                     |w| + |data| <= DEFAULT_WINDOW)
      && (o.Ok? ==> o.value == |w|)
      && t.send.consumed == me.s.send.consumed + (if credit then |data| else 0)
      && (o.Err? ==> t == me.s.(send := t.send))
  {
    RunInv(r, c, s, n);
    FinishExactly(r, c, s, n, client, sid);
    SendIs(Of(r.worlds[n], client), Of(r.worlds[n], !client), sid, data);
  }

  lemma SendIs(me: Party, peer: Party, sid: nat, data: seq<byte>)
    requires Inv(me, peer)
    ensures var (t, o) := me.s.Send(sid, data);
      var w, credit := At(me.written, sid), me.s.send.consumed + |data| <= me.s.send.limit;
      && (o.Ok? <==> credit && sid in me.s.streams && !me.s.streams[sid].finSent && |w| + |data| <= DEFAULT_WINDOW)
      && (o.Ok? ==> o.value == |w|)
      && t.send.consumed == me.s.send.consumed + (if credit then |data| else 0)
      && (o.Err? ==> t == me.s.(send := t.send))
  {
    if sid in me.s.streams {
      StreamFacts(me, peer, sid);
      assert me.s.streams[sid := me.s.streams[sid]] == me.s.streams;
    }
  }

  // ---- The reader ----

  // Packet pn was accepted and is a data packet of stream sid, the final mark if fin.
  ghost predicate Arrived(accepted: set<nat>, log: seq<Packet>, pn: nat, sid: nat, fin: bool) {
    pn in accepted && pn < |log| && log[pn].Data? && log[pn].frame.sid == sid && (fin ==> log[pn].frame.fin)
  }

  ghost predicate MarkArrived(accepted: set<nat>, log: seq<Packet>, sid: nat) {
    exists pn | pn in accepted :: Arrived(accepted, log, pn, sid, true)
  }

  // A stream whose packets arrived is open, unless the cap keeps it out.
  ghost predicate CapExplains(me: Party, peer: Party) {
    forall pn, sid | Arrived(me.s.replay.accepted, peer.log, pn, sid, false) ::
      sid in me.s.streams || |me.s.streams| >= me.s.maxStreams
  }

  // An open stream knows its end exactly when the mark has arrived.
  ghost predicate EndsKnown(me: Party, peer: Party) {
    forall sid | sid in me.s.streams ::
      me.s.streams[sid].finReceived.Some? <==> MarkArrived(me.s.replay.accepted, peer.log, sid)
  }

  ghost predicate Seen(me: Party, peer: Party) { CapExplains(me, peer) && EndsKnown(me, peer) }

  lemma KeysGrow(a: map<nat, StreamState>, b: map<nat, StreamState>)
    requires a.Keys <= b.Keys
    ensures |a| <= |b|
  {
    assert b.Keys == a.Keys + (b.Keys - a.Keys);
    assert |a| == |a.Keys| && |b| == |b.Keys|;
  }

  // The peer has nothing on a stream that this party is about to open.
  lemma UnopenedIsUnknown(me: Party, peer: Party, sid: nat)
    requires Inv(me, peer) && sid !in me.s.streams && sid % 2 == me.s.parity
    ensures !MarkArrived(me.s.replay.accepted, peer.log, sid)
  {
    if MarkArrived(me.s.replay.accepted, peer.log, sid) {
      SidKnown(me, peer, sid);
    }
  }

  lemma SidKnown(me: Party, peer: Party, sid: nat)
    requires Inv(me, peer) && MarkArrived(me.s.replay.accepted, peer.log, sid)
    ensures sid in me.s.streams || sid % 2 != me.s.parity
  {
    var pn :| pn in me.s.replay.accepted && Arrived(me.s.replay.accepted, peer.log, pn, sid, true);
    SidReaches(me, peer, pn);
  }

  lemma QuietOpens(me: Party, peer: Party, a: Action, now: nat, sid: nat)
    requires me.s.ack.Valid() && |peer.log| <= U64 && IdsFresh(me.s.streams, me.s.parity, me.s.nextStreamId)
    requires !a.Receive? && !a.Read? && sid !in me.s.streams && sid in Act(me, peer, a, now).s.streams
    ensures sid % 2 == me.s.parity
  {}

  lemma QuietSeen(me: Party, peer: Party, a: Action, now: nat)
    requires Inv(me, peer) && Seen(me, peer) && !a.Receive? && !a.Read?
    ensures Seen(Act(me, peer, a, now), peer)
  {
    hide Inv, Act, MarkArrived;
    FreshIds(me, peer);
    QuietHeld(me, peer, a, now);
    CapKept(me, peer, a, now);
    var v := Act(me, peer, a, now);
    assert me.s.streams.Keys <= v.s.streams.Keys;
    KeysGrow(me.s.streams, v.s.streams);
    forall sid | sid in v.s.streams
      ensures v.s.streams[sid].finReceived.Some? <==> MarkArrived(me.s.replay.accepted, peer.log, sid)
    {
      if sid !in me.s.streams {
        QuietOpens(me, peer, a, now, sid);
        UnopenedIsUnknown(me, peer, sid);
      }
    }
  }

  lemma ReadSeen(me: Party, peer: Party, k: nat, m: nat, now: nat)
    requires Inv(me, peer) && Seen(me, peer)
    ensures Seen(Act(me, peer, Action.Read(k, m), now), peer)
  {
    hide Inv, DoRead, StreamState.Read, MarkArrived;
    FreshIds(me, peer);
    CapKept(me, peer, Action.Read(k, m), now);
    ReadStep(me, peer, k, m);
    ReadState(me, k, m);
    var v := DoRead(me, k, m);
    assert v.s.streams.Keys == me.s.streams.Keys;
    KeysGrow(me.s.streams, v.s.streams);
    if k in me.s.streams {
      StreamFacts(me, peer, k);
      ReadLink(me.s.streams[k], k, At(me.got, k), At(peer.written, k), peer.log, m);
    }
  }

  lemma OneMoreArrived(accepted: set<nat>, log: seq<Packet>, pn: nat, sid: nat)
    requires pn < |log|
    ensures MarkArrived(accepted + {pn}, log, sid) <==>
      MarkArrived(accepted, log, sid) || (log[pn].Data? && log[pn].frame.sid == sid && log[pn].frame.fin)
  {
    if MarkArrived(accepted, log, sid) {
      var k :| k in accepted && Arrived(accepted, log, k, sid, true);
      assert Arrived(accepted + {pn}, log, k, sid, true);
    }
    if log[pn].Data? && log[pn].frame.sid == sid && log[pn].frame.fin {
      assert Arrived(accepted + {pn}, log, pn, sid, true);
    }
    if MarkArrived(accepted + {pn}, log, sid) {
      var k :| k in accepted + {pn} && Arrived(accepted + {pn}, log, k, sid, true);
      if k in accepted { assert Arrived(accepted, log, k, sid, true); }
    }
  }

  // A stream that is opened by a packet has had no packet before.
  lemma FirstOfStream(me: Party, peer: Party, sid: nat)
    requires CapExplains(me, peer) && sid !in me.s.streams && !TooMany(me.s, sid)
    ensures !MarkArrived(me.s.replay.accepted, peer.log, sid)
  {
    if MarkArrived(me.s.replay.accepted, peer.log, sid) { FirstArrived(me, peer, sid); }
  }

  lemma FirstArrived(me: Party, peer: Party, sid: nat)
    requires CapExplains(me, peer) && MarkArrived(me.s.replay.accepted, peer.log, sid)
    ensures sid in me.s.streams || |me.s.streams| >= me.s.maxStreams
  {
    var pn :| pn in me.s.replay.accepted && Arrived(me.s.replay.accepted, peer.log, pn, sid, true);
    assert Arrived(me.s.replay.accepted, peer.log, pn, sid, false);
  }

  lemma StoredEnds(me: Party, peer: Party, pn: nat, sid: nat)
    requires Seen(me, peer) && pn < |peer.log| && sid in StreamsAfter(me.s, peer.log[pn])
    ensures StreamsAfter(me.s, peer.log[pn])[sid].finReceived.Some? <==>
      MarkArrived(me.s.replay.accepted + {pn}, peer.log, sid)
  {
    hide MarkArrived, CapExplains;
    OneMoreArrived(me.s.replay.accepted, peer.log, pn, sid);
    if sid !in me.s.streams { FirstOfStream(me, peer, sid); }
  }

  lemma StoredCap(me: Party, peer: Party, pn: nat)
    requires CapExplains(me, peer) && pn < |peer.log|
    ensures var b := StreamsAfter(me.s, peer.log[pn]);
      && |me.s.streams| <= |b|
      && forall k, sid | Arrived(me.s.replay.accepted + {pn}, peer.log, k, sid, false) ::
           sid in b || |b| >= me.s.maxStreams
  {
    var b := StreamsAfter(me.s, peer.log[pn]);
    assert me.s.streams.Keys <= b.Keys;
    KeysGrow(me.s.streams, b);
    forall k, sid | Arrived(me.s.replay.accepted + {pn}, peer.log, k, sid, false)
      ensures sid in b || |b| >= me.s.maxStreams
    {
      if k in me.s.replay.accepted { assert Arrived(me.s.replay.accepted, peer.log, k, sid, false); }
    }
  }

  lemma DeliverSeen(me: Party, peer: Party, pn: nat, now: nat, immediate: bool)
    requires Inv(me, peer) && Seen(me, peer) && pn < |peer.log|
    ensures Seen(DoDeliver(me, pn, peer.log[pn], now, immediate), peer)
  {
    hide Inv, DoDeliver, StreamsAfter, MarkArrived, Arrived;
    FreshIds(me, peer);
    DeliverState(me, peer, pn, now, immediate);
    DeliverCap(me, pn, peer.log[pn], now, immediate);
    if me.s.replay.Judge(pn) == Replay.Accept {
      StoredCap(me, peer, pn);
      forall sid | sid in StreamsAfter(me.s, peer.log[pn])
        ensures StreamsAfter(me.s, peer.log[pn])[sid].finReceived.Some? <==>
          MarkArrived(me.s.replay.accepted + {pn}, peer.log, sid)
      {
        StoredEnds(me, peer, pn, sid);
      }
    }
  }

  lemma ActSeen(me: Party, peer: Party, a: Action, now: nat)
    requires Inv(me, peer) && Seen(me, peer)
    ensures Seen(Act(me, peer, a, now), peer)
  {
    hide Inv, Seen, DoDeliver;
    FreshIds(me, peer);
    if a.Receive? {
      if a.pn < |peer.log| { DeliverSeen(me, peer, a.pn, now, a.immediate); }
    } else if a.Read? {
      ReadSeen(me, peer, a.sid, a.maxBytes, now);
    } else {
      QuietSeen(me, peer, a, now);
    }
  }

  lemma LongerLog(accepted: set<nat>, log: seq<Packet>, longer: seq<Packet>, pn: nat, sid: nat, fin: bool)
    requires Sent(accepted, log) && log <= longer
    ensures Arrived(accepted, longer, pn, sid, fin) <==> Arrived(accepted, log, pn, sid, fin)
  {
    if pn in accepted { assert longer[pn] == log[pn]; }
  }

  lemma PeerSeen(me: Party, peer: Party, longer: Party)
    requires Seen(me, peer) && Sent(me.s.replay.accepted, peer.log) && peer.log <= longer.log
    ensures Seen(me, longer)
  {
    forall pn, sid, fin
      ensures Arrived(me.s.replay.accepted, longer.log, pn, sid, fin) <==>
        Arrived(me.s.replay.accepted, peer.log, pn, sid, fin)
    {
      LongerLog(me.s.replay.accepted, peer.log, longer.log, pn, sid, fin);
    }
  }

  lemma SentBefore(me: Party, peer: Party)
    requires Inv(me, peer)
    ensures Sent(me.s.replay.accepted, peer.log)
  {}

  lemma MoveSeen(w: World, v: World, t: Step, client: bool)
    requires Inv(w.client, w.server) && Moves(w, v, t) && Seen(Of(w, client), Of(w, !client))
    ensures Seen(Of(v, client), Of(v, !client))
  {
    hide Act, Seen;
    var me, peer := Of(w, client), Of(w, !client);
    if t.byClient == client {
      ActSeen(me, peer, t.action, t.now);
    } else {
      SentBefore(me, peer);
      ActLog(peer, me, t.action, t.now);
      PeerSeen(me, peer, Of(v, !client));
    }
  }

  lemma {:induction false} RunSeen(r: Trace, c: nat, s: nat, n: nat, client: bool)
    requires IsRun(r, c, s) && n < |r.worlds|
    ensures Seen(Of(r.worlds[n], client), Of(r.worlds[n], !client))
  {
    hide Moves, Inv, Seen;
    if n == 0 {
      StartSeen(c, s, client);
    } else {
      RunSeen(r, c, s, n - 1, client);
      RunInv(r, c, s, n - 1);
      StepOf(r, c, s, n - 1);
      MoveSeen(r.worlds[n - 1], r.worlds[n], r.steps[n - 1], client);
    }
  }

  lemma StartSeen(c: nat, s: nat, client: bool)
    ensures Seen(Of(Start(c, s), client), Of(Start(c, s), !client))
  {}

  // In every run a stream reports itself finished exactly when its final mark has arrived and everything written on it
  // has been read.
  lemma EndExactly(r: Trace, c: nat, s: nat, n: nat, fromClient: bool, sid: nat)
    requires IsRun(r, c, s) && n < |r.worlds| && sid in Of(r.worlds[n], !fromClient).s.streams
    ensures var w := r.worlds[n];
      var tx, rx := Of(w, fromClient), Of(w, !fromClient);
      rx.s.streams[sid].IsRecvFinished() <==>
        MarkArrived(rx.s.replay.accepted, tx.log, sid) && At(rx.got, sid) == At(tx.written, sid)
  {
    RunSeen(r, c, s, n, !fromClient);
    RunInv(r, c, s, n);
    EndIs(Of(r.worlds[n], !fromClient), Of(r.worlds[n], fromClient), sid);
  }

  lemma EndIs(rx: Party, tx: Party, sid: nat)
    requires Inv(rx, tx) && Seen(rx, tx) && sid in rx.s.streams
    ensures rx.s.streams[sid].IsRecvFinished() <==>
      MarkArrived(rx.s.replay.accepted, tx.log, sid) && At(rx.got, sid) == At(tx.written, sid)
  {
    hide Inv, CapExplains;
    StreamFacts(rx, tx, sid);
    var st, w := rx.s.streams[sid], At(tx.written, sid);
    assert w[..|w|] == w;
  }
}
