// Which streams a session knows in every run: those it opened and those its peer opened while there was room.
module StreamTable {
  import opened Bytes
  import Stream
  import opened Session
  import opened TwoParty
  import opened Runs
  import opened Effects
  import Replay

  // The action opens a stream of this party.
  predicate Opens(me: Party, a: Action) {
    a.Open? && |me.s.streams| < me.s.maxStreams && me.s.nextStreamId < U32
  }

  // The action takes in a frame of a stream of the peer, and there is room for one more.
  predicate Joins(me: Party, peer: Party, a: Action, sid: nat) {
    && TakesIn(me, peer, a) && peer.log[a.pn].Data? && peer.log[a.pn].frame.sid == sid
    && sid % 2 != me.s.parity && |me.s.streams| < me.s.maxStreams
  }

  function KeysAfter(me: Party, peer: Party, a: Action): set<nat> {
    if Opens(me, a) then me.s.streams.Keys + {me.s.nextStreamId}
    else if TakesIn(me, peer, a) && peer.log[a.pn].Data? && Joins(me, peer, a, peer.log[a.pn].frame.sid) then
      me.s.streams.Keys + {peer.log[a.pn].frame.sid}
    else me.s.streams.Keys
  }

  ghost predicate SameIds(s: Session, t: Session) {
    t.streams.Keys == s.streams.Keys && t.parity == s.parity && t.maxStreams == s.maxStreams &&
    t.nextStreamId == s.nextStreamId
  }

  lemma TakeKeys(s: Session, pn: nat, p: Packet, now: nat)
    requires s.ack.Valid() && pn < U64 && s.replay.Judge(pn) == Replay.Accept
    ensures var t := s.Receive(pn, p, now).0;
      && t.parity == s.parity && t.maxStreams == s.maxStreams && t.nextStreamId == s.nextStreamId
      && t.streams.Keys ==
         if p.Data? && p.frame.sid % 2 != s.parity && |s.streams| < s.maxStreams then s.streams.Keys + {p.frame.sid}
         else s.streams.Keys
  {
    if p.Data? && p.frame.sid in s.streams { assert s.streams.Keys + {p.frame.sid} == s.streams.Keys; }
  }

  lemma DeliverKeys(me: Party, peer: Party, a: Action, now: nat)
    requires me.s.ack.Valid() && |peer.log| <= U64 && TakesIn(me, peer, a)
    ensures var v := Act(me, peer, a, now);
      && v.s.parity == me.s.parity && v.s.maxStreams == me.s.maxStreams && v.s.nextStreamId == me.s.nextStreamId
      && v.s.streams.Keys == KeysAfter(me, peer, a)
  {
    hide Session.Receive;
    TakeKeys(me.s, a.pn, peer.log[a.pn], now);
  }

  lemma LocalKeys(me: Party, peer: Party, a: Action, now: nat)
    requires me.s.ack.Valid() && |peer.log| <= U64 && Local(a) && !Opens(me, a)
    ensures SameIds(me.s, Act(me, peer, a, now).s)
  {}

  lemma OtherKeys(me: Party, peer: Party, a: Action, now: nat)
    requires me.s.ack.Valid() && |peer.log| <= U64 && !TakesIn(me, peer, a) && !Opens(me, a)
    ensures SameIds(me.s, Act(me, peer, a, now).s)
  {
    hide Session.Receive, Session.Send, Session.Open, Session.ReadStream;
    if Local(a) { LocalKeys(me, peer, a, now); }
    else if a.Receive? && a.pn < |peer.log| { RejectedKeeps(me, a.pn, peer.log[a.pn], now, a.immediate); }
  }

  // The ids of this party are those from its first one on up to the next one, and there are no more streams than the
  // cap allows.
  ghost predicate TableOk(me: Party) {
    && me.s.parity < 2 && me.s.nextStreamId >= 2 - me.s.parity
    && (forall sid: nat | sid % 2 == me.s.parity ::
          sid in me.s.streams <==> 2 - me.s.parity <= sid < me.s.nextStreamId)
    && me.s.nextStreamId % 2 == me.s.parity && |me.s.streams| <= me.s.maxStreams
  }

  lemma Grown(s: Session, t: Session, sid: nat)
    requires t.streams.Keys == s.streams.Keys + {sid} && |s.streams| < s.maxStreams
    ensures |t.streams| <= s.maxStreams
  {
    assert |t.streams.Keys| <= |s.streams.Keys| + 1;
    assert |t.streams| == |t.streams.Keys| && |s.streams| == |s.streams.Keys|;
  }

  lemma OpenTable(me: Party)
    requires TableOk(me) && Opens(me, Open)
    ensures TableOk(DoOpen(me)) && DoOpen(me).s.nextStreamId == me.s.nextStreamId + 2
    ensures DoOpen(me).s.streams.Keys == me.s.streams.Keys + {me.s.nextStreamId}
    ensures DoOpen(me).s.parity == me.s.parity && DoOpen(me).s.maxStreams == me.s.maxStreams
  {
    Grown(me.s, DoOpen(me).s, me.s.nextStreamId);
  }

  lemma ActTable(me: Party, peer: Party, a: Action, now: nat)
    requires me.s.ack.Valid() && |peer.log| <= U64 && TableOk(me)
    ensures var v := Act(me, peer, a, now);
      && TableOk(v) && v.s.streams.Keys == KeysAfter(me, peer, a)
      && v.s.parity == me.s.parity && v.s.maxStreams == me.s.maxStreams
      && v.s.nextStreamId == me.s.nextStreamId + (if Opens(me, a) then 2 else 0)
  {
    hide Act;
    var v := Act(me, peer, a, now);
    if Opens(me, a) {
      OpenTable(me);
      OpenIs(me, peer, now);
    } else if TakesIn(me, peer, a) {
      DeliverKeys(me, peer, a, now);
      SameTable(me, peer, a, v);
    } else {
      OtherKeys(me, peer, a, now);
      assert |v.s.streams| == |v.s.streams.Keys| == |me.s.streams.Keys| == |me.s.streams|;
    }
  }

  lemma OpenIs(me: Party, peer: Party, now: nat)
    requires me.s.ack.Valid() && |peer.log| <= U64
    ensures Act(me, peer, Open, now) == DoOpen(me)
  {}

  lemma SameTable(me: Party, peer: Party, a: Action, v: Party)
    requires TableOk(me) && TakesIn(me, peer, a)
    requires v.s.parity == me.s.parity && v.s.maxStreams == me.s.maxStreams && v.s.nextStreamId == me.s.nextStreamId
    requires v.s.streams.Keys == KeysAfter(me, peer, a)
    ensures TableOk(v)
  {
    if v.s.streams.Keys != me.s.streams.Keys {
      Grown(me.s, v.s, peer.log[a.pn].frame.sid);
    } else {
      assert |v.s.streams| == |v.s.streams.Keys| == |me.s.streams.Keys| == |me.s.streams|;
    }
  }

  // ---- Over whole runs ----

  // How many streams this party has opened.
  ghost function OpenedBefore(r: Trace, client: bool, n: nat): nat
    requires n <= |r.steps| && |r.worlds| == |r.steps| + 1
  {
    if n == 0 then 0
    else if r.steps[n - 1].byClient == client && Opens(Of(r.worlds[n - 1], client), r.steps[n - 1].action) then
      OpenedBefore(r, client, n - 1) + 1
    else OpenedBefore(r, client, n - 1)
  }

  // A frame of this stream has been taken in while there was room.
  ghost predicate Joined(r: Trace, client: bool, n: nat, sid: nat)
    requires n <= |r.steps| && |r.worlds| == |r.steps| + 1
  {
    n > 0 && (Joined(r, client, n - 1, sid) || (r.steps[n - 1].byClient == client &&
      Joins(Of(r.worlds[n - 1], client), Of(r.worlds[n - 1], !client), r.steps[n - 1].action, sid)))
  }

  // What the table is after n steps.
  ghost predicate Explained(r: Trace, c: nat, s: nat, client: bool, n: nat)
    requires n < |r.worlds| && |r.worlds| == |r.steps| + 1
  {
    var me := Of(r.worlds[n], client);
    && me.s.parity == (if client then 1 else 0) && me.s.maxStreams == (if client then c else s)
    && TableOk(me) && me.s.nextStreamId == 2 - me.s.parity + 2 * OpenedBefore(r, client, n)
    && forall sid: nat | sid % 2 != me.s.parity :: sid in me.s.streams <==> Joined(r, client, n, sid)
  }

  lemma KeysMove(me: Party, peer: Party, a: Action, v: Party, sid: nat)
    requires v.s.streams.Keys == KeysAfter(me, peer, a) && sid % 2 != me.s.parity && TableOk(me)
    ensures sid in v.s.streams <==> sid in me.s.streams || Joins(me, peer, a, sid)
  {}

  lemma MoveIds(w: World, v: World, t: Step, client: bool)
    requires Inv(w.client, w.server) && Moves(w, v, t) && t.byClient == client && TableOk(Of(w, client))
    ensures var me, peer, x := Of(w, client), Of(w, !client), Of(v, client).s;
      && TableOk(Of(v, client)) && x.streams.Keys == KeysAfter(me, peer, t.action)
      && x.parity == me.s.parity && x.maxStreams == me.s.maxStreams
      && x.nextStreamId == me.s.nextStreamId + (if Opens(me, t.action) then 2 else 0)
  {
    hide Act, KeysAfter, Inv, TableOk;
    InvOf(w, client);
    InvFacts(Of(w, client), Of(w, !client));
    ActTable(Of(w, client), Of(w, !client), t.action, t.now);
  }

  lemma MoveOther(w: World, v: World, t: Step, client: bool)
    requires Inv(w.client, w.server) && Moves(w, v, t) && t.byClient != client
    ensures Of(v, client) == Of(w, client)
  {}

  lemma MoveTable(r: Trace, c: nat, s: nat, client: bool, n: nat)
    requires 0 < n < |r.worlds| && |r.worlds| == |r.steps| + 1 && Explained(r, c, s, client, n - 1)
    requires Inv(r.worlds[n - 1].client, r.worlds[n - 1].server) && Moves(r.worlds[n - 1], r.worlds[n], r.steps[n - 1])
    ensures Explained(r, c, s, client, n)
  {
    hide Moves, Inv, KeysAfter, Joins, TableOk, Opens;
    var w, t := r.worlds[n - 1], r.steps[n - 1];
    var me, peer, v := Of(w, client), Of(w, !client), Of(r.worlds[n], client);
    if t.byClient == client {
      MoveIds(w, r.worlds[n], t, client);
      forall sid: nat | sid % 2 != me.s.parity ensures sid in v.s.streams <==> Joined(r, client, n, sid) {
        KeysMove(me, peer, t.action, v, sid);
      }
    } else {
      MoveOther(w, r.worlds[n], t, client);
    }
  }

  // In every run a session's table holds exactly the streams it opened, numbered in turn from its first id, and those
  // of its peer of which a frame was taken in while there was room; never more than the cap.
  lemma {:induction false} TableExactly(r: Trace, c: nat, s: nat, n: nat, client: bool)
    requires IsRun(r, c, s) && n < |r.worlds|
    ensures Explained(r, c, s, client, n)
  {
    hide Moves, Inv, Explained;
    if n == 0 {
      StartTable(r, c, s, client);
    } else {
      TableExactly(r, c, s, n - 1, client);
      RunInv(r, c, s, n - 1);
      StepOf(r, c, s, n - 1);
      MoveTable(r, c, s, client, n);
    }
  }

  lemma StartTable(r: Trace, c: nat, s: nat, client: bool)
    requires IsRun(r, c, s)
    ensures Explained(r, c, s, client, 0)
  {}

  // In every run opening a stream succeeds exactly below the cap, and then adds one fresh stream under the next id.
  lemma OpenExactly(r: Trace, c: nat, s: nat, n: nat, client: bool)
    requires IsRun(r, c, s) && n < |r.worlds|
    ensures var me := Of(r.worlds[n], client).s;
      var (t, id) := me.Open();
      && (id.Some? <==> |me.streams| < if client then c else s) && (id.None? ==> t == me)
      && (id.Some? ==>
        && id.value == (if client then 1 else 2) + 2 * OpenedBefore(r, client, n) && id.value !in me.streams
        && t.streams == me.streams[id.value := Stream.New()])
  {
    TableExactly(r, c, s, n, client);
  }
}
