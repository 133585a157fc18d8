// RACK loss detection. Times and windows are nanoseconds, smoothed RTTs microseconds.
module Rack {
  import opened Options
  import opened Arq

  const MIN_WINDOW: nat := 1_000_000
  const INITIAL_WINDOW: nat := 5_000_000

  type Lost<T> = (nat, T, nat)  // packet number, data, size

  // The late entries, and the others, in packet-number order.
  function LateOf<T>(e: seq<Entry<T>>, late: Entry<T> -> bool): seq<Entry<T>> {
    if e == [] then [] else (if late(e[0]) then [e[0]] else []) + LateOf(e[1..], late)
  }

  function OnTime<T>(e: seq<Entry<T>>, late: Entry<T> -> bool): seq<Entry<T>> {
    if e == [] then [] else (if late(e[0]) then [] else [e[0]]) + OnTime(e[1..], late)
  }

  function Report<T>(e: seq<Entry<T>>): seq<Lost<T>> {
    seq(|e|, i requires 0 <= i < |e| => (e[i].0, e[i].1.data, e[i].1.size))
  }

  datatype RackState<T> = RackState(
    entries: seq<Entry<T>>, xmit: Option<nat>, endSeq: nat, window: nat, srtt: nat, rttvar: nat)
  {
    // Sent more than the reorder window before the reference packet, and numbered below it.
    predicate Overdue(x: Entry<T>) {
      xmit.Some? && window <= xmit.value && x.0 < endSeq && x.1.sentAt < xmit.value - window
    }

    function OnSent(pn: nat, data: T, size: nat, now: nat): RackState<T> {
      this.(entries := Put(entries, pn, InFlight(data, size, now, 0)))
    }

    function UpdateRtt(us: nat): RackState<T> {
      if srtt == 0 then this.(srtt := us, rttvar := us / 2)
      else this.(srtt := 7 * srtt / 8 + us / 8, rttvar := 3 * rttvar / 4 + AbsDiff(srtt, us) / 4)
    }

    function Rewindow(): RackState<T> {
      if srtt > 0 then this.(window := if srtt / 4 * 1000 < MIN_WINDOW then MIN_WINDOW else srtt / 4 * 1000) else this
    }

    // The state after the acknowledged packet is taken out, before losses are looked for.
    function Acked(pn: nat, f: InFlight<T>, now: nat): RackState<T> {
      var a := this.(entries := Drop(entries, pn));
      var b := if pn >= endSeq then a.(endSeq := pn, xmit := Some(f.sentAt)) else a;
      var rtt := if now < f.sentAt then 0 else now - f.sentAt;
      (if f.retransmits == 0 then b.UpdateRtt(rtt / 1000) else b).Rewindow()
    }

    function DetectLosses(): (RackState<T>, seq<Lost<T>>) {
      (this.(entries := OnTime(entries, x => Overdue(x))), Report(LateOf(entries, x => Overdue(x))))
    }

    function OnAck(pn: nat, now: nat): (RackState<T>, seq<Lost<T>>) {
      var f := Find(entries, pn);
      if f.None? then (this, []) else Acked(pn, f.value, now).DetectLosses()
    }

    function DetectTailLoss(pto: nat, now: nat): (RackState<T>, seq<Lost<T>>) {
      var late := (x: Entry<T>) => now > x.1.sentAt && now - x.1.sentAt > pto;
      (this.(entries := OnTime(entries, late)), Report(LateOf(entries, late)))
    }
  }

  function Initial<T>(): RackState<T> { RackState([], None, 0, INITIAL_WINDOW, 0, 0) }

  // ---- Filters ----

  lemma {:induction false} OnTimeFacts<T(!new)>(e: seq<Entry<T>>, late: Entry<T> -> bool)
    requires Ascending(e)
    ensures Ascending(OnTime(e, late))
    ensures forall x :: x in OnTime(e, late) <==> x in e && !late(x)
  {
    if e != [] {
      AscendingTail(e);
      OnTimeFacts(e[1..], late);
      if !late(e[0]) { AscendingCons(e[0], OnTime(e[1..], late)); }
    }
  }

  lemma {:induction false} LateFacts<T(!new)>(e: seq<Entry<T>>, late: Entry<T> -> bool)
    ensures forall x :: x in LateOf(e, late) <==> x in e && late(x)
  {
    if e != [] {
      LateFacts(e[1..], late);
      assert e == [e[0]] + e[1..];
    }
  }

  // ---- Every run ----

  // A tracker with its history: when each packet was sent, and which were acknowledged or declared lost.
  datatype World<T> = World(r: RackState<T>, sent: seq<nat>, acked: set<nat>, lost: set<nat>)

  datatype Event<T> = Send(data: T, size: nat, at: nat) | Ack(pn: nat, at: nat) | Tail(pto: nat, at: nat)

  ghost function Numbers<T>(l: seq<Lost<T>>): set<nat> { set i | 0 <= i < |l| :: l[i].0 }

  // Packets are numbered in the order they are sent.
  ghost function Next<T>(w: World<T>, e: Event<T>): World<T> {
    match e
    case Send(data, size, at) => w.(r := w.r.OnSent(|w.sent|, data, size, at), sent := w.sent + [at])
    case Ack(pn, at) =>
      var (r, l) := w.r.OnAck(pn, at);
      w.(r := r, acked := if Find(w.r.entries, pn).Some? then w.acked + {pn} else w.acked, lost := w.lost + Numbers(l))
    case Tail(pto, at) =>
      var (r, l) := w.r.DetectTailLoss(pto, at);
      w.(r := r, lost := w.lost + Numbers(l))
  }

  ghost function After<T>(events: seq<Event<T>>): World<T> {
    if events == [] then World(Initial(), [], {}, {}) else Next(After(events[..|events| - 1]), events[|events| - 1])
  }

  // The entries carry their send times; nothing is retransmitted under its old number.
  ghost predicate Timed<T(!new)>(entries: seq<Entry<T>>, sent: seq<nat>) {
    Ascending(entries) && forall x | x in entries :: x.0 < |sent| && x.1.sentAt == sent[x.0] && x.1.retransmits == 0
  }

  // Each packet is in exactly one place.
  ghost predicate Placed<T>(entries: seq<Entry<T>>, acked: set<nat>, lost: set<nat>, pn: nat) {
    || (HasKey(entries, pn) && pn !in acked && pn !in lost)
    || (!HasKey(entries, pn) && pn in acked && pn !in lost)
    || (!HasKey(entries, pn) && pn !in acked && pn in lost)
  }

  ghost predicate Partition<T>(entries: seq<Entry<T>>, sent: seq<nat>, acked: set<nat>, lost: set<nat>) {
    && (forall pn: nat | pn < |sent| :: Placed(entries, acked, lost, pn))
    && (forall pn | pn in acked || pn in lost :: pn < |sent|)
  }

  // The reference packet is the highest acknowledged one.
  ghost predicate Referenced<T>(r: RackState<T>, sent: seq<nat>, acked: set<nat>) {
    && (r.xmit.None? ==> acked == {} && r.endSeq == 0)
    && (r.xmit.Some? ==> r.endSeq in acked && r.endSeq < |sent| && sent[r.endSeq] == r.xmit.value)
    && (forall a | a in acked :: a <= r.endSeq)
  }

  // m is the highest acknowledged packet.
  ghost predicate Highest(acked: set<nat>, m: nat) { m in acked && forall a | a in acked :: a <= m }

  // Packet k was sent more than the window before the highest acknowledged packet, which has a higher number.
  ghost predicate Behind(sent: seq<nat>, acked: set<nat>, window: nat, k: nat) {
    exists m | m in acked :: Highest(acked, m) && k < m < |sent| && sent[k] + window < sent[m]
  }

  // No packet still in flight is behind.
  ghost predicate NoneBehind<T(!new)>(w: World<T>) {
    forall k: nat | HasKey(w.r.entries, k) :: !Behind(w.sent, w.acked, w.r.window, k)
  }

  // Once there is an estimate the window is a quarter of it, and at least a millisecond.
  ghost predicate WindowFits<T>(r: RackState<T>) {
    && (r.srtt > 0 ==> r.window == (if r.srtt / 4 * 1000 < MIN_WINDOW then MIN_WINDOW else r.srtt / 4 * 1000))
    && (r.xmit.None? ==> r.window == INITIAL_WINDOW && r.srtt == 0)
  }

  ghost predicate Inv<T(!new)>(w: World<T>) {
    && Timed(w.r.entries, w.sent) && Partition(w.r.entries, w.sent, w.acked, w.lost)
    && Referenced(w.r, w.sent, w.acked) && NoneBehind(w) && WindowFits(w.r)
  }

  // The test on the table is the one on the send times.
  lemma OverdueIs<T(!new)>(r: RackState<T>, sent: seq<nat>, acked: set<nat>, x: Entry<T>)
    requires Referenced(r, sent, acked) && x.0 < |sent| && x.1.sentAt == sent[x.0]
    ensures r.Overdue(x) <==> Behind(sent, acked, r.window, x.0)
  {
    if r.xmit.Some? { assert Highest(acked, r.endSeq); }
    if Behind(sent, acked, r.window, x.0) {
      var m :| m in acked && Highest(acked, m) && x.0 < m < |sent| && sent[x.0] + r.window < sent[m];
      assert m == r.endSeq;
    }
  }

  lemma HasKeyOf<T(!new)>(e: seq<Entry<T>>, x: Entry<T>)
    requires x in e
    ensures HasKey(e, x.0)
  {
    var i :| 0 <= i < |e| && e[i] == x;
  }

  lemma KeyOf<T(!new)>(e: seq<Entry<T>>, pn: nat) returns (x: Entry<T>)
    requires HasKey(e, pn)
    ensures x in e && x.0 == pn
  {
    var i :| 0 <= i < |e| && e[i].0 == pn;
    x := e[i];
  }

  lemma OneEntry<T(!new)>(e: seq<Entry<T>>, x: Entry<T>, y: Entry<T>)
    requires Ascending(e) && x in e && y in e && x.0 == y.0
    ensures x == y
  {
    var i :| 0 <= i < |e| && e[i] == x;
    var j :| 0 <= j < |e| && e[j] == y;
  }

  // ---- Sending ----

  lemma SendKeys<T(!new)>(e: seq<Entry<T>>, pn: nat, f: InFlight<T>, k: nat)
    requires Ascending(e)
    ensures HasKey(Put(e, pn, f), k) <==> HasKey(e, k) || k == pn
  {
    PutFacts(e, pn, f);
    if HasKey(Put(e, pn, f), k) {
      var x := KeyOf(Put(e, pn, f), k);
      if x in e { HasKeyOf(e, x); }
    }
    if HasKey(e, k) && k != pn { var x := KeyOf(e, k); HasKeyOf(Put(e, pn, f), x); }
    if k == pn { HasKeyOf(Put(e, pn, f), (pn, f)); }
  }

  lemma SendInv<T(!new)>(w: World<T>, data: T, size: nat, at: nat)
    requires Inv(w)
    ensures Inv(Next(w, Send(data, size, at)))
  {
    var v := Next(w, Send(data, size, at));
    var f := InFlight(data, size, at, 0);
    PutFacts(w.r.entries, |w.sent|, f);
    forall pn: nat | pn < |v.sent| ensures Placed(v.r.entries, v.acked, v.lost, pn) {
      SendKeys(w.r.entries, |w.sent|, f, pn);
      if pn < |w.sent| {
        assert Placed(w.r.entries, w.acked, w.lost, pn);
      } else {
        NoKeyAbove(w.r.entries, w.sent, pn);
      }
    }
    forall k: nat | HasKey(v.r.entries, k) ensures !Behind(v.sent, v.acked, v.r.window, k) {
      SendKeys(w.r.entries, |w.sent|, f, k);
      SendBehind(w.sent, w.acked, w.r.window, at, k);
    }
  }

  lemma SendBehind(sent: seq<nat>, acked: set<nat>, window: nat, at: nat, k: nat)
    requires forall a | a in acked :: a < |sent|
    ensures Behind(sent + [at], acked, window, k) <==> k < |sent| && Behind(sent, acked, window, k)
  {
    if Behind(sent + [at], acked, window, k) {
      var m :| m in acked && Highest(acked, m) && k < m < |sent| + 1 &&
        (sent + [at])[k] + window < (sent + [at])[m];
      assert sent[k] + window < sent[m];
    }
    if k < |sent| && Behind(sent, acked, window, k) {
      var m :| m in acked && Highest(acked, m) && k < m < |sent| && sent[k] + window < sent[m];
      assert (sent + [at])[k] + window < (sent + [at])[m];
    }
  }

  lemma NoKeyAbove<T(!new)>(e: seq<Entry<T>>, sent: seq<nat>, pn: nat)
    requires Timed(e, sent) && pn >= |sent|
    ensures !HasKey(e, pn)
  {
    if HasKey(e, pn) { var x := KeyOf(e, pn); assert false; }
  }

  // ---- Declaring packets lost ----

  lemma LateNumbers<T(!new)>(e: seq<Entry<T>>, late: Entry<T> -> bool, pn: nat)
    ensures pn in Numbers(Report(LateOf(e, late))) <==> exists x :: x in e && late(x) && x.0 == pn
  {
    var l := LateOf(e, late);
    LateFacts(e, late);
    if pn in Numbers(Report(l)) {
      var i :| 0 <= i < |l| && l[i].0 == pn;
      assert l[i] in l;
    }
    if x :| x in e && late(x) && x.0 == pn {
      var i :| 0 <= i < |l| && l[i] == x;
      assert Report(l)[i].0 == pn;
    }
  }

  lemma OnTimeKeys<T(!new)>(e: seq<Entry<T>>, late: Entry<T> -> bool, x: Entry<T>)
    requires Ascending(e) && x in e
    ensures HasKey(OnTime(e, late), x.0) <==> !late(x)
  {
    OnTimeFacts(e, late);
    if HasKey(OnTime(e, late), x.0) {
      var y := KeyOf(OnTime(e, late), x.0);
      OneEntry(e, x, y);
    }
    if !late(x) { HasKeyOf(OnTime(e, late), x); }
  }

  lemma LatePlaced<T(!new)>(e: seq<Entry<T>>, sent: seq<nat>, acked: set<nat>, lost: set<nat>, late: Entry<T> -> bool,
          pn: nat)
    requires Timed(e, sent) && Placed(e, acked, lost, pn)
    ensures Placed(OnTime(e, late), acked, lost + Numbers(Report(LateOf(e, late))), pn)
  {
    LateNumbers(e, late, pn);
    OnTimeFacts(e, late);
    if HasKey(e, pn) {
      var x := KeyOf(e, pn);
      OnTimeKeys(e, late, x);
      if pn in Numbers(Report(LateOf(e, late))) {
        var y :| y in e && late(y) && y.0 == pn;
        OneEntry(e, x, y);
      }
    } else {
      if HasKey(OnTime(e, late), pn) { var x := KeyOf(OnTime(e, late), pn); HasKeyOf(e, x); }
      if x :| x in e && late(x) && x.0 == pn { HasKeyOf(e, x); }
    }
  }

  // Taking the late entries out and calling them lost keeps every packet in one place.
  lemma LatePartition<T(!new)>(e: seq<Entry<T>>, sent: seq<nat>, acked: set<nat>, lost: set<nat>,
        late: Entry<T> -> bool)
    requires Timed(e, sent) && Partition(e, sent, acked, lost)
    ensures Timed(OnTime(e, late), sent)
    ensures Partition(OnTime(e, late), sent, acked, lost + Numbers(Report(LateOf(e, late))))
  {
    OnTimeFacts(e, late);
    var lost' := lost + Numbers(Report(LateOf(e, late)));
    forall pn: nat | pn < |sent| ensures Placed(OnTime(e, late), acked, lost', pn) {
      LatePlaced(e, sent, acked, lost, late, pn);
    }
    forall pn | pn in lost' ensures pn < |sent| { LateNumbers(e, late, pn); }
  }

  lemma TailInv<T(!new)>(w: World<T>, pto: nat, at: nat)
    requires Inv(w)
    ensures Inv(Next(w, Tail(pto, at)))
  {
    var late := (x: Entry<T>) => at > x.1.sentAt && at - x.1.sentAt > pto;
    LatePartition(w.r.entries, w.sent, w.acked, w.lost, late);
    OnTimeFacts(w.r.entries, late);
    forall k: nat | HasKey(OnTime(w.r.entries, late), k) ensures HasKey(w.r.entries, k) {
      var x := KeyOf(OnTime(w.r.entries, late), k);
      HasKeyOf(w.r.entries, x);
    }
  }

  // ---- Acknowledging ----

  lemma DropKeys<T(!new)>(e: seq<Entry<T>>, pn: nat, k: nat)
    requires Ascending(e)
    ensures HasKey(Drop(e, pn), k) <==> HasKey(e, k) && k != pn
  {
    DropFacts(e, pn);
    if HasKey(Drop(e, pn), k) { var x := KeyOf(Drop(e, pn), k); HasKeyOf(e, x); }
    if HasKey(e, k) && k != pn { var x := KeyOf(e, k); HasKeyOf(Drop(e, pn), x); }
  }

  lemma AckPartition<T(!new)>(e: seq<Entry<T>>, sent: seq<nat>, acked: set<nat>, lost: set<nat>, pn: nat)
    requires Timed(e, sent) && Partition(e, sent, acked, lost) && HasKey(e, pn)
    ensures Timed(Drop(e, pn), sent) && Partition(Drop(e, pn), sent, acked + {pn}, lost) && pn < |sent|
  {
    DropFacts(e, pn);
    var x := KeyOf(e, pn);
    forall k: nat | k < |sent| ensures Placed(Drop(e, pn), acked + {pn}, lost, k) {
      DropKeys(e, pn, k);
      assert Placed(e, acked, lost, k);
    }
  }

  // The parts of the state that taking out the acknowledged packet touches.
  lemma AckedIs<T(!new)>(r: RackState<T>, pn: nat, f: InFlight<T>, now: nat)
    ensures var a := r.Acked(pn, f, now);
      && a.entries == Drop(r.entries, pn)
      && (pn >= r.endSeq ==> a.endSeq == pn && a.xmit == Some(f.sentAt))
      && (pn < r.endSeq ==> a.endSeq == r.endSeq && a.xmit == r.xmit)
      && (a.srtt > 0 ==> WindowFits(a.(xmit := Some(0))))
  {}

  lemma AckReferenced<T(!new)>(r: RackState<T>, sent: seq<nat>, acked: set<nat>, pn: nat, f: InFlight<T>, now: nat)
    requires Referenced(r, sent, acked) && pn < |sent| && f.sentAt == sent[pn]
    ensures Referenced(r.Acked(pn, f, now), sent, acked + {pn})
  {
    AckedIs(r, pn, f, now);
  }

  // What DetectLosses leaves is not behind.
  lemma DetectInv<T(!new)>(a: RackState<T>, sent: seq<nat>, acked: set<nat>, lost: set<nat>)
    requires Timed(a.entries, sent) && Partition(a.entries, sent, acked, lost) && Referenced(a, sent, acked)
    requires WindowFits(a)
    ensures var (r, l) := a.DetectLosses(); Inv(World(r, sent, acked, lost + Numbers(l)))
  {
    var late := (x: Entry<T>) => a.Overdue(x);
    assert a.DetectLosses() == (a.(entries := OnTime(a.entries, late)), Report(LateOf(a.entries, late)));
    LatePartition(a.entries, sent, acked, lost, late);
    OnTimeFacts(a.entries, late);
    var r := a.DetectLosses().0;
    forall k: nat | HasKey(r.entries, k) ensures !Behind(sent, acked, r.window, k) {
      var x := KeyOf(r.entries, k);
      OverdueIs(a, sent, acked, x);
    }
  }

  lemma FoundEntry<T(!new)>(e: seq<Entry<T>>, sent: seq<nat>, pn: nat)
    requires Timed(e, sent) && Find(e, pn).Some?
    ensures HasKey(e, pn) && pn < |sent| && Find(e, pn).value.sentAt == sent[pn] && Find(e, pn).value.retransmits == 0
  {
    FindFacts(e, pn);
  }

  lemma AckInv<T(!new)>(w: World<T>, pn: nat, at: nat)
    requires Inv(w)
    ensures Inv(Next(w, Ack(pn, at)))
  {
    var f := Find(w.r.entries, pn);
    if f.Some? {
      FoundEntry(w.r.entries, w.sent, pn);
      AckPartition(w.r.entries, w.sent, w.acked, w.lost, pn);
      AckedIs(w.r, pn, f.value, at);
      AckReferenced(w.r, w.sent, w.acked, pn, f.value, at);
      DetectInv(w.r.Acked(pn, f.value, at), w.sent, w.acked + {pn}, w.lost);
    } else {
      assert w.lost + Numbers<T>([]) == w.lost;
    }
  }

  // ---- The results ----

  // In every run each packet sent is in flight, acknowledged or lost, never two of these,
  // and no packet in flight meets the loss criterion.
  lemma {:induction false} RunInv<T(!new)>(events: seq<Event<T>>)
    ensures Inv(After(events))
  {
    if events != [] {
      RunInv(events[..|events| - 1]);
      var w, e := After(events[..|events| - 1]), events[|events| - 1];
      match e {
        case Send(data, size, at) => SendInv(w, data, size, at);
        case Ack(pn, at) => AckInv(w, pn, at);
        case Tail(pto, at) => TailInv(w, pto, at);
      }
    }
  }

  // A packet that an acknowledgement declares lost has an acknowledged packet of higher number
  // that was sent more than the reorder window after it.
  lemma LossIsJustified<T(!new)>(events: seq<Event<T>>, pn: nat, at: nat, k: nat)
    requires k < |After(events).r.OnAck(pn, at).1|
    ensures var w := After(events);
      var v, l := Next(w, Ack(pn, at)), w.r.OnAck(pn, at).1[k];
      && l.0 < v.r.endSeq < |v.sent| && v.r.endSeq in v.acked && l.0 !in v.acked
      && v.sent[l.0] + v.r.window < v.sent[v.r.endSeq]
  {
    RunInv(events);
    RunInv(events + [Ack(pn, at)]);
    assert (events + [Ack(pn, at)])[..|events|] == events;
    Justified(After(events), pn, at, k);
  }

  lemma Justified<T(!new)>(w: World<T>, pn: nat, at: nat, k: nat)
    requires Inv(w) && Inv(Next(w, Ack(pn, at))) && k < |w.r.OnAck(pn, at).1|
    ensures var v, l := Next(w, Ack(pn, at)), w.r.OnAck(pn, at).1[k];
      && l.0 < v.r.endSeq < |v.sent| && v.r.endSeq in v.acked && l.0 !in v.acked
      && v.sent[l.0] + v.r.window < v.sent[v.r.endSeq]
  {
    var f := Find(w.r.entries, pn).value;
    var a := w.r.Acked(pn, f, at);
    var late := (x: Entry<T>) => a.Overdue(x);
    assert a.DetectLosses() == (a.(entries := OnTime(a.entries, late)), Report(LateOf(a.entries, late)));
    LateFacts(a.entries, late);
    var x := LateOf(a.entries, late)[k];
    assert x in LateOf(a.entries, late);
    AckedIs(w.r, pn, f, at);
    DropFacts(w.r.entries, pn);
    assert x.0 in Numbers(w.r.OnAck(pn, at).1) by { assert w.r.OnAck(pn, at).1[k].0 == x.0; }
    assert Placed(Next(w, Ack(pn, at)).r.entries, Next(w, Ack(pn, at)).acked, Next(w, Ack(pn, at)).lost, x.0);
  }

  // In every run, an acknowledgement declares lost exactly the packets in flight that it leaves behind.
  lemma LostExactly<T(!new)>(events: seq<Event<T>>, pn: nat, at: nat, k: nat)
    requires HasKey(After(events).r.entries, k) && k != pn
    ensures var v := Next(After(events), Ack(pn, at)); k in v.lost <==> Behind(v.sent, v.acked, v.r.window, k)
  {
    RunInv(events);
    AckInv(After(events), pn, at);
    LostIffBehind(After(events), pn, at, k);
  }

  lemma LostIffBehind<T(!new)>(w: World<T>, pn: nat, at: nat, k: nat)
    requires Inv(w) && Inv(Next(w, Ack(pn, at))) && HasKey(w.r.entries, k) && k != pn
    ensures var v := Next(w, Ack(pn, at)); k in v.lost <==> Behind(v.sent, v.acked, v.r.window, k)
  {
    var v := Next(w, Ack(pn, at));
    var x := KeyOf(w.r.entries, k);
    assert Placed(w.r.entries, w.acked, w.lost, k) && Placed(v.r.entries, v.acked, v.lost, k);
    var f := Find(w.r.entries, pn);
    if f.Some? && k in v.lost {
      var a := w.r.Acked(pn, f.value, at);
      var late := (y: Entry<T>) => a.Overdue(y);
      assert a.DetectLosses() == (a.(entries := OnTime(a.entries, late)), Report(LateOf(a.entries, late)));
      LateNumbers(a.entries, late, k);
      var y :| y in a.entries && late(y) && y.0 == k;
      AckedIs(w.r, pn, f.value, at);
      DropFacts(w.r.entries, pn);
      FoundEntry(w.r.entries, w.sent, pn);
      AckReferenced(w.r, w.sent, w.acked, pn, f.value, at);
      OverdueIs(a, w.sent, w.acked + {pn}, y);
    }
  }

  // In every run, the probe timeout declares lost exactly the packets in flight sent more than the timeout ago.
  lemma TailLostExactly<T(!new)>(events: seq<Event<T>>, pto: nat, at: nat, k: nat)
    requires HasKey(After(events).r.entries, k)
    ensures var w, v := After(events), Next(After(events), Tail(pto, at));
      k < |w.sent| && (k in v.lost <==> w.sent[k] + pto < at)
  {
    RunInv(events);
    var w := After(events);
    var late := (x: Entry<T>) => at > x.1.sentAt && at - x.1.sentAt > pto;
    var x := KeyOf(w.r.entries, k);
    LateNumbers(w.r.entries, late, k);
    assert Placed(w.r.entries, w.acked, w.lost, k);
    if y :| y in w.r.entries && late(y) && y.0 == k { OneEntry(w.r.entries, x, y); }
  }

  // ---- Smoothing ----

  function Smoothed(samples: seq<nat>): RackState<int> {
    if samples == [] then Initial() else Smoothed(samples[..|samples| - 1]).UpdateRtt(samples[|samples| - 1])
  }

  ghost function AsSamples(samples: seq<nat>): seq<RttEvent> {
    seq(|samples|, i requires 0 <= i < |samples| => Sample(samples[i]))
  }

  // The same estimates as the retransmission tracker makes of the same samples.
  lemma {:induction false} SmoothedIsRtt(samples: seq<nat>)
    ensures Smoothed(samples).srtt == RttAfter(AsSamples(samples)).srtt
    ensures Smoothed(samples).rttvar == RttAfter(AsSamples(samples)).rttvar
  {
    if samples != [] {
      var front := samples[..|samples| - 1];
      SmoothedIsRtt(front);
      assert AsSamples(samples)[..|samples| - 1] == AsSamples(front);
    }
  }

  // The round-trip times in microseconds that a run measures: one for each packet taken out by an acknowledgement.
  ghost function Samples<T>(events: seq<Event<T>>): seq<nat> {
    if events == [] then []
    else
      var front, last := events[..|events| - 1], events[|events| - 1];
      var w := After(front);
      if last.Ack? && Find(w.r.entries, last.pn).Some? && last.pn < |w.sent|
      then Samples(front) + [(if last.at < w.sent[last.pn] then 0 else last.at - w.sent[last.pn]) / 1000]
      else Samples(front)
  }

  lemma AckedEstimate<T(!new)>(r: RackState<T>, pn: nat, f: InFlight<T>, now: nat)
    requires f.retransmits == 0
    ensures var a, u := r.Acked(pn, f, now), r.UpdateRtt((if now < f.sentAt then 0 else now - f.sentAt) / 1000);
      a.srtt == u.srtt && a.rttvar == u.rttvar
  {}

  lemma SmoothedSnoc(samples: seq<nat>, us: nat, srtt: nat, rttvar: nat)
    requires Smoothed(samples).srtt == srtt && Smoothed(samples).rttvar == rttvar
    ensures var u := Initial<int>().(srtt := srtt, rttvar := rttvar).UpdateRtt(us);
      Smoothed(samples + [us]).srtt == u.srtt && Smoothed(samples + [us]).rttvar == u.rttvar
  {
    assert (samples + [us])[..|samples|] == samples;
  }

  lemma NoSamples<T(!new)>()
    ensures Initial<T>().srtt == Smoothed([]).srtt && Initial<T>().rttvar == Smoothed([]).rttvar
  {}

  // In every run the estimates are those of the measured round-trip times.
  lemma {:induction false} EstimateExactly<T(!new)>(events: seq<Event<T>>)
    ensures After(events).r.srtt == Smoothed(Samples(events)).srtt
    ensures After(events).r.rttvar == Smoothed(Samples(events)).rttvar
  {
    hide Next, Smoothed, Inv, Find;
    if events == [] {
      NoSamples<T>();
    } else {
      var front, last := events[..|events| - 1], events[|events| - 1];
      EstimateExactly(front);
      RunInv(front);
      EstimateStep(After(front), last, Samples(front));
    }
  }

  // Only an acknowledgement of a packet in flight changes the estimates.
  lemma NextEstimate<T(!new)>(w: World<T>, e: Event<T>)
    ensures var v := Next(w, e).r;
      if e.Ack? && Find(w.r.entries, e.pn).Some? then
        var a := w.r.Acked(e.pn, Find(w.r.entries, e.pn).value, e.at);
        v.srtt == a.srtt && v.rttvar == a.rttvar
      else v.srtt == w.r.srtt && v.rttvar == w.r.rttvar
  {
    hide RackState.Acked, RackState.UpdateRtt, RackState.Rewindow;
  }

  lemma EstimateStep<T(!new)>(w: World<T>, e: Event<T>, samples: seq<nat>)
    requires Inv(w) && w.r.srtt == Smoothed(samples).srtt && w.r.rttvar == Smoothed(samples).rttvar
    ensures var v := Next(w, e).r;
      if e.Ack? && Find(w.r.entries, e.pn).Some? && e.pn < |w.sent| then
        var us := (if e.at < w.sent[e.pn] then 0 else e.at - w.sent[e.pn]) / 1000;
        v.srtt == Smoothed(samples + [us]).srtt && v.rttvar == Smoothed(samples + [us]).rttvar
      else v.srtt == w.r.srtt && v.rttvar == w.r.rttvar
  {
    hide Next, Smoothed, RackState.Acked, Find;
    NextEstimate(w, e);
    if e.Ack? && Find(w.r.entries, e.pn).Some? {
      var f := Find(w.r.entries, e.pn).value;
      FoundEntry(w.r.entries, w.sent, e.pn);
      AckedEstimate(w.r, e.pn, f, e.at);
      SmoothedSnoc(samples, (if e.at < f.sentAt then 0 else e.at - f.sentAt) / 1000, w.r.srtt, w.r.rttvar);
    }
  }

  lemma SmoothedBounds(samples: seq<nat>, lo: nat, hi: nat)
    requires samples != [] && forall i | 0 <= i < |samples| :: lo <= samples[i] <= hi
    ensures lo <= Smoothed(samples).srtt + 7 && Smoothed(samples).srtt <= hi && Smoothed(samples).rttvar <= hi
  {
    SmoothedIsRtt(samples);
    var e := AsSamples(samples);
    RttBounds(e, lo, hi);
    assert e[0].Sample?;
  }

  // ---- The object ----

  function DropAll<T>(e: seq<Entry<T>>, keys: seq<nat>): seq<Entry<T>>
    decreases |keys|
  {
    if keys == [] then e else Drop(DropAll(e, keys[..|keys| - 1]), keys[|keys| - 1])
  }

  lemma {:induction false} DropAllFacts<T(!new)>(e: seq<Entry<T>>, keys: seq<nat>, x: Entry<T>)
    requires Ascending(e)
    ensures Ascending(DropAll(e, keys)) && (x in DropAll(e, keys) <==> x in e && x.0 !in keys)
    decreases |keys|
  {
    if keys != [] {
      var front, last := keys[..|keys| - 1], keys[|keys| - 1];
      DropAllFacts(e, front, x);
      DropFacts(DropAll(e, front), last);
      assert x.0 in keys <==> x.0 in front || x.0 == last;
    }
  }

  lemma {:induction false} NothingToDrop<T(!new)>(keys: seq<nat>)
    ensures DropAll<T>([], keys) == []
    decreases |keys|
  {
    if keys != [] { NothingToDrop<T>(keys[..|keys| - 1]); }
  }

  // Ascending tables with the same entries are equal.
  lemma {:induction false} SameEntries<T(!new)>(a: seq<Entry<T>>, b: seq<Entry<T>>)
    requires Ascending(a) && Ascending(b) && forall x :: x in a <==> x in b
    ensures a == b
  {
    if b != [] { assert b[0] in b; }
    if a != [] {
      assert a[0] in a;
      FirstEntry(a, b);
      AscendingTail(a);
      AscendingTail(b);
      SameEntries(a[1..], b[1..]);
      assert a == [a[0]] + a[1..] && b == [b[0]] + b[1..];
    }
  }

  lemma FirstEntry<T(!new)>(a: seq<Entry<T>>, b: seq<Entry<T>>)
    requires Ascending(a) && Ascending(b) && a != [] && b != [] && forall x :: x in a <==> x in b
    ensures a[0] == b[0]
  {
    assert a[0] in a && b[0] in b;
    var i :| 0 <= i < |b| && b[i] == a[0];
    var j :| 0 <= j < |a| && a[j] == b[0];
  }

  ghost predicate KeysOfLate<T(!new)>(e: seq<Entry<T>>, late: Entry<T> -> bool, keys: seq<nat>) {
    && |keys| == |LateOf(e, late)| && forall i | 0 <= i < |keys| :: keys[i] == LateOf(e, late)[i].0
  }

  lemma DroppedIsOnTime<T(!new)>(e: seq<Entry<T>>, late: Entry<T> -> bool, keys: seq<nat>)
    requires Ascending(e) && KeysOfLate(e, late, keys)
    ensures DropAll(e, keys) == OnTime(e, late)
  {
    OnTimeFacts(e, late);
    LateFacts(e, late);
    forall x | x in e ensures x.0 in keys <==> late(x) {
      if late(x) {
        var i :| 0 <= i < |LateOf(e, late)| && LateOf(e, late)[i] == x;
        assert keys[i] == x.0;
      }
      if x.0 in keys {
        var i :| 0 <= i < |keys| && keys[i] == x.0;
        assert LateOf(e, late)[i] in LateOf(e, late);
        OneEntry(e, x, LateOf(e, late)[i]);
      }
    }
    forall x: Entry<T>
      ensures Ascending(DropAll(e, keys)) && (x in DropAll(e, keys) <==> x in OnTime(e, late))
    {
      DropAllFacts(e, keys, x);
    }
    if e == [] { NothingToDrop<T>(keys); } else { DropAllFacts(e, keys, e[0]); }
    SameEntries(DropAll(e, keys), OnTime(e, late));
  }

  lemma {:induction false} LateSnoc<T(!new)>(e: seq<Entry<T>>, x: Entry<T>, late: Entry<T> -> bool)
    ensures LateOf(e + [x], late) == LateOf(e, late) + (if late(x) then [x] else [])
  {
    if e == [] {
      assert [x][1..] == [] && e + [x] == [x];
    } else {
      LateSnoc(e[1..], x, late);
      assert (e + [x])[1..] == e[1..] + [x];
    }
  }

  // The round-trip time measured by an acknowledgement, if the packet is in flight and was sent once.
  function Measured<T>(e: seq<Entry<T>>, pn: nat, now: nat): Option<nat> {
    var f := Find(e, pn);
    if f.Some? && f.value.retransmits == 0 then Some(if now < f.value.sentAt then 0 else now - f.value.sentAt) else None
  }

  class RackTracker<T(!new)> {
    var inFlight: seq<Entry<T>>
    var rackXmitTime: Option<nat>
    var rackEndSeq: nat
    var reorderWindow: nat
    var srttUs: nat
    var rttvarUs: nat

    ghost function View(): RackState<T>
      reads this
    {
      RackState(inFlight, rackXmitTime, rackEndSeq, reorderWindow, srttUs, rttvarUs)
    }

    constructor ()
      ensures View() == Initial()
    {
      inFlight, rackXmitTime, rackEndSeq, reorderWindow, srttUs, rttvarUs := [], None, 0, INITIAL_WINDOW, 0, 0;
    }

    method OnSent(pn: nat, data: T, size: nat, now: nat)
      modifies this`inFlight
      ensures View() == old(View()).OnSent(pn, data, size, now)
    {
      inFlight := Put(inFlight, pn, InFlight(data, size, now, 0));
    }

    // The late entries with their packet numbers.
    method CollectLate(late: Entry<T> -> bool) returns (lost: seq<Lost<T>>, keys: seq<nat>)
      ensures lost == Report(LateOf(inFlight, late)) && KeysOfLate(inFlight, late, keys)
    {
      lost, keys := [], [];
      for i := 0 to |inFlight|
        invariant lost == Report(LateOf(inFlight[..i], late)) && KeysOfLate(inFlight[..i], late, keys)
      {
        var x := inFlight[i];
        assert inFlight[..i + 1] == inFlight[..i] + [x];
        LateSnoc(inFlight[..i], x, late);
        if late(x) {
          lost := lost + [(x.0, x.1.data, x.1.size)];
          keys := keys + [x.0];
        }
      }
      assert inFlight[..|inFlight|] == inFlight;
    }

    // Collect the late entries, then remove them one by one.
    method RemoveLate(late: Entry<T> -> bool) returns (lost: seq<Lost<T>>)
      requires Ascending(inFlight)
      modifies this`inFlight
      ensures inFlight == OnTime(old(inFlight), late) && lost == Report(LateOf(old(inFlight), late))
    {
      hide LateOf, OnTime, Report, Drop;
      var keys: seq<nat>;
      lost, keys := CollectLate(late);
      DroppedIsOnTime(inFlight, late, keys);
      for i := 0 to |keys|
        invariant inFlight == DropAll(old(inFlight), keys[..i])
      {
        assert keys[..i + 1][..i] == keys[..i];
        inFlight := Drop(inFlight, keys[i]);
      }
      assert keys[..|keys|] == keys;
    }

    method DetectLosses() returns (lost: seq<Lost<T>>)
      requires Ascending(inFlight)
      modifies this`inFlight
      ensures (View(), lost) == old(View()).DetectLosses()
    {
      if rackXmitTime.None? || rackXmitTime.value < reorderWindow {
        NothingDetected(View());
        return [];
      }
      var end, threshold := rackEndSeq, rackXmitTime.value - reorderWindow;
      var late := (x: Entry<T>) => x.0 < end && x.1.sentAt < threshold;
      DetectIs(View(), late);
      lost := RemoveLate(late);
    }

    method UpdateRtt(us: nat)
      modifies this`srttUs, this`rttvarUs
      ensures View() == old(View()).UpdateRtt(us)
    {
      if srttUs == 0 {
        srttUs := us;
        rttvarUs := us / 2;
      } else {
        var diff := AbsDiff(srttUs, us);
        rttvarUs := 3 * rttvarUs / 4 + diff / 4;
        srttUs := 7 * srttUs / 8 + us / 8;
      }
    }

    // Take the acknowledged packet out and move the reference, the estimates and the window.
    method TakeAcked(pn: nat, f: InFlight<T>, now: nat)
      requires Ascending(inFlight)
      modifies this
      ensures View() == old(View()).Acked(pn, f, now)
    {
      inFlight := Drop(inFlight, pn);
      var rtt := if now < f.sentAt then 0 else now - f.sentAt;
      if pn >= rackEndSeq {
        rackEndSeq := pn;
        rackXmitTime := Some(f.sentAt);
      }
      if f.retransmits == 0 {
        UpdateRtt(rtt / 1000);
      }
      if srttUs > 0 {
        var frac := srttUs / 4 * 1000;
        reorderWindow := if frac < MIN_WINDOW then MIN_WINDOW else frac;
      }
    }

    method OnAck(pn: nat, now: nat) returns (sample: Option<nat>, lost: seq<Lost<T>>)
      requires Ascending(inFlight)
      modifies this
      ensures (View(), lost) == old(View()).OnAck(pn, now)
      ensures sample == old(Measured(inFlight, pn, now))
    {
      var f := Find(inFlight, pn);
      if f.None? {
        return None, [];
      }
      var rtt := if now < f.value.sentAt then 0 else now - f.value.sentAt;
      sample := if f.value.retransmits == 0 then Some(rtt) else None;
      DropFacts(inFlight, pn);
      AckedIs(View(), pn, f.value, now);
      TakeAcked(pn, f.value, now);
      lost := DetectLosses();
    }

    method DetectTailLoss(pto: nat, now: nat) returns (lost: seq<Lost<T>>)
      requires Ascending(inFlight)
      modifies this`inFlight
      ensures (View(), lost) == old(View()).DetectTailLoss(pto, now)
    {
      var late := (x: Entry<T>) => now > x.1.sentAt && now - x.1.sentAt > pto;
      SameVerdict(inFlight, late, (x: Entry<T>) => now > x.1.sentAt && now - x.1.sentAt > pto);
      lost := RemoveLate(late);
    }
  }

  lemma NothingDetected<T(!new)>(r: RackState<T>)
    requires r.xmit.None? || r.xmit.value < r.window
    ensures r.DetectLosses() == (r, [])
  {
    var never := (_: Entry<T>) => false;
    NothingLate(r.entries, never);
    DetectIs(r, never);
    assert Report<T>([]) == [];
  }

  lemma DetectIs<T(!new)>(r: RackState<T>, late: Entry<T> -> bool)
    requires forall x | x in r.entries :: late(x) == r.Overdue(x)
    ensures r.DetectLosses() == (r.(entries := OnTime(r.entries, late)), Report(LateOf(r.entries, late)))
  {
    SameVerdict(r.entries, late, x => r.Overdue(x));
  }

  lemma {:induction false} SameVerdict<T(!new)>(e: seq<Entry<T>>, a: Entry<T> -> bool, b: Entry<T> -> bool)
    requires forall x | x in e :: a(x) == b(x)
    ensures LateOf(e, a) == LateOf(e, b) && OnTime(e, a) == OnTime(e, b)
  {
    if e != [] { SameVerdict(e[1..], a, b); }
  }

  lemma {:induction false} NothingLate<T(!new)>(e: seq<Entry<T>>, late: Entry<T> -> bool)
    requires forall x | x in e :: !late(x)
    ensures LateOf(e, late) == [] && OnTime(e, late) == e
  {
    if e != [] { NothingLate(e[1..], late); }
  }
}
