// Exactly what is retransmitted and when, and what the estimates mean.
module ArqRuns {
  import opened Arq

  // ---- One round of retransmission ----

  // The deadline of an entry has passed.
  predicate Due<T>(x: Entry<T>, now: nat, rto: nat) { x.1.sentAt + rto <= now }

  lemma ExpiredIsDue<T>(x: Entry<T>, now: nat, rto: nat)
    ensures Expired(x, now, rto) <==> Due(x, now, rto)
  {}

  // Packet numbers ascend, so each occurs once.
  ghost predicate InOrder<T>(out: seq<(nat, T)>) { forall i, j | 0 <= i < j < |out| :: out[i].0 < out[j].0 }

  // out is what is due of e.
  ghost predicate Returns<T(!new)>(out: seq<(nat, T)>, e: seq<Entry<T>>, now: nat, rto: nat) {
    forall pn, data :: (pn, data) in out <==> exists x | x in e :: x.0 == pn && x.1.data == data && Due(x, now, rto)
  }

  lemma ReturnsCons<T(!new)>(x: Entry<T>, e: seq<Entry<T>>, out: seq<(nat, T)>, now: nat, rto: nat)
    requires Returns(out, e, now, rto)
    ensures Returns((if Due(x, now, rto) then [(x.0, x.1.data)] else []) + out, [x] + e, now, rto)
  {
    var all := (if Due(x, now, rto) then [(x.0, x.1.data)] else []) + out;
    forall pn, data
      ensures (pn, data) in all <==> exists y | y in [x] + e :: y.0 == pn && y.1.data == data && Due(y, now, rto)
    {
      if (pn, data) in out {
        var y :| y in e && y.0 == pn && y.1.data == data && Due(y, now, rto);
        assert y in [x] + e;
      }
      if y :| y in [x] + e && y.0 == pn && y.1.data == data && Due(y, now, rto) {
        if y in e { assert (pn, data) in out; }
      }
    }
  }

  lemma OrderCons<T(!new)>(x: (nat, T), out: seq<(nat, T)>)
    requires InOrder(out) && forall y | y in out :: x.0 < y.0
    ensures InOrder([x] + out)
  {
    forall j | 0 <= j < |out| ensures x.0 < out[j].0 { assert out[j] in out; }
  }

  lemma {:induction false} ExpiredExactly<T(!new)>(e: seq<Entry<T>>, now: nat, rto: nat)
    requires Ascending(e)
    ensures Returns(ExpiredOf(e, now, rto), e, now, rto) && InOrder(ExpiredOf(e, now, rto))
  {
    if e != [] {
      var rest := ExpiredOf(e[1..], now, rto);
      AscendingTail(e);
      ExpiredExactly(e[1..], now, rto);
      ExpiredIsDue(e[0], now, rto);
      assert e == [e[0]] + e[1..];
      ReturnsCons(e[0], e[1..], rest, now, rto);
      forall y | y in rest ensures e[0].0 < y.0 {
        assert (y.0, y.1) in rest;
        var x :| x in e[1..] && x.0 == y.0 && x.1.data == y.1 && Due(x, now, rto);
      }
      if Due(e[0], now, rto) { OrderCons((e[0].0, e[0].1.data), rest); } else { assert [] + rest == rest; }
    }
  }

  // The entry after the round.
  ghost predicate Restamped<T>(x: Entry<T>, y: Entry<T>, now: nat, rto: nat) {
    y == if Due(x, now, rto) then (x.0, x.1.(sentAt := now, retransmits := x.1.retransmits + 1)) else x
  }

  // A round returns exactly the packets whose deadline has passed, in number order, each once. Those and only those get
  // a new stamp and a higher count, afterwards no deadline has passed, and the timeout doubles once if there was one.
  lemma DrainExactly<T(!new)>(a: ArqState<T>, now: nat)
    requires Ascending(a.entries) && a.rtt.rto > 0
    ensures var (b, out) := a.DrainExpired(now);
      var rto := a.rtt.rto;
      && Returns(out, a.entries, now, rto) && InOrder(out)
      && |b.entries| == |a.entries|
      && (forall i | 0 <= i < |a.entries| :: Restamped(a.entries[i], b.entries[i], now, rto))
      && (forall i | 0 <= i < |b.entries| :: now < b.entries[i].1.sentAt + rto)
      && b.rtt == (if exists x | x in a.entries :: Due(x, now, rto) then a.rtt.Backoff() else a.rtt)
  {
    ExpiredExactly(a.entries, now, a.rtt.rto);
    var (b, out) := a.DrainExpired(now);
    forall i | 0 <= i < |a.entries| ensures Restamped(a.entries[i], b.entries[i], now, a.rtt.rto) {
      ExpiredIsDue(a.entries[i], now, a.rtt.rto);
    }
    if x :| x in a.entries && Due(x, now, a.rtt.rto) { assert (x.0, x.1.data) in out; }
    if out != [] {
      var y := out[0];
      assert (y.0, y.1) in out;
    }
  }

  // ---- The timeout ----

  function Double(n: nat): nat { if n == 0 then 1 else 2 * Double(n - 1) }

  // Timeouts since the last sample.
  function Timeouts(events: seq<RttEvent>): nat {
    if events == [] || events[|events| - 1].Sample? then 0 else Timeouts(events[..|events| - 1]) + 1
  }

  function SamplesOf(events: seq<RttEvent>): seq<nat> {
    if events == [] then []
    else
      SamplesOf(events[..|events| - 1]) +
      (if events[|events| - 1].Sample? then [events[|events| - 1].us] else [])
  }

  // The timeout without back-off: three tenths of a second, or the estimate and four deviations within its limits.
  function Base(samples: seq<nat>, srtt: nat, rttvar: nat): nat {
    if samples == [] then 300_000 else Clamp(srtt + 4 * rttvar)
  }

  function Capped(x: nat): nat { if x > MAX_RTO then MAX_RTO else x }

  lemma CappedTwice(base: nat, n: nat)
    ensures Capped(2 * Capped(base * Double(n))) == Capped(base * Double(n + 1))
  {
    assert base * Double(n + 1) == 2 * (base * Double(n));
  }

  lemma CappedOnce(base: nat)
    requires base <= MAX_RTO
    ensures Capped(base * Double(0)) == base
  {
    assert base * Double(0) == base;
  }

  // After any mix of samples and timeouts the timeout is the base, doubled once for each timeout since the last
  // sample, and capped.
  lemma {:induction false} TimeoutExactly(events: seq<RttEvent>)
    ensures var r := RttAfter(events);
      r.rto == Capped(Base(SamplesOf(events), r.srtt, r.rttvar) * Double(Timeouts(events)))
  {
    if events == [] {
      CappedOnce(300_000);
    } else {
      var front, last := events[..|events| - 1], events[|events| - 1];
      TimeoutExactly(front);
      var r := RttAfter(front);
      match last {
        case Sample(us) => CappedOnce(RttAfter(events).rto);
        case Timeout => CappedTwice(Base(SamplesOf(front), r.srtt, r.rttvar), Timeouts(front));
      }
    }
  }

  // ---- The estimates ----

  ghost function Eighth(m: real, s: nat): real { 0.875 * m + 0.125 * s as real }

  // The exponentially weighted mean of the samples, by eighths.
  ghost function Mean(samples: seq<nat>): real
    requires samples != []
  {
    var n := |samples| - 1;
    if n == 0 then samples[0] as real else Eighth(Mean(samples[..n]), samples[n])
  }

  function Gap(m: real, s: nat): real { if m < s as real then s as real - m else m - s as real }

  ghost function Quarter(d: real, gap: real): real { 0.75 * d + 0.25 * gap }

  // The mean deviation from it, by quarters.
  ghost function Deviation(samples: seq<nat>): real
    requires samples != []
  {
    var n := |samples| - 1;
    if n == 0 then 0.5 * samples[0] as real
    else Quarter(Deviation(samples[..n]), Gap(Mean(samples[..n]), samples[n]))
  }

  // The integer estimate is below the mean by less than 16.
  ghost predicate NearMean(srtt: nat, m: real) { m - 16.0 < srtt as real <= m }

  // The integer deviation is off by less than 24.
  ghost predicate NearDeviation(rttvar: nat, d: real) { d - 24.0 < rttvar as real <= d + 16.0 }

  lemma Eighths(srtt: nat, s: nat, m: real)
    requires NearMean(srtt, m)
    ensures NearMean(7 * srtt / 8 + s / 8, Eighth(m, s))
  {
    var a, b := 7 * srtt / 8, s / 8;
    assert 7 * srtt - 8 < 8 * a <= 7 * srtt && s - 8 < 8 * b <= s;
    assert 8.0 * (a + b) as real == (8 * a + 8 * b) as real;
    assert (7 * srtt + s - 16) as real < (8 * a + 8 * b) as real <= (7 * srtt + s) as real;
  }

  lemma GapNear(srtt: nat, s: nat, m: real)
    requires NearMean(srtt, m)
    ensures Gap(m, s) - 16.0 < AbsDiff(srtt, s) as real < Gap(m, s) + 16.0
  {}

  lemma Quarters(rttvar: nat, gap: nat, d: real, g: real)
    requires NearDeviation(rttvar, d) && g - 16.0 < gap as real < g + 16.0
    ensures NearDeviation(3 * rttvar / 4 + gap / 4, Quarter(d, g))
  {
    var a, b := 3 * rttvar / 4, gap / 4;
    assert 3 * rttvar - 4 < 4 * a <= 3 * rttvar && gap - 4 < 4 * b <= gap;
    assert 4.0 * (a + b) as real == (4 * a + 4 * b) as real;
    assert (3 * rttvar + gap - 8) as real < (4 * a + 4 * b) as real <= (3 * rttvar + gap) as real;
  }

  lemma Half(s: nat)
    ensures NearDeviation(s / 2, 0.5 * s as real)
  {
    assert s - 2 < 2 * (s / 2) <= s;
    assert 2.0 * (s / 2) as real == (2 * (s / 2)) as real;
  }

  // The samples since the estimate was last zero, from which it starts anew.
  ghost function Live(events: seq<RttEvent>): seq<nat> {
    if events == [] then []
    else
      var front, last := events[..|events| - 1], events[|events| - 1];
      if last.Timeout? then Live(front)
      else if RttAfter(front).srtt == 0 then [last.us]
      else Live(front) + [last.us]
  }

  lemma NextMean(r: Rtt, live: seq<nat>, s: nat)
    requires live != [] && r.srtt > 0 && NearMean(r.srtt, Mean(live)) && NearDeviation(r.rttvar, Deviation(live))
    ensures NearMean(r.Update(s).srtt, Mean(live + [s])) && NearDeviation(r.Update(s).rttvar, Deviation(live + [s]))
  {
    assert (live + [s])[..|live|] == live;
    Eighths(r.srtt, s, Mean(live));
    GapNear(r.srtt, s, Mean(live));
    Quarters(r.rttvar, AbsDiff(r.srtt, s), Deviation(live), Gap(Mean(live), s));
  }

  // After any mix of samples and timeouts the estimates are the weighted mean and deviation, up to truncation, of the
  // samples since the estimate was last zero.
  lemma {:induction false} EstimatesAreMeans(events: seq<RttEvent>)
    ensures var r, live := RttAfter(events), Live(events);
      && (live == [] <==> SamplesOf(events) == []) && (live == [] ==> r.srtt == 0)
      && (live != [] ==> NearMean(r.srtt, Mean(live)) && NearDeviation(r.rttvar, Deviation(live)))
  {
    if events != [] {
      var front, last := events[..|events| - 1], events[|events| - 1];
      EstimatesAreMeans(front);
      var r := RttAfter(front);
      if last.Sample? {
        if r.srtt == 0 { Half(last.us); } else { NextMean(r, Live(front), last.us); }
      }
    }
  }

  // These are all the samples if none is below eight microseconds.
  lemma {:induction false} LiveIsAll(events: seq<RttEvent>)
    requires forall i | 0 <= i < |events| && events[i].Sample? :: events[i].us >= 8
    ensures Live(events) == SamplesOf(events)
  {
    if events != [] {
      var front, last := events[..|events| - 1], events[|events| - 1];
      LiveIsAll(front);
      if last.Sample? && SamplesOf(front) != [] { NeverZero(front); }
    }
  }

  ghost function Largest(events: seq<RttEvent>): (m: nat)
    ensures forall i | 0 <= i < |events| && events[i].Sample? :: events[i].us <= m
  {
    if events == [] then 0
    else
      var n := |events| - 1;
      var m := Largest(events[..n]);
      if events[n].Sample? && m < events[n].us then events[n].us else m
  }

  lemma {:induction false} SomeSample(events: seq<RttEvent>)
    requires SamplesOf(events) != []
    ensures exists i | 0 <= i < |events| :: events[i].Sample?
  {
    var n := |events| - 1;
    if !events[n].Sample? {
      SomeSample(events[..n]);
      var i :| 0 <= i < n && events[..n][i].Sample?;
      assert events[i].Sample?;
    }
  }

  lemma NeverZero(events: seq<RttEvent>)
    requires SamplesOf(events) != [] && forall i | 0 <= i < |events| && events[i].Sample? :: events[i].us >= 8
    ensures RttAfter(events).srtt > 0
  {
    RttBounds(events, 8, Largest(events));
    SomeSample(events);
  }

  // The estimate falls to zero exactly from one microsecond with a sample below eight.
  lemma FallsToZero(r: Rtt, s: nat)
    requires r.srtt > 0
    ensures r.Update(s).srtt == 0 <==> r.srtt == 1 && s < 8
  {}

  // Below eight microseconds the estimate can fall to zero, and the next sample then counts as the first.
  lemma ZeroRestarts()
    ensures RttAfter([Sample(1), Sample(0), Sample(1000)]).srtt == 1000
    ensures Mean([1, 0, 1000]) < 126.0
  {
    var e := [Sample(1), Sample(0), Sample(1000)];
    assert e[..2] == [Sample(1), Sample(0)] && e[..2][..1] == [Sample(1)] && e[..2][..1][..0] == [];
    assert RttAfter(e[..2][..1]).srtt == 1;
    assert RttAfter(e[..2]).srtt == 0;
    var s := [1, 0, 1000];
    assert s[..2] == [1, 0] && s[..2][..1] == [1];
    assert Mean(s[..2][..1]) == 1.0;
    assert Mean(s[..2]) == 0.875;
  }

  // ---- Every run of one tracker ----

  datatype Event<T> = Send(data: T, size: nat, at: nat) | Ack(pn: nat, at: nat) | Drain(at: nat)

  // A tracker with its history: when each packet was first sent, and which have been sent again.
  datatype World<T> = World(a: ArqState<T>, sent: seq<nat>, resent: set<nat>)

  ghost function Numbers<T>(out: seq<(nat, T)>): set<nat> { set i | 0 <= i < |out| :: out[i].0 }

  // Packets are numbered in the order they are sent.
  ghost function Next<T>(w: World<T>, e: Event<T>): World<T> {
    match e
    case Send(data, size, at) => w.(a := w.a.OnSent(|w.sent|, data, size, at), sent := w.sent + [at])
    case Ack(pn, at) => w.(a := w.a.OnAck(pn, at).0)
    case Drain(at) => w.(a := w.a.DrainExpired(at).0, resent := w.resent + Numbers(w.a.DrainExpired(at).1))
  }

  ghost function After<T>(events: seq<Event<T>>): World<T> {
    if events == [] then World(New(), [], {}) else Next(After(events[..|events| - 1]), events[|events| - 1])
  }

  // An entry was sent again exactly if its count says so, and otherwise carries its first send time.
  ghost predicate Counted<T>(x: Entry<T>, sent: seq<nat>, resent: set<nat>) {
    x.0 < |sent| && (x.1.retransmits == 0 <==> x.0 !in resent) && (x.1.retransmits == 0 ==> x.1.sentAt == sent[x.0])
  }

  ghost predicate Inv<T(!new)>(w: World<T>) {
    && Ascending(w.a.entries) && w.a.rtt.rto > 0
    && (forall x | x in w.a.entries :: Counted(x, w.sent, w.resent))
    && (forall n | n in w.resent :: n < |w.sent|)
  }

  lemma SendInv<T(!new)>(w: World<T>, data: T, size: nat, at: nat)
    requires Inv(w)
    ensures Inv(Next(w, Send(data, size, at)))
  {
    PutFacts(w.a.entries, |w.sent|, InFlight(data, size, at, 0));
    var v := Next(w, Send(data, size, at));
    forall x | x in v.a.entries ensures Counted(x, v.sent, v.resent) {
      if x in w.a.entries { assert Counted(x, w.sent, w.resent); }
    }
  }

  lemma AckInv<T(!new)>(w: World<T>, pn: nat, at: nat)
    requires Inv(w)
    ensures Inv(Next(w, Ack(pn, at)))
  {
    DropFacts(w.a.entries, pn);
  }

  lemma DrainInv<T(!new)>(w: World<T>, at: nat)
    requires Inv(w)
    ensures Inv(Next(w, Drain(at)))
  {
    DrainExactly(w.a, at);
    var (b, out) := w.a.DrainExpired(at);
    var v := Next(w, Drain(at));
    forall y | y in b.entries ensures Counted(y, v.sent, v.resent) {
      var i :| 0 <= i < |b.entries| && b.entries[i] == y;
      var x := w.a.entries[i];
      assert Restamped(x, y, at, w.a.rtt.rto) && x in w.a.entries && Counted(x, w.sent, w.resent);
      ReturnedIff(w.a, at, x);
    }
    forall n | n in Numbers(out) ensures n < |w.sent| {
      var i :| 0 <= i < |out| && out[i].0 == n;
      assert (out[i].0, out[i].1) in out;
    }
  }

  // An entry's number is returned exactly when its deadline has passed.
  lemma ReturnedIff<T(!new)>(a: ArqState<T>, now: nat, x: Entry<T>)
    requires Ascending(a.entries) && a.rtt.rto > 0 && x in a.entries
    ensures x.0 in Numbers(a.DrainExpired(now).1) <==> Due(x, now, a.rtt.rto)
  {
    DrainExactly(a, now);
    var out := a.DrainExpired(now).1;
    if Due(x, now, a.rtt.rto) {
      assert (x.0, x.1.data) in out;
      var i :| 0 <= i < |out| && out[i] == (x.0, x.1.data);
      assert out[i].0 == x.0;
    }
    if x.0 in Numbers(out) {
      var i :| 0 <= i < |out| && out[i].0 == x.0;
      assert (out[i].0, out[i].1) in out;
      var y :| y in a.entries && y.0 == x.0 && Due(y, now, a.rtt.rto);
      SameEntry(a.entries, x, y);
    }
  }

  lemma SameEntry<T(!new)>(e: seq<Entry<T>>, x: Entry<T>, y: Entry<T>)
    requires Ascending(e) && x in e && y in e && x.0 == y.0
    ensures x == y
  {
    var i :| 0 <= i < |e| && e[i] == x;
    var j :| 0 <= j < |e| && e[j] == y;
  }

  lemma {:induction false} RunInv<T(!new)>(events: seq<Event<T>>)
    ensures Inv(After(events))
  {
    if events != [] {
      var w := After(events[..|events| - 1]);
      RunInv(events[..|events| - 1]);
      match events[|events| - 1] {
        case Send(data, size, at) => SendInv(w, data, size, at);
        case Ack(pn, at) => AckInv(w, pn, at);
        case Drain(at) => DrainInv(w, at);
      }
    }
  }

  // What a step means to the estimator: a packet acknowledged without ever being sent again is a sample, a round that
  // returned something is a timeout, everything else is nothing.
  ghost function Observed<T>(w: World<T>, e: Event<T>): seq<RttEvent> {
    match e
    case Send(_, _, _) => []
    case Ack(pn, at) =>
      if HasKey(w.a.entries, pn) && pn !in w.resent && pn < |w.sent|
      then [Sample(if at < w.sent[pn] then 0 else at - w.sent[pn])] else []
    case Drain(at) => if exists x | x in w.a.entries :: Due(x, at, w.a.rtt.rto) then [Timeout] else []
  }

  ghost function History<T>(events: seq<Event<T>>): seq<RttEvent> {
    if events == [] then []
    else History(events[..|events| - 1]) + Observed(After(events[..|events| - 1]), events[|events| - 1])
  }

  // The estimator after what one step means to it.
  function Fed(r: Rtt, seen: seq<RttEvent>): Rtt {
    if seen == [] then r else if seen[0].Sample? then r.Update(seen[0].us) else r.Backoff()
  }

  lemma RttAppend(events: seq<RttEvent>, seen: seq<RttEvent>)
    requires |seen| <= 1
    ensures RttAfter(events + seen) == Fed(RttAfter(events), seen)
  {
    if seen == [] { assert events + seen == events; } else { RttSnoc(events, seen[0]); assert seen == [seen[0]]; }
  }

  lemma NothingObserved<T>()
    ensures After<T>([]).a.rtt == RttAfter(History<T>([]))
  {}

  lemma StepObserved<T(!new)>(w: World<T>, e: Event<T>)
    requires Inv(w)
    ensures |Observed(w, e)| <= 1 && Next(w, e).a.rtt == Fed(w.a.rtt, Observed(w, e))
  {
    match e {
      case Send(_, _, _) =>
      case Ack(pn, at) => AckObserved(w, pn, at);
      case Drain(at) => DrainExactly(w.a, at);
    }
  }

  lemma RttSnoc(events: seq<RttEvent>, e: RttEvent)
    ensures RttAfter(events + [e]) == if e.Sample? then RttAfter(events).Update(e.us) else RttAfter(events).Backoff()
  {
    assert (events + [e])[..|events|] == events;
  }

  lemma AckObserved<T(!new)>(w: World<T>, pn: nat, at: nat)
    requires Inv(w)
    ensures var r := Next(w, Ack(pn, at)).a.rtt;
      if HasKey(w.a.entries, pn) && pn !in w.resent
      then pn < |w.sent| && r == w.a.rtt.Update(if at < w.sent[pn] then 0 else at - w.sent[pn]) else r == w.a.rtt
  {
    FindFacts(w.a.entries, pn);
    if HasKey(w.a.entries, pn) { assert Counted((pn, Find(w.a.entries, pn).value), w.sent, w.resent); }
  }

  // In every run the estimates are those of the round-trip times of packets sent once, and of the timeouts: a
  // retransmitted packet leaves them alone.
  lemma {:induction false} KarnExactly<T(!new)>(events: seq<Event<T>>)
    ensures After(events).a.rtt == RttAfter(History(events))
  {
    hide Next, Observed, RttAfter;
    if events == [] {
      NothingObserved<T>();
    } else {
      var front, e := events[..|events| - 1], events[|events| - 1];
      KarnExactly(front);
      RunInv(front);
      StepObserved(After(front), e);
      RttAppend(History(front), Observed(After(front), e));
    }
  }
}
