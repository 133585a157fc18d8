// Retransmission tracking with Karn's rule, RTT smoothing and RTO clamping. Times are microseconds.
module Arq {
  import opened Options

  const MIN_RTO: nat := 200_000
  const MAX_RTO: nat := 60_000_000

  datatype InFlight<T> = InFlight(data: T, size: nat, sentAt: nat, retransmits: nat)
  type Entry<T> = (nat, InFlight<T>)  // packet number, state

  // ---- RTT estimation ----

  datatype Rtt = Rtt(srtt: nat, rttvar: nat, rto: nat)
  {
    function Update(sample: nat): Rtt {
      var s := if srtt == 0 then sample else 7 * srtt / 8 + sample / 8;
      var v := if srtt == 0 then sample / 2 else 3 * rttvar / 4 + AbsDiff(srtt, sample) / 4;
      Rtt(s, v, Clamp(s + 4 * v))
    }

    function Backoff(): Rtt { this.(rto := if 2 * rto > MAX_RTO then MAX_RTO else 2 * rto) }
  }

  function AbsDiff(a: nat, b: nat): nat { if a < b then b - a else a - b }

  function Clamp(x: nat): nat { if x < MIN_RTO then MIN_RTO else if x > MAX_RTO then MAX_RTO else x }

  datatype RttEvent = Sample(us: nat) | Timeout

  function RttAfter(events: seq<RttEvent>): Rtt {
    if events == [] then Rtt(0, 0, 300_000)
    else
      var before := RttAfter(events[..|events| - 1]);
      match events[|events| - 1]
      case Sample(us) => before.Update(us)
      case Timeout => before.Backoff()
  }

  // Truncating smoothing of a value in range stays in range, losing less than 8 at the bottom.
  lemma SmoothingBounds(srtt: nat, sample: nat, lo: nat, hi: nat)
    requires lo <= sample <= hi && lo <= srtt + 7 && srtt <= hi
    ensures lo <= 7 * srtt / 8 + sample / 8 + 7 && 7 * srtt / 8 + sample / 8 <= hi
  {}

  lemma VarianceBound(srtt: nat, rttvar: nat, sample: nat, hi: nat)
    requires sample <= hi && srtt <= hi && rttvar <= hi
    ensures 3 * rttvar / 4 + AbsDiff(srtt, sample) / 4 <= hi
  {}

  lemma {:induction false} RttBounds(events: seq<RttEvent>, lo: nat, hi: nat)
    requires forall i | 0 <= i < |events| && events[i].Sample? :: lo <= events[i].us <= hi
    ensures RttAfter(events).srtt <= hi && RttAfter(events).rttvar <= hi
    ensures (exists i | 0 <= i < |events| :: events[i].Sample?) ==> lo <= RttAfter(events).srtt + 7
    ensures (forall i | 0 <= i < |events| :: events[i].Timeout?) ==> RttAfter(events).srtt == 0
    ensures MIN_RTO <= RttAfter(events).rto <= MAX_RTO
  {
    if events != [] {
      var n := |events| - 1;
      var front := events[..n];
      RttBounds(front, lo, hi);
      var before := RttAfter(front);
      assert events == front + [events[n]];
      if events[n].Sample? {
        if before.srtt != 0 {
          assert exists i | 0 <= i < |front| :: front[i].Sample?;
          SmoothingBounds(before.srtt, events[n].us, lo, hi);
          VarianceBound(before.srtt, before.rttvar, events[n].us, hi);
        }
      } else if i :| 0 <= i < |events| && events[i].Sample? {
        assert front[i].Sample?;
      }
    }
  }

  // ---- The in-flight table, ordered by packet number ----

  ghost predicate Ascending<T>(e: seq<Entry<T>>) { forall i, j | 0 <= i < j < |e| :: e[i].0 < e[j].0 }

  function Put<T>(e: seq<Entry<T>>, pn: nat, f: InFlight<T>): seq<Entry<T>> {
    if e == [] || pn < e[0].0 then [(pn, f)] + e
    else if pn == e[0].0 then [(pn, f)] + e[1..]
    else [e[0]] + Put(e[1..], pn, f)
  }

  function Find<T>(e: seq<Entry<T>>, pn: nat): (r: Option<InFlight<T>>) {
    if e == [] then None else if e[0].0 == pn then Some(e[0].1) else Find(e[1..], pn)
  }

  function Drop<T>(e: seq<Entry<T>>, pn: nat): seq<Entry<T>> {
    if e == [] then [] else if e[0].0 == pn then e[1..] else [e[0]] + Drop(e[1..], pn)
  }

  function TotalSize<T>(e: seq<Entry<T>>): nat { if e == [] then 0 else e[0].1.size + TotalSize(e[1..]) }

  ghost predicate HasKey<T>(e: seq<Entry<T>>, pn: nat) { exists i | 0 <= i < |e| :: e[i].0 == pn }

  lemma {:induction false} FindFacts<T(!new)>(e: seq<Entry<T>>, pn: nat)
    ensures Find(e, pn).Some? <==> HasKey(e, pn)
    ensures Find(e, pn).Some? ==> (pn, Find(e, pn).value) in e
  {
    if e != [] && e[0].0 != pn {
      FindFacts(e[1..], pn);
      if HasKey(e, pn) { var i :| 0 <= i < |e| && e[i].0 == pn; assert e[1..][i - 1].0 == pn; }
    }
  }

  lemma AscendingCons<T(!new)>(x: Entry<T>, t: seq<Entry<T>>)
    requires Ascending(t) && forall y | y in t :: x.0 < y.0
    ensures Ascending([x] + t)
  {
    forall j | 0 <= j < |t| ensures x.0 < t[j].0 { assert t[j] in t; }
  }

  lemma AscendingTail<T(!new)>(e: seq<Entry<T>>)
    requires Ascending(e) && e != []
    ensures Ascending(e[1..]) && forall y | y in e[1..] :: e[0].0 < y.0
    ensures forall y :: y in e <==> y == e[0] || y in e[1..]
  {
    assert e == [e[0]] + e[1..];
  }

  lemma {:induction false} DropFacts<T(!new)>(e: seq<Entry<T>>, pn: nat)
    requires Ascending(e)
    ensures Ascending(Drop(e, pn))
    ensures forall x :: x in Drop(e, pn) <==> x in e && x.0 != pn
  {
    if e != [] {
      AscendingTail(e);
      if e[0].0 != pn {
        DropFacts(e[1..], pn);
        forall y | y in Drop(e[1..], pn) ensures e[0].0 < y.0 { assert y in e[1..]; }
        AscendingCons(e[0], Drop(e[1..], pn));
      }
    }
  }

  lemma {:induction false} DropSize<T(!new)>(e: seq<Entry<T>>, pn: nat)
    ensures TotalSize(e) == TotalSize(Drop(e, pn)) + (if Find(e, pn).Some? then Find(e, pn).value.size else 0)
  {
    if e != [] && e[0].0 != pn {
      DropSize(e[1..], pn);
      assert ([e[0]] + Drop(e[1..], pn))[1..] == Drop(e[1..], pn);
    }
  }

  lemma {:induction false} PutFacts<T(!new)>(e: seq<Entry<T>>, pn: nat, f: InFlight<T>)
    requires Ascending(e)
    ensures Ascending(Put(e, pn, f))
    ensures forall x :: x in Put(e, pn, f) <==> (x in e && x.0 != pn) || x == (pn, f)
  {
    if e != [] {
      AscendingTail(e);
      if pn < e[0].0 {
        AscendingCons((pn, f), e);
      } else if pn == e[0].0 {
        AscendingCons((pn, f), e[1..]);
      } else {
        PutFacts(e[1..], pn, f);
        forall y | y in Put(e[1..], pn, f) ensures e[0].0 < y.0 { assert y in e[1..] || y == (pn, f); }
        AscendingCons(e[0], Put(e[1..], pn, f));
      }
    }
  }

  lemma {:induction false} PutSize<T(!new)>(e: seq<Entry<T>>, pn: nat, f: InFlight<T>)
    requires Find(e, pn).None?
    ensures TotalSize(Put(e, pn, f)) == TotalSize(e) + f.size
  {
    if e != [] && pn > e[0].0 {
      PutSize(e[1..], pn, f);
      assert ([e[0]] + Put(e[1..], pn, f))[1..] == Put(e[1..], pn, f);
    } else if e != [] {
      assert ([(pn, f)] + e)[1..] == e;
    }
  }

  // Expired entries are stamped and counted; the others stay.
  function Stamp<T>(x: Entry<T>, now: nat, rto: nat): Entry<T> {
    if Expired(x, now, rto) then (x.0, x.1.(sentAt := now, retransmits := x.1.retransmits + 1)) else x
  }

  predicate Expired<T>(x: Entry<T>, now: nat, rto: nat) { now >= x.1.sentAt && now - x.1.sentAt >= rto }

  function StampAll<T>(e: seq<Entry<T>>, now: nat, rto: nat): seq<Entry<T>> {
    seq(|e|, i requires 0 <= i < |e| => Stamp(e[i], now, rto))
  }

  function ExpiredOf<T>(e: seq<Entry<T>>, now: nat, rto: nat): seq<(nat, T)> {
    if e == [] then []
    else (if Expired(e[0], now, rto) then [(e[0].0, e[0].1.data)] else []) + ExpiredOf(e[1..], now, rto)
  }

  datatype ArqState<T> = ArqState(entries: seq<Entry<T>>, rtt: Rtt)
  {
    function OnSent(pn: nat, data: T, size: nat, now: nat): ArqState<T> {
      this.(entries := Put(entries, pn, InFlight(data, size, now, 0)))
    }

    // The acknowledged size, and the RTT (zero for a retransmitted packet).
    function OnAck(pn: nat, now: nat): (ArqState<T>, Option<(nat, nat)>) {
      var f := Find(entries, pn);
      if f.None? then (this, None)
      else
        var rest := this.(entries := Drop(entries, pn));
        if f.value.retransmits != 0 then (rest, Some((0, f.value.size)))
        else
          var sample := if now >= f.value.sentAt then now - f.value.sentAt else 0;
          (rest.(rtt := rtt.Update(sample)), Some((sample, f.value.size)))
    }

    function DrainExpired(now: nat): (ArqState<T>, seq<(nat, T)>) {
      var expired := ExpiredOf(entries, now, rtt.rto);
      (ArqState(StampAll(entries, now, rtt.rto), if expired == [] then rtt else rtt.Backoff()), expired)
    }

    // Acknowledge every number of an inclusive range, counting bytes.
    function AckRange(start: nat, end: nat, now: nat): (ArqState<T>, nat)
      decreases end - start
    {
      if start > end then (this, 0)
      else
        var (a, r) := OnAck(start, now);
        var bytes := if r.Some? then r.value.1 else 0;
        if start == end then (a, bytes)
        else
          var (b, more) := a.AckRange(start + 1, end, now);
          (b, bytes + more)
    }

    function AckRanges(ranges: seq<(nat, nat)>, now: nat): (ArqState<T>, nat)
      decreases |ranges|
    {
      if ranges == [] then (this, 0)
      else
        var (a, bytes) := AckRange(ranges[0].0, ranges[0].1, now);
        var (b, more) := a.AckRanges(ranges[1..], now);
        (b, bytes + more)
    }
  }

  function New<T>(): ArqState<T> { ArqState([], Rtt(0, 0, 300_000)) }

  // b is a without the entries numbered start .. end, and `bytes` is what they weighed.
  ghost predicate Without<T(!new)>(a: seq<Entry<T>>, b: seq<Entry<T>>, bytes: nat, start: nat, end: nat) {
    && Ascending(b)
    && (forall x :: x in b <==> x in a && !(start <= x.0 <= end))
    && TotalSize(a) == TotalSize(b) + bytes
  }

  lemma OnAckRemoves<T(!new)>(a: ArqState<T>, pn: nat, now: nat)
    requires Ascending(a.entries)
    ensures var (b, r) := a.OnAck(pn, now);
      && Without(a.entries, b.entries, if r.Some? then r.value.1 else 0, pn, pn)
      && (r.Some? <==> HasKey(a.entries, pn))
  {
    FindFacts(a.entries, pn);
    DropWithout(a.entries, pn);
  }

  lemma DropWithout<T(!new)>(e: seq<Entry<T>>, pn: nat)
    requires Ascending(e)
    ensures Find(e, pn).Some? ==> Without(e, Drop(e, pn), Find(e, pn).value.size, pn, pn)
    ensures Find(e, pn).None? ==> Without(e, e, 0, pn, pn)
  {
    DropFacts(e, pn);
    DropSize(e, pn);
    FindFacts(e, pn);
    if Find(e, pn).None? {
      forall x | x in e ensures x.0 != pn { var i :| 0 <= i < |e| && e[i] == x; }
    }
  }

  lemma {:induction false} AckRangeRemoves<T(!new)>(a: ArqState<T>, start: nat, end: nat, now: nat)
    requires Ascending(a.entries)
    ensures Without(a.entries, a.AckRange(start, end, now).0.entries, a.AckRange(start, end, now).1, start, end)
    decreases end - start
  {
    if start <= end {
      OnAckRemoves(a, start, now);
      if start < end { AckRangeRemoves(a.OnAck(start, now).0, start + 1, end, now); }
    }
  }

  predicate Inside(ranges: seq<(nat, nat)>, k: nat) { exists i | 0 <= i < |ranges| :: ranges[i].0 <= k <= ranges[i].1 }

  ghost predicate WithoutRanges<T(!new)>(a: seq<Entry<T>>, b: seq<Entry<T>>, bytes: nat, ranges: seq<(nat, nat)>) {
    && Ascending(b)
    && (forall x :: x in b <==> x in a && !Inside(ranges, x.0))
    && TotalSize(a) == TotalSize(b) + bytes
  }

  // Acknowledging ranges removes exactly the covered packets and counts each one once,
  // however the ranges overlap or repeat.
  lemma {:induction false} AckRangesRemove<T(!new)>(a: ArqState<T>, ranges: seq<(nat, nat)>, now: nat)
    requires Ascending(a.entries)
    ensures WithoutRanges(a.entries, a.AckRanges(ranges, now).0.entries, a.AckRanges(ranges, now).1, ranges)
    decreases |ranges|
  {
    if ranges != [] {
      var m := a.AckRange(ranges[0].0, ranges[0].1, now).0;
      AckRangeRemoves(a, ranges[0].0, ranges[0].1, now);
      AckRangesRemove(m, ranges[1..], now);
      forall x: Entry<T>
        ensures Inside(ranges, x.0) <==> ranges[0].0 <= x.0 <= ranges[0].1 || Inside(ranges[1..], x.0)
      {
        InsideCons(ranges, x.0);
      }
    }
  }

  lemma InsideCons(ranges: seq<(nat, nat)>, k: nat)
    requires ranges != []
    ensures Inside(ranges, k) <==> ranges[0].0 <= k <= ranges[0].1 || Inside(ranges[1..], k)
  {
    if Inside(ranges, k) {
      var i :| 0 <= i < |ranges| && ranges[i].0 <= k <= ranges[i].1;
      if i > 0 { assert ranges[1..][i - 1] == ranges[i]; }
    }
    if Inside(ranges[1..], k) {
      var i :| 0 <= i < |ranges[1..]| && ranges[1..][i].0 <= k <= ranges[1..][i].1;
      assert ranges[i + 1] == ranges[1..][i];
    }
  }

  // Retransmission changes no membership, no size and no data.
  lemma {:induction false} StampKeeps<T(!new)>(e: seq<Entry<T>>, now: nat, rto: nat)
    ensures var t := StampAll(e, now, rto);
      && |t| == |e| && TotalSize(t) == TotalSize(e)
      && (forall i | 0 <= i < |e| :: t[i].0 == e[i].0 && t[i].1.data == e[i].1.data && t[i].1.size == e[i].1.size)
  {
    if e != [] {
      StampKeeps(e[1..], now, rto);
      assert StampAll(e, now, rto)[1..] == StampAll(e[1..], now, rto);
    }
  }

  // ---- The methods ----

  class Tracker<T(!new)> {
    var entries: seq<Entry<T>>
    var rto: nat
    var srttUs: nat
    var rttvarUs: nat

    ghost function View(): ArqState<T>
      reads this
    {
      ArqState(entries, Rtt(srttUs, rttvarUs, rto))
    }

    constructor ()
      ensures View() == New<T>()
    {
      entries, rto, srttUs, rttvarUs := [], 300_000, 0, 0;
    }

    method OnSent(pn: nat, data: T, size: nat, now: nat)
      modifies this
      ensures View() == old(View()).OnSent(pn, data, size, now)
    {
      entries := Put(entries, pn, InFlight(data, size, now, 0));
    }

    method UpdateRtt(rtt: nat)
      modifies this
      ensures View() == old(View()).(rtt := old(View()).rtt.Update(rtt))
    {
      if srttUs == 0 {
        srttUs := rtt;
        rttvarUs := rtt / 2;
      } else {
        var diff := AbsDiff(srttUs, rtt);
        rttvarUs := 3 * rttvarUs / 4 + diff / 4;
        srttUs := 7 * srttUs / 8 + rtt / 8;
      }
      rto := Clamp(srttUs + 4 * rttvarUs);
    }

    method OnAck(pn: nat, now: nat) returns (r: Option<(nat, nat)>)
      modifies this
      ensures (View(), r) == old(View()).OnAck(pn, now)
    {
      var f := Find(entries, pn);
      if f.None? {
        return None;
      }
      entries := Drop(entries, pn);
      if f.value.retransmits == 0 {
        var rtt := if now >= f.value.sentAt then now - f.value.sentAt else 0;
        UpdateRtt(rtt);
        return Some((rtt, f.value.size));
      }
      return Some((0, f.value.size));
    }

    method DrainExpired(now: nat) returns (expired: seq<(nat, T)>)
      modifies this
      ensures (View(), expired) == old(View()).DrainExpired(now)
    {
      expired := [];
      var kept: seq<Entry<T>> := [];
      assert entries[0..] == entries;
      for i := 0 to |entries|
        invariant entries == old(entries) && rto == old(rto) && srttUs == old(srttUs) && rttvarUs == old(rttvarUs)
        invariant |kept| == i && forall j | 0 <= j < i :: kept[j] == Stamp(entries[j], now, rto)
        invariant expired + ExpiredOf(entries[i..], now, rto) == ExpiredOf(entries, now, rto)
      {
        var (pn, f) := entries[i];
        assert entries[i..][1..] == entries[i + 1..];
        if Expired(entries[i], now, rto) {
          expired := expired + [(pn, f.data)];
          kept := kept + [(pn, f.(sentAt := now, retransmits := f.retransmits + 1))];
        } else {
          kept := kept + [entries[i]];
        }
      }
      assert entries[|entries|..] == [] && expired + [] == expired;
      assert kept == StampAll(entries, now, rto);
      entries := kept;
      if expired != [] {
        rto := if 2 * rto > MAX_RTO then MAX_RTO else 2 * rto;
      }
    }
  }
}
