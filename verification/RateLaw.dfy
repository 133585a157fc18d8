// Exactly which requests the token bucket admits.
module RateLaw {
  import opened Options
  import opened RateLimit

  // ---- The bucket as a minimum ----

  // What the address may still use at `now` if its bucket was full at `from` and `used` have been taken since.
  ghost function Left(used: nat, from: real, now: real, rate: real): real { rate + (now - from) * rate - used as real }

  // No request of the address allows more than b holds, and one allows exactly that.
  ghost predicate Tight(reqs: seq<Request>, oks: seq<bool>, ip: Ip, b: Bucket, rate: real)
    requires |oks| == |reqs|
  {
    && (forall i | 0 <= i < |reqs| && reqs[i].ip == ip ::
          b.tokens <= Left(Admitted(reqs, oks, ip, i, |reqs|), reqs[i].at, b.last, rate))
    && (exists i | 0 <= i < |reqs| && reqs[i].ip == ip ::
          b.tokens == Left(Admitted(reqs, oks, ip, i, |reqs|), reqs[i].at, b.last, rate))
  }

  ghost predicate Exact(reqs: seq<Request>, oks: seq<bool>, ip: Ip, b: Option<Bucket>, rate: real)
    requires |oks| == |reqs|
  {
    if b.None? then forall i | 0 <= i < |reqs| :: reqs[i].ip != ip else Tight(reqs, oks, ip, b.value, rate)
  }

  // What flows in from one time to another.
  ghost function Inflow(last: real, now: real, rate: real): real { (now - last) * rate }

  // Time passes: everything left grows by the same amount.
  lemma LeftLater(used: nat, from: real, last: real, now: real, rate: real)
    ensures Left(used, from, now, rate) == Left(used, from, last, rate) + Inflow(last, now, rate)
  {
    Pour(now, last, from, rate);
  }

  lemma LeftTaken(used: nat, from: real, now: real, rate: real)
    ensures Left(used + 1, from, now, rate) == Left(used, from, now, rate) - 1.0
  {}

  lemma LeftNow(now: real, rate: real)
    ensures Left(0, now, now, rate) == rate
  {
    NoTime(rate);
  }

  // What every request of the address so far leaves at `now`, before this one is decided.
  ghost predicate Allows(reqs: seq<Request>, oks: seq<bool>, ip: Ip, now: real, rate: real, t: real)
    requires |oks| == |reqs|
  {
    forall i | 0 <= i < |reqs| && reqs[i].ip == ip ::
      t <= Left(Admitted(reqs, oks, ip, i, |reqs|), reqs[i].at, now, rate)
  }

  ghost predicate Reaches(reqs: seq<Request>, oks: seq<bool>, ip: Ip, now: real, rate: real, t: real)
    requires |oks| == |reqs|
  {
    exists i | 0 <= i < |reqs| && reqs[i].ip == ip ::
      t == Left(Admitted(reqs, oks, ip, i, |reqs|), reqs[i].at, now, rate)
  }

  lemma RefillGrows(b: Option<Bucket>, now: real, rate: real)
    requires b.Some? ==> b.value.last <= now
    ensures var t := Refilled(b, now, rate);
      && t <= rate && (b.None? ==> t == rate)
      && (b.Some? ==> t <= b.value.tokens + Inflow(b.value.last, now, rate))
      && (b.Some? ==> t == rate || t == b.value.tokens + Inflow(b.value.last, now, rate))
  {}

  // The refilled bucket is the least of a full one and what the earlier requests leave.
  lemma RefilledIs(reqs: seq<Request>, oks: seq<bool>, ip: Ip, b: Option<Bucket>, now: real, rate: real)
    requires |oks| == |reqs| && Exact(reqs, oks, ip, b, rate) && (b.Some? ==> b.value.last <= now)
    ensures var t := Refilled(b, now, rate);
      && t <= rate && Allows(reqs, oks, ip, now, rate, t)
      && (t == rate || Reaches(reqs, oks, ip, now, rate, t))
  {
    hide Left, Admitted, Refilled, Inflow;
    RefillGrows(b, now, rate);
    if b.Some? {
      var last, t := b.value.last, Refilled(b, now, rate);
      forall i | 0 <= i < |reqs| && reqs[i].ip == ip
        ensures t <= Left(Admitted(reqs, oks, ip, i, |reqs|), reqs[i].at, now, rate)
      {
        LeftLater(Admitted(reqs, oks, ip, i, |reqs|), reqs[i].at, last, now, rate);
      }
      if t != rate {
        var i :| 0 <= i < |reqs| && reqs[i].ip == ip &&
          b.value.tokens == Left(Admitted(reqs, oks, ip, i, |reqs|), reqs[i].at, last, rate);
        LeftLater(Admitted(reqs, oks, ip, i, |reqs|), reqs[i].at, last, now, rate);
        assert t == Left(Admitted(reqs, oks, ip, i, |reqs|), reqs[i].at, now, rate);
      }
    }
  }

  // ---- One more request ----

  lemma CountSnoc(reqs: seq<Request>, oks: seq<bool>, q: Request, ok: bool, ip: Ip, i: nat)
    requires |oks| == |reqs| && i <= |reqs|
    ensures Admitted(reqs + [q], oks + [ok], ip, i, |reqs| + 1) ==
      Admitted(reqs, oks, ip, i, |reqs|) + (if q.ip == ip && ok then 1 else 0)
  {
    AdmittedPrefix(reqs + [q], oks + [ok], ip, i, |reqs|, |reqs|);
    assert (reqs + [q])[..|reqs|] == reqs && (oks + [ok])[..|reqs|] == oks;
  }

  lemma CountNone(reqs: seq<Request>, oks: seq<bool>, ip: Ip)
    requires |oks| == |reqs|
    ensures Admitted(reqs, oks, ip, |reqs|, |reqs|) == 0
  {}

  // Another address's request changes nothing for this one.
  lemma OtherExact(reqs: seq<Request>, oks: seq<bool>, q: Request, ok: bool, ip: Ip, b: Option<Bucket>, rate: real)
    requires |oks| == |reqs| && Exact(reqs, oks, ip, b, rate) && q.ip != ip
    ensures Exact(reqs + [q], oks + [ok], ip, b, rate)
  {
    hide Admitted, Left;
    var all := reqs + [q];
    forall i | 0 <= i < |reqs|
      ensures all[i] == reqs[i]
      ensures Admitted(all, oks + [ok], ip, i, |all|) == Admitted(reqs, oks, ip, i, |reqs|)
    {
      CountSnoc(reqs, oks, q, ok, ip, i);
    }
    if b.Some? {
      var i :| 0 <= i < |reqs| && reqs[i].ip == ip &&
        b.value.tokens == Left(Admitted(reqs, oks, ip, i, |reqs|), reqs[i].at, b.value.last, rate);
      assert all[i].ip == ip;
    }
  }

  // The bucket after a request of this address, which took `ok` of it.
  ghost predicate Took(reqs: seq<Request>, oks: seq<bool>, ip: Ip, now: real, rate: real, t: real)
    requires |oks| == |reqs|
  {
    t <= rate && Allows(reqs, oks, ip, now, rate, t) && (t == rate || Reaches(reqs, oks, ip, now, rate, t))
  }

  lemma OwnTight(reqs: seq<Request>, oks: seq<bool>, q: Request, ok: bool, t: real, rate: real)
    requires |oks| == |reqs| && Took(reqs, oks, q.ip, q.at, rate, t)
    ensures Tight(reqs + [q], oks + [ok], q.ip, Bucket(if ok then t - 1.0 else t, q.at), rate)
  {
    hide Left, Admitted;
    var all, now, ip := reqs + [q], q.at, q.ip;
    OwnUpper(reqs, oks, q, ok, t, rate);
    if t == rate {
      assert all[|reqs|] == q;
      CountNone(reqs, oks, ip);
      LeftNow(now, rate);
      OwnLeft(reqs, oks, q, ok, |reqs|, now, rate);
    } else {
      var i :| 0 <= i < |reqs| && reqs[i].ip == ip &&
        t == Left(Admitted(reqs, oks, ip, i, |reqs|), reqs[i].at, now, rate);
      assert all[i] == reqs[i];
      OwnLeft(reqs, oks, q, ok, i, reqs[i].at, rate);
    }
  }

  // What request i leaves, once this one was decided.
  lemma OwnLeft(reqs: seq<Request>, oks: seq<bool>, q: Request, ok: bool, i: nat, from: real, rate: real)
    requires |oks| == |reqs| && i <= |reqs|
    ensures Left(Admitted(reqs + [q], oks + [ok], q.ip, i, |reqs| + 1), from, q.at, rate) ==
      Left(Admitted(reqs, oks, q.ip, i, |reqs|), from, q.at, rate) - (if ok then 1.0 else 0.0)
  {
    hide Left, Admitted;
    CountSnoc(reqs, oks, q, ok, q.ip, i);
    if ok { LeftTaken(Admitted(reqs, oks, q.ip, i, |reqs|), from, q.at, rate); }
  }

  lemma OwnUpper(reqs: seq<Request>, oks: seq<bool>, q: Request, ok: bool, t: real, rate: real)
    requires |oks| == |reqs| && t <= rate && Allows(reqs, oks, q.ip, q.at, rate, t)
    ensures Allows(reqs + [q], oks + [ok], q.ip, q.at, rate, if ok then t - 1.0 else t)
  {
    hide Left, Admitted;
    var all, now, ip := reqs + [q], q.at, q.ip;
    CountNone(reqs, oks, ip);
    LeftNow(now, rate);
    forall i | 0 <= i < |all| && all[i].ip == ip
      ensures (if ok then t - 1.0 else t) <= Left(Admitted(all, oks + [ok], ip, i, |all|), all[i].at, now, rate)
    {
      OwnLeft(reqs, oks, q, ok, i, all[i].at, rate);
      if i < |reqs| { assert all[i] == reqs[i]; }
    }
  }

  // ---- Every run ----

  // The table that never forgets, for every address.
  lemma {:induction false} TableExact(reqs: seq<Request>, rate: real, start: real, ip: Ip)
    requires rate >= 0.0 && InOrder(reqs) && (reqs != [] ==> start <= reqs[0].at)
    ensures |Forever(reqs, rate).1| == |reqs|
    ensures Exact(reqs, Forever(reqs, rate).1, ip, At(Forever(reqs, rate).0, ip), rate)
    decreases |reqs|
  {
    hide Exact;
    ForeverLength(reqs, rate);
    if reqs == [] {
      NobodyYet(ip, rate);
    } else {
      var n := |reqs| - 1;
      var front, q := reqs[..n], reqs[n];
      assert reqs == front + [q];
      ForeverLength(front, rate);
      TableExact(front, rate, start, ip);
      LastBefore(front, q, rate, start);
      ExactNext(front, q, Forever(front, rate).0, Forever(front, rate).1, ip, rate);
    }
  }

  lemma NobodyYet(ip: Ip, rate: real)
    ensures Exact([], [], ip, None, rate)
  {}

  lemma LastBefore(front: seq<Request>, q: Request, rate: real, start: real)
    requires rate >= 0.0 && InOrder(front + [q]) && start <= (front + [q])[0].at
    ensures InOrder(front)
    ensures q.ip in Forever(front, rate).0 ==> Forever(front, rate).0[q.ip].last <= q.at
  {
    var all := front + [q];
    forall i, j | 0 <= i < j < |front| ensures front[i].at <= front[j].at { assert all[i].at <= all[j].at; }
    if front != [] {
      assert all[0] == front[0] && all[|front| - 1] == front[|front| - 1] && all[|front|] == q;
      TableSound(front, rate, start, q.ip);
    }
  }

  lemma ExactNext(front: seq<Request>, q: Request, m: map<Ip, Bucket>, oks: seq<bool>, ip: Ip, rate: real)
    requires |oks| == |front| && Exact(front, oks, ip, At(m, ip), rate)
    requires q.ip in m ==> m[q.ip].last <= q.at
    ensures var (b, ok) := Attempt(At(m, q.ip), q.at, rate);
      Exact(front + [q], oks + [ok], ip, At(m[q.ip := b], ip), rate)
  {
    hide Admitted, Left, Refilled;
    var (b, ok) := Attempt(At(m, q.ip), q.at, rate);
    if q.ip == ip {
      RefilledIs(front, oks, ip, At(m, ip), q.at, rate);
      OwnTight(front, oks, q, ok, Refilled(At(m, ip), q.at, rate), rate);
    } else {
      OtherExact(front, oks, q, ok, ip, At(m, ip), rate);
    }
  }

  // With this request admitted the address has had no more than the rate allows since request i.
  ghost predicate Room(reqs: seq<Request>, oks: seq<bool>, i: nat, j: nat, rate: real)
    requires i <= j < |reqs| == |oks|
  {
    WithinRate(Admitted(reqs, oks, reqs[j].ip, i, j) + 1, rate, reqs[i].at, reqs[j].at)
  }

  ghost predicate RoomSinceAll(reqs: seq<Request>, oks: seq<bool>, j: nat, rate: real)
    requires j < |reqs| == |oks|
  {
    forall i | 0 <= i <= j && reqs[i].ip == reqs[j].ip :: Room(reqs, oks, i, j, rate)
  }

  // The last request of a run.
  lemma LastDecided(reqs: seq<Request>, rate: real, start: real)
    requires rate >= 0.0 && InOrder(reqs) && reqs != [] && start <= reqs[0].at
    ensures |Forever(reqs, rate).1| == |reqs|
    ensures var n := |reqs| - 1; Forever(reqs, rate).1[n] <==> RoomSinceAll(reqs, Forever(reqs, rate).1, n, rate)
  {
    hide Left, Admitted, Room;
    var n := |reqs| - 1;
    var front, q := reqs[..n], reqs[n];
    var (m, oks) := Forever(front, rate);
    assert reqs == front + [q];
    ForeverLength(reqs, rate);
    ForeverLength(front, rate);
    LastBefore(front, q, rate, start);
    TableExact(front, rate, start, q.ip);
    var t := Refilled(At(m, q.ip), q.at, rate);
    RefilledIs(front, oks, q.ip, At(m, q.ip), q.at, rate);
    var all := Forever(reqs, rate).1;
    assert all == oks + [t >= 1.0];
    RoomIsLeft(front, oks, q, t >= 1.0, t, rate);
  }

  lemma RoomIs(front: seq<Request>, oks: seq<bool>, q: Request, ok: bool, i: nat, rate: real)
    requires |oks| == |front| && i <= |front| && (front + [q])[i].ip == q.ip
    ensures Room(front + [q], oks + [ok], i, |front|, rate) <==>
      Left(Admitted(front, oks, q.ip, i, |front|), (front + [q])[i].at, q.at, rate) >= 1.0
  {
    hide WithinRate, Left, Admitted;
    var reqs, n := front + [q], |front|;
    AdmittedPrefix(reqs, oks + [ok], q.ip, i, n, n);
    assert reqs[..n] == front && (oks + [ok])[..n] == oks && reqs[n] == q;
    OneMore(Admitted(front, oks, q.ip, i, n), rate, reqs[i].at, q.at);
  }

  lemma OneMore(used: nat, rate: real, from: real, now: real)
    ensures WithinRate(used + 1, rate, from, now) <==> Left(used, from, now, rate) >= 1.0
  {
    assert (used + 1) as real == used as real + 1.0;
  }

  lemma RoomIsLeft(front: seq<Request>, oks: seq<bool>, q: Request, ok: bool, t: real, rate: real)
    requires |oks| == |front| && Took(front, oks, q.ip, q.at, rate, t)
    ensures t >= 1.0 <==> RoomSinceAll(front + [q], oks + [ok], |front|, rate)
  {
    hide Room, Left, Admitted;
    var reqs, n := front + [q], |front|;
    CountNone(front, oks, q.ip);
    LeftNow(q.at, rate);
    assert reqs[n] == q;
    RoomIs(front, oks, q, ok, n, rate);
    if t >= 1.0 {
      forall i | 0 <= i <= n && reqs[i].ip == q.ip ensures Room(reqs, oks + [ok], i, n, rate) {
        RoomIs(front, oks, q, ok, i, rate);
        if i < n { assert reqs[i] == front[i]; }
      }
      assert RoomSinceAll(reqs, oks + [ok], n, rate);
    } else if t != rate {
      var i :| 0 <= i < n && front[i].ip == q.ip &&
        t == Left(Admitted(front, oks, q.ip, i, n), front[i].at, q.at, rate);
      assert reqs[i] == front[i];
      RoomIs(front, oks, q, ok, i, rate);
      assert !Room(reqs, oks + [ok], i, n, rate);
    } else {
      assert !Room(reqs, oks + [ok], n, n, rate);
    }
  }

  lemma RoomPrefix(reqs: seq<Request>, oks: seq<bool>, j: nat, rate: real)
    requires j < |reqs| == |oks|
    ensures RoomSinceAll(reqs[..j + 1], oks[..j + 1], j, rate) <==> RoomSinceAll(reqs, oks, j, rate)
  {
    hide WithinRate, Admitted;
    var front := reqs[..j + 1];
    forall i | 0 <= i <= j
      ensures front[i] == reqs[i] && (Room(front, oks[..j + 1], i, j, rate) <==> Room(reqs, oks, i, j, rate))
    {
      AdmittedPrefix(reqs, oks, reqs[j].ip, i, j, j + 1);
    }
  }

  // The law of the limiter, clean-up included: request j is admitted if and only if, since every earlier request of
  // its address, the address has then been admitted no more often than a full bucket and the rate allow.
  lemma AdmittedExactly(reqs: seq<Request>, rate: real, start: real, j: nat)
    requires rate >= 0.0 && InOrder(reqs) && j < |reqs| && start <= reqs[0].at
    ensures |Run(reqs, rate, start).1| == |reqs|
    ensures Run(reqs, rate, start).1[j] <==> RoomSinceAll(reqs, Run(reqs, rate, start).1, j, rate)
  {
    hide RoomSinceAll, Run, Forever;
    SameDecisions(reqs, rate, start);
    ForeverPrefix(reqs, rate, j + 1);
    LastDecided(reqs[..j + 1], rate, start);
    RoomPrefix(reqs, Forever(reqs, rate).1, j, rate);
  }

  // ---- Nobody is remembered for long ----

  // Every address in the table was seen after this time.
  ghost predicate Recent(m: map<Ip, Bucket>, time: real) { forall ip | ip in m :: m[ip].last > time }

  lemma HandleRecent(l: Limiter, q: Request, rate: real, before: real)
    requires Recent(l.table, l.lastCleanup - IDLE_LIMIT) && l.lastCleanup <= before <= q.at
    ensures var m := Handle(l, q, rate).0;
      && Recent(m.table, m.lastCleanup - IDLE_LIMIT) && m.lastCleanup <= q.at < m.lastCleanup + CLEANUP_EVERY
  {}

  lemma {:induction false} RunRecent(reqs: seq<Request>, rate: real, start: real)
    requires InOrder(reqs) && (reqs != [] ==> start <= reqs[0].at)
    ensures var l := Run(reqs, rate, start).0;
      && Recent(l.table, l.lastCleanup - IDLE_LIMIT)
      && (reqs == [] ==> l.lastCleanup == start)
      && (reqs != [] ==> l.lastCleanup <= reqs[|reqs| - 1].at < l.lastCleanup + CLEANUP_EVERY)
  {
    if reqs != [] {
      var front, q := reqs[..|reqs| - 1], reqs[|reqs| - 1];
      RunRecent(front, rate, start);
      HandleRecent(Run(front, rate, start).0, q, rate, if front == [] then start else front[|front| - 1].at);
    }
  }

  // After every request the table holds only addresses seen within the idle limit and one clean-up period.
  lemma TableForgets(reqs: seq<Request>, rate: real, start: real, ip: Ip)
    requires InOrder(reqs) && reqs != [] && start <= reqs[0].at && ip in Run(reqs, rate, start).0.table
    ensures reqs[|reqs| - 1].at - Run(reqs, rate, start).0.table[ip].last < IDLE_LIMIT + CLEANUP_EVERY
  {
    RunRecent(reqs, rate, start);
  }
}
