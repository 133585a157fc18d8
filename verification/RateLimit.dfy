// The per-address token bucket and its clean-up of idle entries. Times are seconds.
module RateLimit {
  import opened Options

  type Ip = nat

  datatype Bucket = Bucket(tokens: real, last: real)

  datatype Request = Request(ip: Ip, at: real)

  const CLEANUP_EVERY: real := 60.0
  const IDLE_LIMIT: real := 120.0

  function Elapsed(now: real, then_: real): real { if now < then_ then 0.0 else now - then_ }

  // The tokens at `now`; an address not in the table starts with a full bucket.
  function Refilled(b: Option<Bucket>, now: real, rate: real): real {
    var tokens := if b.None? then rate else b.value.tokens + Elapsed(now, b.value.last) * rate;
    if tokens < rate then tokens else rate
  }

  // One new connection attempt.
  function Attempt(b: Option<Bucket>, now: real, rate: real): (Bucket, bool) {
    var t := Refilled(b, now, rate);
    if t < 1.0 then (Bucket(t, now), false) else (Bucket(t - 1.0, now), true)
  }

  function At(m: map<Ip, Bucket>, ip: Ip): Option<Bucket> { if ip in m then Some(m[ip]) else None }

  // ---- The limiter, which forgets idle addresses ----

  datatype Limiter = Limiter(table: map<Ip, Bucket>, lastCleanup: real)

  function Retained(m: map<Ip, Bucket>, now: real): map<Ip, Bucket> {
    map ip | ip in m && Elapsed(now, m[ip].last) < IDLE_LIMIT :: m[ip]
  }

  function Swept(l: Limiter, now: real): Limiter {
    if Elapsed(now, l.lastCleanup) >= CLEANUP_EVERY then Limiter(Retained(l.table, now), now) else l
  }

  function Handle(l: Limiter, q: Request, rate: real): (Limiter, bool) {
    var s := Swept(l, q.at);
    var (b, ok) := Attempt(At(s.table, q.ip), q.at, rate);
    (s.(table := s.table[q.ip := b]), ok)
  }

  function Run(reqs: seq<Request>, rate: real, start: real): (Limiter, seq<bool>) {
    if reqs == [] then (Limiter(map[], start), [])
    else
      var (l, oks) := Run(reqs[..|reqs| - 1], rate, start);
      var (m, ok) := Handle(l, reqs[|reqs| - 1], rate);
      (m, oks + [ok])
  }

  // ---- The reference: a table that never forgets ----

  function Forever(reqs: seq<Request>, rate: real): (map<Ip, Bucket>, seq<bool>) {
    if reqs == [] then (map[], [])
    else
      var (m, oks) := Forever(reqs[..|reqs| - 1], rate);
      var q := reqs[|reqs| - 1];
      var (b, ok) := Attempt(At(m, q.ip), q.at, rate);
      (m[q.ip := b], oks + [ok])
  }

  ghost predicate InOrder(reqs: seq<Request>) { forall i, j | 0 <= i < j < |reqs| :: reqs[i].at <= reqs[j].at }

  // Tokens are never negative nor above the rate, and no entry is from the future.
  ghost predicate Sound(m: map<Ip, Bucket>, now: real, rate: real) {
    forall ip | ip in m :: 0.0 <= m[ip].tokens <= rate && m[ip].last <= now
  }

  // The limiter's table is the reference table without some addresses that are idle, hence full.
  ghost predicate Forgets(a: map<Ip, Bucket>, b: map<Ip, Bucket>, now: real) {
    && (forall ip | ip in a :: ip in b && a[ip] == b[ip])
    && (forall ip | ip in b && ip !in a :: now - b[ip].last >= IDLE_LIMIT)
  }

  lemma Scale(x: real, y: real, rate: real)
    requires rate >= 0.0 && x >= y
    ensures x * rate >= y * rate
  {}

  // A bucket idle for the limit is full, as if it had been forgotten.
  lemma IdleIsFull(b: Bucket, now: real, rate: real)
    requires rate >= 0.0 && b.tokens >= 0.0 && now - b.last >= IDLE_LIMIT
    ensures Refilled(Some(b), now, rate) == rate == Refilled(None, now, rate)
  {
    Scale(now - b.last, 1.0, rate);
  }

  lemma AttemptSound(b: Option<Bucket>, now: real, rate: real)
    requires rate >= 0.0 && (b.Some? ==> 0.0 <= b.value.tokens <= rate && b.value.last <= now)
    ensures 0.0 <= Attempt(b, now, rate).0.tokens <= rate && Attempt(b, now, rate).0.last == now
  {
    if b.Some? { Scale(Elapsed(now, b.value.last), 0.0, rate); }
  }

  lemma SameAttempt(a: map<Ip, Bucket>, b: map<Ip, Bucket>, ip: Ip, now: real, rate: real)
    requires rate >= 0.0 && Sound(b, now, rate) && Forgets(a, b, now)
    ensures Attempt(At(a, ip), now, rate) == Attempt(At(b, ip), now, rate)
  {
    if ip in b && ip !in a { IdleIsFull(b[ip], now, rate); }
  }

  lemma SweepForgets(l: Limiter, b: map<Ip, Bucket>, before: real, now: real)
    requires Forgets(l.table, b, before) && before <= now
    ensures Forgets(Swept(l, now).table, b, now)
  {}

  lemma StepForgets(a: map<Ip, Bucket>, b: map<Ip, Bucket>, ip: Ip, x: Bucket, now: real)
    requires Forgets(a, b, now)
    ensures Forgets(a[ip := x], b[ip := x], now)
  {}

  ghost predicate Matches(reqs: seq<Request>, rate: real, start: real) {
    var (l, oks) := Run(reqs, rate, start);
    var (m, ref) := Forever(reqs, rate);
    var now := if reqs == [] then start else reqs[|reqs| - 1].at;
    oks == ref && Forgets(l.table, m, now) && Sound(m, now, rate)
  }

  lemma MatchesStep(l: Limiter, m: map<Ip, Bucket>, before: real, q: Request, rate: real)
    requires rate >= 0.0 && Forgets(l.table, m, before) && Sound(m, before, rate) && before <= q.at
    ensures var (l', ok) := Handle(l, q, rate);
      var (b, ref) := Attempt(At(m, q.ip), q.at, rate);
      ok == ref && Forgets(l'.table, m[q.ip := b], q.at) && Sound(m[q.ip := b], q.at, rate)
  {
    SweepForgets(l, m, before, q.at);
    SameAttempt(Swept(l, q.at).table, m, q.ip, q.at, rate);
    AttemptSound(At(m, q.ip), q.at, rate);
    StepForgets(Swept(l, q.at).table, m, q.ip, Attempt(At(m, q.ip), q.at, rate).0, q.at);
  }

  // Forgetting idle addresses is unobservable: every decision is the one of a table that never forgets.
  lemma {:induction false} CleanupUnobservable(reqs: seq<Request>, rate: real, start: real)
    requires rate >= 0.0 && InOrder(reqs) && (reqs != [] ==> start <= reqs[0].at)
    ensures Matches(reqs, rate, start) && Run(reqs, rate, start).1 == Forever(reqs, rate).1
  {
    if reqs != [] {
      var front, q := reqs[..|reqs| - 1], reqs[|reqs| - 1];
      CleanupUnobservable(front, rate, start);
      var before := if front == [] then start else front[|front| - 1].at;
      MatchesStep(Run(front, rate, start).0, Forever(front, rate).0, before, q, rate);
    }
  }

  // ---- How many are admitted ----

  // Requests i .. j - 1 of the address that were admitted.
  function Admitted(reqs: seq<Request>, oks: seq<bool>, ip: Ip, i: nat, j: nat): nat
    requires i <= j <= |reqs| && |oks| == |reqs|
    decreases j
  {
    if i == j then 0 else Admitted(reqs, oks, ip, i, j - 1) + (if reqs[j - 1].ip == ip && oks[j - 1] then 1 else 0)
  }

  lemma {:induction false} ForeverLength(reqs: seq<Request>, rate: real)
    ensures |Forever(reqs, rate).1| == |reqs|
  {
    if reqs != [] { ForeverLength(reqs[..|reqs| - 1], rate); }
  }

  // What one address has used since time t0: admitted so far, plus the tokens left, never exceed
  // a full bucket and what was poured in since.
  ghost predicate Budget(used: nat, b: Option<Bucket>, t0: real, rate: real) {
    used == 0 || (b.Some? && b.value.last >= t0 && used as real + b.value.tokens <= rate + (b.value.last - t0) * rate)
  }

  lemma Pour(a: real, b: real, c: real, rate: real)
    ensures (a - b) * rate + (b - c) * rate == (a - c) * rate
  {}

  lemma BudgetStep(used: nat, b: Option<Bucket>, t0: real, now: real, rate: real)
    requires rate >= 0.0 && Budget(used, b, t0, rate) && t0 <= now && (b.Some? ==> b.value.last <= now)
    ensures var (c, ok) := Attempt(b, now, rate); Budget(if ok then used + 1 else used, Some(c), t0, rate)
  {
    var (c, ok) := Attempt(b, now, rate);
    Scale(now - t0, 0.0, rate);
    if used > 0 { Pour(now, b.value.last, t0, rate); }
  }

  lemma {:induction false} AdmittedPrefix(reqs: seq<Request>, oks: seq<bool>, ip: Ip, i: nat, j: nat, n: nat)
    requires i <= j <= n <= |reqs| && |oks| == |reqs|
    ensures Admitted(reqs[..n], oks[..n], ip, i, j) == Admitted(reqs, oks, ip, i, j)
    decreases j
  {
    if i < j { AdmittedPrefix(reqs, oks, ip, i, j - 1, n); }
  }

  lemma {:induction false} ForeverPrefix(reqs: seq<Request>, rate: real, n: nat)
    requires n <= |reqs|
    ensures |Forever(reqs, rate).1| == |reqs| && Forever(reqs[..n], rate).1 == Forever(reqs, rate).1[..n]
    decreases |reqs|
  {
    ForeverLength(reqs, rate);
    if n == |reqs| {
      assert reqs[..n] == reqs;
    } else {
      var front := reqs[..|reqs| - 1];
      ForeverPrefix(front, rate, n);
      assert front[..n] == reqs[..n];
    }
  }

  lemma TableSound(reqs: seq<Request>, rate: real, start: real, ip: Ip)
    requires rate >= 0.0 && InOrder(reqs) && reqs != [] && start <= reqs[0].at
    ensures var b := At(Forever(reqs, rate).0, ip); b.Some? ==>
      b.value.last <= reqs[|reqs| - 1].at && b.value.tokens >= 0.0
  {
    CleanupUnobservable(reqs, rate, start);
  }

  // The budget of one address from request i on, at the end of the requests.
  ghost predicate BudgetHolds(reqs: seq<Request>, rate: real, ip: Ip, i: nat) {
    && |Forever(reqs, rate).1| == |reqs| && i <= |reqs| && (i < |reqs| ==>
      Budget(Admitted(reqs, Forever(reqs, rate).1, ip, i, |reqs|), At(Forever(reqs, rate).0, ip), reqs[i].at, rate))
  }

  // The requests from i on, counted after one more.
  lemma AdmittedLast(reqs: seq<Request>, rate: real, ip: Ip, i: nat)
    requires i < |reqs|
    ensures var n, q := |reqs| - 1, reqs[|reqs| - 1];
      var front := Forever(reqs[..n], rate);
      var (b, ok) := Attempt(At(front.0, q.ip), q.at, rate);
      && |front.1| == n && Forever(reqs, rate) == (front.0[q.ip := b], front.1 + [ok])
      && Admitted(reqs, front.1 + [ok], ip, i, n + 1) ==
         Admitted(reqs[..n], front.1, ip, i, n) + (if q.ip == ip && ok then 1 else 0)
  {
    var n := |reqs| - 1;
    ForeverLength(reqs, rate);
    ForeverLength(reqs[..n], rate);
    var oks := Forever(reqs, rate).1;
    AdmittedPrefix(reqs, oks, ip, i, n, n);
    assert oks[..n] == Forever(reqs[..n], rate).1;
  }

  lemma {:induction false} BudgetKept(reqs: seq<Request>, rate: real, start: real, ip: Ip, i: nat)
    requires rate >= 0.0 && InOrder(reqs) && i < |reqs| && start <= reqs[0].at
    ensures BudgetHolds(reqs, rate, ip, i)
    decreases |reqs|
  {
    hide Forever, Budget, Attempt, Admitted;
    var n := |reqs| - 1;
    var front, q := reqs[..n], reqs[n];
    var (m, oks) := Forever(front, rate);
    ForeverLength(front, rate);
    if i < n { BudgetKept(front, rate, start, ip, i); } else { NoneYet(front, oks, ip, At(m, ip), q.at, rate); }
    if front != [] { TableSound(front, rate, start, ip); } else { EmptyTable(rate); }
    AdmittedLast(reqs, rate, ip, i);
    BudgetLast(reqs, m, oks, rate, ip, i);
  }

  lemma NoneYet(reqs: seq<Request>, oks: seq<bool>, ip: Ip, b: Option<Bucket>, t: real, rate: real)
    requires |oks| == |reqs|
    ensures Budget(Admitted(reqs, oks, ip, |reqs|, |reqs|), b, t, rate)
  {}

  lemma EmptyTable(rate: real)
    ensures Forever([], rate).0 == map[]
  {}

  lemma BudgetLast(reqs: seq<Request>, m: map<Ip, Bucket>, oks: seq<bool>, rate: real, ip: Ip, i: nat)
    requires rate >= 0.0 && InOrder(reqs) && i < |reqs| && |oks| == |reqs| - 1
    requires Budget(Admitted(reqs[..|reqs| - 1], oks, ip, i, |reqs| - 1), At(m, ip), reqs[i].at, rate)
    requires ip in m ==> m[ip].last <= reqs[|reqs| - 1].at
    ensures var q := reqs[|reqs| - 1];
      var (b, ok) := Attempt(At(m, q.ip), q.at, rate);
      var used := Admitted(reqs[..|reqs| - 1], oks, ip, i, |reqs| - 1);
      Budget(used + (if q.ip == ip && ok then 1 else 0), At(m[q.ip := b], ip), reqs[i].at, rate)
  {
    var q := reqs[|reqs| - 1];
    if q.ip == ip {
      BudgetStep(Admitted(reqs[..|reqs| - 1], oks, ip, i, |reqs| - 1), At(m, ip), reqs[i].at, q.at, rate);
    }
  }

  // At most a full bucket and what is poured in from one time to another.
  ghost predicate WithinRate(used: nat, rate: real, from: real, to: real) { used as real <= rate + (to - from) * rate }

  // The bound for all requests from i to the last one.
  lemma LastAtMost(reqs: seq<Request>, rate: real, start: real, ip: Ip, i: nat)
    requires rate >= 0.0 && InOrder(reqs) && i < |reqs| && start <= reqs[0].at
    ensures |Forever(reqs, rate).1| == |reqs|
    ensures WithinRate(Admitted(reqs, Forever(reqs, rate).1, ip, i, |reqs|), rate, reqs[i].at, reqs[|reqs| - 1].at)
  {
    BudgetKept(reqs, rate, start, ip, i);
    TableSound(reqs, rate, start, ip);
    WithinBudget(Admitted(reqs, Forever(reqs, rate).1, ip, i, |reqs|), At(Forever(reqs, rate).0, ip), reqs[i].at,
                 reqs[|reqs| - 1].at, rate);
  }

  lemma ForeverAtMost(reqs: seq<Request>, rate: real, start: real, ip: Ip, i: nat, j: nat)
    requires rate >= 0.0 && InOrder(reqs) && i < j <= |reqs| && start <= reqs[0].at
    ensures |Forever(reqs, rate).1| == |reqs|
    ensures WithinRate(Admitted(reqs, Forever(reqs, rate).1, ip, i, j), rate, reqs[i].at, reqs[j - 1].at)
  {
    ForeverPrefix(reqs, rate, j);
    LastAtMost(reqs[..j], rate, start, ip, i);
    AdmittedPrefix(reqs, Forever(reqs, rate).1, ip, i, j, j);
  }

  // Over any interval of length T one address is admitted at most rate + T * rate times.
  lemma AdmittedAtMost(reqs: seq<Request>, rate: real, start: real, ip: Ip, i: nat, j: nat)
    requires rate >= 0.0 && InOrder(reqs) && i < j <= |reqs| && start <= reqs[0].at
    ensures |Run(reqs, rate, start).1| == |reqs|
    ensures Admitted(reqs, Run(reqs, rate, start).1, ip, i, j) as real <= rate + (reqs[j - 1].at - reqs[i].at) * rate
  {
    SameDecisions(reqs, rate, start);
    ForeverAtMost(reqs, rate, start, ip, i, j);
  }

  lemma SameDecisions(reqs: seq<Request>, rate: real, start: real)
    requires rate >= 0.0 && InOrder(reqs) && (reqs != [] ==> start <= reqs[0].at)
    ensures Run(reqs, rate, start).1 == Forever(reqs, rate).1
  {
    CleanupUnobservable(reqs, rate, start);
  }

  lemma NonNegative(x: real, rate: real)
    requires x >= 0.0 && rate >= 0.0
    ensures x * rate >= 0.0
  {}

  lemma NoTime(rate: real)
    ensures 0.0 * rate == 0.0
  {}

  lemma WithinBudget(used: nat, b: Option<Bucket>, t0: real, now: real, rate: real)
    requires rate >= 0.0 && Budget(used, b, t0, rate) && t0 <= now
    requires (b.Some? ==> b.value.last <= now && b.value.tokens >= 0.0)
    ensures WithinRate(used, rate, t0, now)
  {
    NonNegative(now - t0, rate);
    if used > 0 {
      Scale(now - t0, b.value.last - t0, rate);
      Fits(used as real, b.value.tokens, rate, (b.value.last - t0) * rate, (now - t0) * rate);
    }
  }

  lemma Fits(used: real, tokens: real, rate: real, x: real, y: real)
    requires used + tokens <= rate + x && x <= y && tokens >= 0.0
    ensures used <= rate + y
  {}

  // ---- The loop's state ----

  class RecvLoop {
    var ipRate: map<Ip, Bucket>
    var lastCleanup: real
    const rate: real

    ghost function View(): Limiter
      reads this
    {
      Limiter(ipRate, lastCleanup)
    }

    constructor (r: real, now: real)
      ensures View() == Limiter(map[], now) && rate == r
    {
      ipRate, lastCleanup, rate := map[], now, r;
    }

    method Sweep(now: real)
      modifies this
      ensures View() == Swept(old(View()), now)
    {
      if Elapsed(now, lastCleanup) >= CLEANUP_EVERY {
        ipRate := Retained(ipRate, now);
        lastCleanup := now;
      }
    }

    // One packet from an unknown remote: sweep if due, refill, decide.
    method Admit(ip: Ip, now: real) returns (ok: bool)
      modifies this
      ensures (View(), ok) == Handle(old(View()), Request(ip, now), rate)
    {
      Sweep(now);
      ghost var swept := ipRate;
      NoTime(rate);
      var entry := if ip in ipRate then ipRate[ip] else Bucket(rate, now);
      var tokens := entry.tokens + Elapsed(now, entry.last) * rate;
      tokens := if tokens < rate then tokens else rate;
      assert tokens == Refilled(At(swept, ip), now, rate);
      ipRate := ipRate[ip := Bucket(tokens, now)];
      if tokens < 1.0 {
        return false;
      }
      ipRate := ipRate[ip := Bucket(tokens - 1.0, now)];
      assert ipRate == swept[ip := Bucket(tokens - 1.0, now)];
      return true;
    }
  }
}
