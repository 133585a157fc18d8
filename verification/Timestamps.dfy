// Audit timestamps as text: their order is the order of time.
module Timestamps {
  import opened Options
  import opened Calendar
  import opened Division

  // ---- Text order ----

  // Strings compare character by character; a proper prefix comes first.
  predicate Less(a: string, b: string) {
    b != [] && (a == [] || a[0] < b[0] || (a[0] == b[0] && Less(a[1..], b[1..])))
  }

  lemma {:induction false} LessAsymmetric(a: string, b: string)
    requires Less(a, b)
    ensures !Less(b, a) && a != b
  {
    if a != [] && a[0] == b[0] { LessAsymmetric(a[1..], b[1..]); }
  }

  // The first of two blocks of one width decides, if it differs.
  lemma {:induction false} LessAppend(a: string, b: string, x: string, y: string)
    requires |a| == |b| && Less(a, b)
    ensures Less(a + x, b + y)
  {
    assert (a + x)[1..] == a[1..] + x && (b + y)[1..] == b[1..] + y;
    if a[0] == b[0] { LessAppend(a[1..], b[1..], x, y); }
  }

  lemma {:induction false} LessPrepend(a: string, x: string, y: string)
    ensures Less(a + x, a + y) == Less(x, y)
  {
    if a == [] {
      assert a + x == x && a + y == y;
    } else {
      assert (a + x)[1..] == a[1..] + x && (a + y)[1..] == a[1..] + y;
      LessPrepend(a[1..], x, y);
    }
  }

  // ---- Decimal text ----

  function Digit(n: nat): char
    requires n < 10
  {
    "0123456789"[n]
  }

  function Decimal(n: nat): (t: string)
    ensures |t| > 0
  {
    if n < 10 then [Digit(n)] else Decimal(n / 10) + [Digit(n % 10)]
  }

  function Zeros(n: nat): (z: string)
    ensures |z| == n
  {
    if n == 0 then "" else Zeros(n - 1) + "0"
  }

  // At least w characters, with zeros in front.
  function Pad(n: nat, w: nat): string {
    var t := Decimal(n);
    if |t| < w then Zeros(w - |t|) + t else t
  }

  function Pow10(w: nat): (p: nat)
    ensures p >= 1
  {
    if w == 0 then 1 else 10 * Pow10(w - 1)
  }

  lemma {:induction false} DecimalWidth(n: nat, w: nat)
    requires w > 0 && n < Pow10(w)
    ensures |Decimal(n)| <= w
    decreases w
  {
    if n >= 10 { DecimalWidth(n / 10, w - 1); }
  }

  lemma PadWidth(n: nat, w: nat)
    requires w > 0 && n < Pow10(w)
    ensures |Pad(n, w)| == w
  {
    DecimalWidth(n, w);
  }

  lemma ZerosPlus(n: nat, t: string, c: char)
    ensures Zeros(n) + (t + [c]) == Zeros(n) + t + [c]
  {}

  // The last digit of a padded number, and what stands before it.
  lemma PadLast(n: nat, w: nat)
    requires w > 1
    ensures Pad(n, w) == Pad(n / 10, w - 1) + [Digit(n % 10)]
  {
    if n < 10 {
      assert n / 10 == 0 && n % 10 == n;
      ZerosPlus(w - 2, "0", Digit(n));
      if w == 2 { assert Zeros(1) == "0"; }
    } else {
      var t := Decimal(n / 10);
      if |t| < w - 1 { ZerosPlus(w - 1 - |t|, t, Digit(n % 10)); }
    }
  }

  lemma LessDigit(a: nat, b: nat)
    requires a < b < 10
    ensures Less([Digit(a)], [Digit(b)])
  {}

  lemma LessSnoc(x: string, y: string, a: nat, b: nat)
    requires |x| == |y| && a < 10 && b < 10 && (Less(x, y) || (x == y && a < b))
    ensures Less(x + [Digit(a)], y + [Digit(b)])
  {
    if Less(x, y) {
      LessAppend(x, y, [Digit(a)], [Digit(b)]);
    } else {
      LessDigit(a, b);
      LessPrepend(x, [Digit(a)], [Digit(b)]);
    }
  }

  lemma Tens(a: nat, b: nat)
    requires a < b
    ensures a / 10 < b / 10 || (a / 10 == b / 10 && a % 10 < b % 10)
  {}

  // Padded numbers of one width sort like the numbers.
  lemma {:induction false} PadOrder(a: nat, b: nat, w: nat)
    requires w > 0 && a < b < Pow10(w)
    ensures Less(Pad(a, w), Pad(b, w))
    decreases w
  {
    if w == 1 {
      LessDigit(a, b);
    } else {
      Tens(a, b);
      PadWidth(a / 10, w - 1);
      PadWidth(b / 10, w - 1);
      if a / 10 < b / 10 { PadOrder(a / 10, b / 10, w - 1); }
      LessSnoc(Pad(a / 10, w - 1), Pad(b / 10, w - 1), a % 10, b % 10);
      PadLast(a, w);
      PadLast(b, w);
    }
  }

  // ---- Formatted fields ----

  // A number, its width, and the text after it.
  datatype Field = Field(value: nat, width: nat, after: string)

  function Text(f: Field): string { Pad(f.value, f.width) + f.after }

  function Texts(fs: seq<Field>): seq<string> { seq(|fs|, i requires 0 <= i < |fs| => Text(fs[i])) }

  function Join(parts: seq<string>): string { if parts == [] then "" else parts[0] + Join(parts[1..]) }

  function Render(fs: seq<Field>): string { Join(Texts(fs)) }

  lemma RenderFirst(fs: seq<Field>)
    requires fs != []
    ensures Render(fs) == Text(fs[0]) + Render(fs[1..])
  {
    assert Texts(fs)[1..] == Texts(fs[1..]);
  }

  lemma {:induction false} JoinSplit(a: seq<string>, b: seq<string>)
    ensures Join(a + b) == Join(a) + Join(b)
  {
    if a == [] {
      assert a + b == b && Join(a) + Join(b) == Join(b);
    } else {
      JoinSplit(a[1..], b);
      assert (a + b)[1..] == a[1..] + b;
      Associate(a[0], Join(a[1..]), Join(b));
    }
  }

  lemma RenderSplit(a: seq<Field>, b: seq<Field>)
    ensures Render(a + b) == Render(a) + Render(b)
  {
    TextsSplit(a, b);
    JoinSplit(Texts(a), Texts(b));
  }

  lemma TextsSplit(a: seq<Field>, b: seq<Field>)
    ensures Texts(a + b) == Texts(a) + Texts(b)
  {}

  ghost predicate Fit(fs: seq<Field>) {
    forall i | 0 <= i < |fs| :: fs[i].width > 0 && fs[i].value < Pow10(fs[i].width)
  }

  ghost predicate SameShape(a: seq<Field>, b: seq<Field>) {
    |a| == |b| && forall i | 0 <= i < |a| :: a[i].width == b[i].width && a[i].after == b[i].after
  }

  // The first number that differs decides.
  ghost predicate Precedes(a: seq<Field>, b: seq<Field>)
    requires |a| == |b|
  {
    a != [] && (a[0].value < b[0].value || (a[0].value == b[0].value && Precedes(a[1..], b[1..])))
  }

  lemma RenderHead(a: Field, b: Field, x: string, y: string)
    requires a.width == b.width > 0 && a.after == b.after && a.value < b.value < Pow10(a.width)
    ensures Less(Text(a) + x, Text(b) + y)
  {
    PadOrder(a.value, b.value, a.width);
    PadWidth(a.value, a.width);
    PadWidth(b.value, b.width);
    LessAppend(Pad(a.value, a.width), Pad(b.value, b.width), a.after, b.after);
    LessAppend(Text(a), Text(b), x, y);
  }

  // Fixed-width fields sort like their numbers.
  lemma {:induction false} RenderOrder(a: seq<Field>, b: seq<Field>)
    requires SameShape(a, b) && Fit(a) && Fit(b) && Precedes(a, b)
    ensures Less(Render(a), Render(b))
  {
    RenderFirst(a);
    RenderFirst(b);
    if a[0].value < b[0].value {
      RenderHead(a[0], b[0], Render(a[1..]), Render(b[1..]));
    } else {
      RenderOrder(a[1..], b[1..]);
      LessPrepend(Text(a[0]), Render(a[1..]), Render(b[1..]));
    }
  }

  // ---- Timestamps ----

  function DateFields(t: Date, last: string): seq<Field> {
    [Field(t.y, 4, "-"), Field(t.m, 2, "-"), Field(t.d, 2, last)]
  }

  function ClockFields(secs: nat): seq<Field> {
    [Field((secs / 3600) % 24, 2, ":"), Field((secs / 60) % 60, 2, ":"), Field(secs % 60, 2, "Z")]
  }

  function Fields(t: Date, secs: nat): seq<Field> { DateFields(t, "T") + ClockFields(secs) }

  // now_rfc3339 at a given time.
  function Stamp(secs: nat): string { Render(Fields(Ymd(secs / 86400), secs)) }

  // The day alone, as given to --since.
  function DayText(t: Date): string { Render(DateFields(t, "")) }

  lemma Clock(secs: nat)
    ensures var h, m, s := (secs / 3600) % 24, (secs / 60) % 60, secs % 60;
      secs == 86400 * (secs / 86400) + 3600 * h + 60 * m + s
  {
    Nest(secs, 60, 60, 3600);
    Nest(secs, 3600, 24, 86400);
  }

  // Dividing twice is dividing by the product.
  lemma Nest(n: nat, a: nat, b: nat, k: nat)
    requires a > 0 && b > 0 && k == a * b
    ensures k > 0 && n / k == (n / a) / b && n == k * (n / k) + a * ((n / a) % b) + n % a
  {
    NestOf(n, a, b, k, n / a, n % a, (n / a) / b, (n / a) % b);
    Positive(a, b);
    Quotient(n, k, (n / a) / b, a * ((n / a) % b) + n % a);
  }

  lemma Positive(a: nat, b: nat)
    requires a > 0 && b > 0
    ensures a * b > 0
  {}

  lemma NestOf(n: nat, a: nat, b: nat, k: nat, p: nat, s: nat, q: nat, r: nat)
    requires k == a * b && n == a * p + s && s < a && p == b * q + r && r < b
    ensures n == k * q + (a * r + s) && a * r + s < k
  {
    Inner(a, b, r, s);
    Regroup(a, b, q, r);
  }

  lemma Inner(a: nat, b: nat, r: nat, s: nat)
    requires r < b && s < a
    ensures a * r + s < a * b
  {
    assert a * (r + 1) <= a * b by { Times(a, r + 1, b); }
  }

  lemma Times(a: nat, x: nat, y: nat)
    requires x <= y
    ensures a * x <= a * y
  {}

  lemma Regroup(a: nat, b: nat, q: nat, r: nat)
    ensures a * (b * q + r) == a * b * q + a * r
  {}

  // t is the day of the time secs, with a four-digit year.
  ghost predicate DayOf(t: Date, secs: nat) { t.Valid() && t.y < 10000 && DayNumber(t) == secs / 86400 }

  lemma FieldsFit(t: Date, secs: nat)
    requires t.Valid() && t.y < 10000
    ensures Fit(Fields(t, secs))
  {
    Powers();
  }

  lemma Powers()
    ensures Pow10(2) == 100 && Pow10(4) == 10000
  {
    assert Pow10(1) == 10 && Pow10(3) == 1000;
  }

  lemma {:induction false} PrecedesAppend(a: seq<Field>, b: seq<Field>, x: seq<Field>, y: seq<Field>)
    requires |a| == |b| && |x| == |y| && Precedes(a, b)
    ensures Precedes(a + x, b + y)
  {
    assert (a + x)[1..] == a[1..] + x && (b + y)[1..] == b[1..] + y;
    if a[0].value == b[0].value && !(a[0].value < b[0].value) { PrecedesAppend(a[1..], b[1..], x, y); }
  }

  lemma {:induction false} PrecedesPrepend(a: seq<Field>, x: seq<Field>, y: seq<Field>)
    requires |x| == |y| && Precedes(x, y)
    ensures Precedes(a + x, a + y)
  {
    if a == [] {
      assert a + x == x && a + y == y;
    } else {
      assert (a + x)[1..] == a[1..] + x && (a + y)[1..] == a[1..] + y;
      PrecedesPrepend(a[1..], x, y);
    }
  }

  lemma DatePrecedes(a: Date, b: Date, t: string)
    requires Earlier(a, b)
    ensures Precedes(DateFields(a, t), DateFields(b, t))
  {
    var x, y := DateFields(a, t), DateFields(b, t);
    assert x[1..] == [Field(a.m, 2, "-"), Field(a.d, 2, t)] && y[1..] == [Field(b.m, 2, "-"), Field(b.d, 2, t)];
    assert x[1..][1..] == [Field(a.d, 2, t)] && y[1..][1..] == [Field(b.d, 2, t)];
  }

  lemma ClockPrecedes(a: nat, b: nat)
    requires a < b && a / 86400 == b / 86400
    ensures Precedes(ClockFields(a), ClockFields(b))
  {
    Clock(a);
    Clock(b);
    ThreeFields((a / 3600) % 24, (a / 60) % 60, a % 60, (b / 3600) % 24, (b / 60) % 60, b % 60);
  }

  lemma ThreeFields(h: nat, m: nat, s: nat, h': nat, m': nat, s': nat)
    requires 3600 * h + 60 * m + s < 3600 * h' + 60 * m' + s' && m < 60 && s < 60 && m' < 60 && s' < 60
    ensures Precedes([Field(h, 2, ":"), Field(m, 2, ":"), Field(s, 2, "Z")],
                     [Field(h', 2, ":"), Field(m', 2, ":"), Field(s', 2, "Z")])
  {
    var x := [Field(h, 2, ":"), Field(m, 2, ":"), Field(s, 2, "Z")];
    var y := [Field(h', 2, ":"), Field(m', 2, ":"), Field(s', 2, "Z")];
    assert x[1..] == [Field(m, 2, ":"), Field(s, 2, "Z")] && y[1..] == [Field(m', 2, ":"), Field(s', 2, "Z")];
    assert x[1..][1..] == [Field(s, 2, "Z")] && y[1..][1..] == [Field(s', 2, "Z")];
  }

  lemma TimePrecedes(s: Date, a: nat, t: Date, b: nat)
    requires DayOf(s, a) && DayOf(t, b) && a < b
    ensures Precedes(Fields(s, a), Fields(t, b))
  {
    if a / 86400 < b / 86400 {
      DateOrder(s, t);
      DatePrecedes(s, t, "T");
      PrecedesAppend(DateFields(s, "T"), DateFields(t, "T"), ClockFields(a), ClockFields(b));
    } else {
      DateUnique(s, t);
      ClockPrecedes(a, b);
      PrecedesPrepend(DateFields(s, "T"), ClockFields(a), ClockFields(b));
    }
  }

  lemma DateOrder(s: Date, t: Date)
    requires s.Valid() && t.Valid() && DayNumber(s) < DayNumber(t)
    ensures Earlier(s, t)
  {
    if Earlier(t, s) { DaysAscend(t, s); }
  }

  lemma FieldsShape(s: Date, a: nat, t: Date, b: nat)
    ensures SameShape(Fields(s, a), Fields(t, b))
  {}

  lemma TextLess(s: Date, a: nat, t: Date, b: nat)
    requires DayOf(s, a) && DayOf(t, b) && a < b
    ensures Less(Render(Fields(s, a)), Render(Fields(t, b)))
  {
    FieldsFit(s, a);
    FieldsFit(t, b);
    FieldsShape(s, a, t, b);
    TimePrecedes(s, a, t, b);
    RenderOrder(Fields(s, a), Fields(t, b));
  }

  lemma TextOrder(s: Date, a: nat, t: Date, b: nat)
    requires DayOf(s, a) && DayOf(t, b)
    ensures Less(Render(Fields(s, a)), Render(Fields(t, b))) <==> a < b
  {
    if a < b {
      TextLess(s, a, t, b);
    } else if b < a {
      TextLess(t, b, s, a);
      LessAsymmetric(Render(Fields(t, b)), Render(Fields(s, a)));
    } else {
      DateUnique(s, t);
      NotLess(Render(Fields(s, a)));
    }
  }

  // Up to the year 9999 the text order of timestamps is the order of time.
  lemma StampOrder(a: nat, b: nat)
    requires Ymd(a / 86400).y < 10000 && Ymd(b / 86400).y < 10000
    ensures Less(Stamp(a), Stamp(b)) <==> a < b
  {
    YmdOf(a / 86400);
    YmdOf(b / 86400);
    TextOrder(Ymd(a / 86400), a, Ymd(b / 86400), b);
  }

  lemma {:induction false} NotLess(a: string)
    ensures !Less(a, a)
  {
    if a != [] { NotLess(a[1..]); }
  }

  // ---- The --since filter ----

  predicate StartsWith(t: string, prefix: string) { prefix <= t }

  // A record is kept unless it sorts before the prefix without starting with it.
  predicate Keep(ts: string, since: string) { StartsWith(ts, since) || !Less(ts, since) }

  lemma Associate(x: string, y: string, z: string)
    ensures x + (y + z) == x + y + z
  {}

  // A timestamp is its day, a T, and the clock.
  lemma StampIsDayAndClock(secs: nat)
    ensures Stamp(secs) == DayText(Ymd(secs / 86400)) + ("T" + Render(ClockFields(secs)))
  {
    RenderSplit(DateFields(Ymd(secs / 86400), "T"), ClockFields(secs));
    DayThenT(Ymd(secs / 86400));
    Associate(DayText(Ymd(secs / 86400)), "T", Render(ClockFields(secs)));
  }

  lemma DayThenT(t: Date)
    ensures Render(DateFields(t, "T")) == DayText(t) + "T"
  {
    RenderSplit([Field(t.y, 4, "-"), Field(t.m, 2, "-")], [Field(t.d, 2, "T")]);
    RenderSplit([Field(t.y, 4, "-"), Field(t.m, 2, "-")], [Field(t.d, 2, "")]);
    OneField(t.d, "T");
    OneField(t.d, "");
    assert DateFields(t, "T") == [Field(t.y, 4, "-"), Field(t.m, 2, "-")] + [Field(t.d, 2, "T")];
    assert DateFields(t, "") == [Field(t.y, 4, "-"), Field(t.m, 2, "-")] + [Field(t.d, 2, "")];
  }

  lemma OneField(n: nat, t: string)
    ensures Render([Field(n, 2, t)]) == Pad(n, 2) + t
  {
    RenderFirst([Field(n, 2, t)]);
    assert Text(Field(n, 2, t)) + "" == Text(Field(n, 2, t));
  }

  lemma {:induction false} RenderWidth(a: seq<Field>, b: seq<Field>)
    requires SameShape(a, b) && Fit(a) && Fit(b)
    ensures |Render(a)| == |Render(b)|
  {
    if a != [] {
      RenderFirst(a);
      RenderFirst(b);
      PadWidth(a[0].value, a[0].width);
      PadWidth(b[0].value, b[0].width);
      RenderWidth(a[1..], b[1..]);
    }
  }

  lemma DayFits(t: Date)
    requires t.Valid() && t.y < 10000
    ensures Fit(DateFields(t, ""))
  {
    Powers();
  }

  lemma DayOrder(a: Date, b: Date)
    requires a.Valid() && b.Valid() && a.y < 10000 && b.y < 10000
    ensures |DayText(a)| == |DayText(b)|
    ensures Earlier(a, b) ==> Less(DayText(a), DayText(b))
  {
    DayFits(a);
    DayFits(b);
    RenderWidth(DateFields(a, ""), DateFields(b, ""));
    if Earlier(a, b) {
      DatePrecedes(a, b, "");
      RenderOrder(DateFields(a, ""), DateFields(b, ""));
    }
  }

  // --since with a day keeps exactly the records from midnight of that day on.
  lemma SinceDay(secs: nat, t: Date)
    requires t.Valid() && t.y < 10000 && Ymd(secs / 86400).y < 10000
    ensures Keep(Stamp(secs), DayText(t)) <==> secs >= 86400 * DayNumber(t)
  {
    StampIsDayAndClock(secs);
    YmdOf(secs / 86400);
    SinceText(Ymd(secs / 86400), t, "T" + Render(ClockFields(secs)));
    DayReached(secs, Ymd(secs / 86400), t);
  }

  lemma YmdOf(days: nat)
    ensures Ymd(days).Valid() && DayNumber(Ymd(days)) == days
  {
    DaysToYmdIs(days);
  }

  // Reaching a day is having a date that is not earlier.
  lemma DayReached(secs: nat, day: Date, t: Date)
    requires day.Valid() && t.Valid() && DayNumber(day) == secs / 86400
    ensures secs >= 86400 * DayNumber(t) <==> !Earlier(day, t)
  {
    if Earlier(day, t) {
      DaysAscend(day, t);
    } else if Earlier(t, day) {
      DaysAscend(t, day);
    }
  }

  lemma SinceText(day: Date, t: Date, tail: string)
    requires day.Valid() && t.Valid() && day.y < 10000 && t.y < 10000
    ensures Keep(DayText(day) + tail, DayText(t)) <==> !Earlier(day, t)
  {
    DayOrder(day, t);
    DayOrder(t, day);
    var a, b := DayText(day), DayText(t);
    assert b + [] == b;
    if Earlier(day, t) {
      LessAppend(a, b, tail, []);
      LessAsymmetric(a, b);
      assert (a + tail)[..|b|] == a;
    } else if Earlier(t, day) {
      LessAppend(b, a, [], tail);
      LessAsymmetric(b, a + tail);
    } else {
      assert day == t;
    }
  }

  lemma SinceFields(s: Date, a: nat, t: Date, b: nat)
    requires DayOf(s, a) && DayOf(t, b)
    ensures Keep(Render(Fields(s, a)), Render(Fields(t, b))) <==> a >= b
  {
    TextOrder(s, a, t, b);
    if a < b {
      FieldsFit(s, a);
      FieldsFit(t, b);
      FieldsShape(s, a, t, b);
      RenderWidth(Fields(s, a), Fields(t, b));
      LessAsymmetric(Render(Fields(s, a)), Render(Fields(t, b)));
    }
  }

  // --since with a full timestamp keeps exactly the records from that second on.
  lemma SinceStamp(secs: nat, from: nat)
    requires Ymd(secs / 86400).y < 10000 && Ymd(from / 86400).y < 10000
    ensures Keep(Stamp(secs), Stamp(from)) <==> secs >= from
  {
    YmdOf(secs / 86400);
    YmdOf(from / 86400);
    SinceFields(Ymd(secs / 86400), secs, Ymd(from / 86400), from);
  }

  // One line of the log that parsed.
  datatype Record = Record(ts: string, remote: string)

  predicate ContainsAt(s: string, part: string, i: nat) { i + |part| <= |s| && s[i..i + |part|] == part }

  predicate Contains(s: string, part: string) { exists i | 0 <= i <= |s| :: ContainsAt(s, part, i) }

  predicate FromHost(r: Record, host: Option<string>) { host.Some? ==> Contains(r.remote, host.value) }

  // The line is shown: it parsed and passes both filters.
  predicate Passes(line: Option<Record>, since: Option<string>, host: Option<string>) {
    line.Some? && (since.Some? ==> Keep(line.value.ts, since.value)) && FromHost(line.value, host)
  }

  function Matching(lines: seq<Option<Record>>, since: Option<string>, host: Option<string>): seq<Record> {
    if lines == [] then []
    else
      var last := lines[|lines| - 1];
      Matching(lines[..|lines| - 1], since, host) + (if Passes(last, since, host) then [last.value] else [])
  }

  function LastOf<T>(s: seq<T>, limit: nat): seq<T> { if limit > 0 && |s| > limit then s[|s| - limit..] else s }

  // The filter loop of `audit show` over the lines, None where a line is blank or malformed, and its limit.
  method Show(lines: seq<Option<Record>>, since: Option<string>, host: Option<string>, limit: nat)
    returns (out: seq<Record>)
    ensures out == LastOf(Matching(lines, since, host), limit)
  {
    var records: seq<Record> := [];
    for i := 0 to |lines|
      invariant records == Matching(lines[..i], since, host)
    {
      assert lines[..i + 1][..i] == lines[..i];
      if lines[i].None? {
        continue;
      }
      var rec := lines[i].value;
      if since.Some? && !StartsWith(rec.ts, since.value) && Less(rec.ts, since.value) {
        continue;
      }
      if host.Some? && !Contains(rec.remote, host.value) {
        continue;
      }
      records := records + [rec];
    }
    assert lines[..|lines|] == lines;
    var start := if limit > 0 && |records| > limit then |records| - limit else 0;
    out := records[start..];
  }

  // The record of this line was written at or after from, for this host.
  predicate WrittenSince(line: Option<Record>, time: nat, from: nat, host: Option<string>) {
    line.Some? && time >= from && FromHost(line.value, host)
  }

  function Since(lines: seq<Option<Record>>, times: seq<nat>, from: nat, host: Option<string>): seq<Record>
    requires |lines| == |times|
  {
    if lines == [] then []
    else
      var n := |lines| - 1;
      Since(lines[..n], times[..n], from, host) +
      (if WrittenSince(lines[n], times[n], from, host) then [lines[n].value] else [])
  }

  // Every record that parsed carries the timestamp of its time, up to the year 9999.
  ghost predicate Stamped(lines: seq<Option<Record>>, times: seq<nat>) {
    |lines| == |times| && forall i | 0 <= i < |lines| && lines[i].Some? ::
      lines[i].value.ts == Stamp(times[i]) && Ymd(times[i] / 86400).y < 10000
  }

  // Over a whole log, --since with a day selects by time.
  lemma {:induction false} SinceSelects(lines: seq<Option<Record>>, times: seq<nat>, t: Date, host: Option<string>)
    requires t.Valid() && t.y < 10000 && Stamped(lines, times)
    ensures Matching(lines, Some(DayText(t)), host) == Since(lines, times, 86400 * DayNumber(t), host)
  {
    if lines != [] {
      var n := |lines| - 1;
      assert Stamped(lines[..n], times[..n]);
      SinceSelects(lines[..n], times[..n], t, host);
      if lines[n].Some? { SinceDay(times[n], t); }
    }
  }

  // ---- Beyond the year 9999 ----

  lemma YmdAt(days: nat, t: Date)
    requires t.Valid() && DayNumber(t) == days
    ensures Ymd(days) == t
  {
    DaysToYmdIs(days);
    DateUnique(t, Ymd(days));
  }

  lemma FirstDigit(t: Date, secs: nat, c: char)
    requires Pad(t.y, 4)[..1] == [c]
    ensures |Render(Fields(t, secs))| > 0 && Render(Fields(t, secs))[0] == c
  {
    RenderFirst(Fields(t, secs));
  }

  lemma YearBegins(y: nat, n: nat)
    requires y >= 1970 && n == 365 * (y - 1970) + Leaps(y - 1) - 477
    ensures Date(y, 1, 1).Valid() && DayNumber(Date(y, 1, 1)) == n
  {
    YearStartClosed(y);
  }

  lemma YearEnds(y: nat, n: nat)
    requires y >= 1970 && n == 365 * (y - 1970) + Leaps(y - 1) - 477 + YearLen(y) - 1
    ensures Date(y, 12, 31).Valid() && DayNumber(Date(y, 12, 31)) == n
  {
    YearStartClosed(y);
    MonthOffsets(y);
  }

  lemma FirstDecides(a: string, b: string)
    requires a != [] && b != [] && a[0] < b[0]
    ensures Less(a, b) && !Less(b, a)
  {}

  lemma StampStarts(secs: nat, t: Date, c: char)
    requires t.Valid() && DayNumber(t) == secs / 86400 && Pad(t.y, 4)[..1] == [c]
    ensures |Stamp(secs)| > 0 && Stamp(secs)[0] == c
  {
    YmdAt(secs / 86400, t);
    FirstDigit(t, secs, c);
  }

  lemma LastOf9999(last: nat, y: nat)
    requires last == 253402300799 && y == 9999
    ensures |Stamp(last)| > 0 && Stamp(last)[0] == '9'
  {
    YearDigits(y);
    YearEnds(y, last / 86400);
    StampStarts(last, Date(y, 12, 31), '9');
  }

  lemma FirstOf10000(next: nat, y: nat)
    requires next == 253402300800 && y == 9999
    ensures |Stamp(next)| > 0 && Stamp(next)[0] == '1'
  {
    YearDigits(y);
    YearBegins(y + 1, next / 86400);
    StampStarts(next, Date(y + 1, 1, 1), '1');
  }

  // The last second of 9999 and the first of 10000 sort the wrong way round.
  lemma FiveDigitYears(last: nat, next: nat)
    requires last == 253402300799 && next == last + 1
    ensures Less(Stamp(next), Stamp(last)) && !Less(Stamp(last), Stamp(next))
  {
    hide Stamp, Less;
    LastOf9999(last, 9999);
    FirstOf10000(next, 9999);
    FirstDecides(Stamp(next), Stamp(last));
  }

  // Every pair of times up to n sorts like its text.
  ghost predicate SortsUpTo(n: nat) { forall a: nat, b: nat | a <= n && b <= n :: Less(Stamp(a), Stamp(b)) <==> a < b }

  // Up to the end of 9999 years have four digits.
  lemma FourDigits(a: nat, last: nat)
    requires last == 253402300799 && a <= last
    ensures Ymd(a / 86400).y < 10000
  {
    var y := last / 86400 - 2922897;
    YearEnds(y, last / 86400);
    YmdAt(last / 86400, Date(y, 12, 31));
    YmdMonotone(last / 86400, a / 86400);
  }

  // The text order of timestamps is the order of time exactly up to the last second of 9999.
  lemma StampOrderBound(n: nat, last: nat)
    requires last == 253402300799
    ensures SortsUpTo(n) <==> n <= last
  {
    if n <= last {
      forall a: nat, b: nat | a <= n && b <= n ensures Less(Stamp(a), Stamp(b)) <==> a < b {
        FourDigits(a, last);
        FourDigits(b, last);
        StampOrder(a, b);
      }
    } else {
      FiveDigitYears(last, last + 1);
    }
  }

  lemma YearDigits(y: nat)
    requires y == 9999
    ensures Pad(y, 4)[..1] == "9" && Pad(y + 1, 4)[..1] == "1"
  {
    assert Decimal(99) == "99" && Decimal(100) == "100";
    assert Decimal(999) == "999" && Decimal(1000) == "1000";
    assert Decimal(9999) == "9999" && Decimal(10000) == "10000";
  }

  // ---- The compact timestamp of key backups ----

  // The same six numbers with other separators.
  function CompactFields(t: Date, s: nat): seq<Field> {
    [Field(t.y, 4, ""), Field(t.m, 2, ""), Field(t.d, 2, "T"),
     Field(s / 3600, 2, ""), Field((s % 3600) / 60, 2, ""), Field(s % 60, 2, "Z")]
  }

  function Compact(t: Date, s: nat): string { Render(CompactFields(t, s)) }

  const DAY_CAST: nat := 0x1_0000_0000

  // The compact timestamp of a time: the day count is cast to 32 bits.
  function CompactStamp(secs: nat): string { Compact(Ymd((secs / 86400) % DAY_CAST), secs % 86400) }

  // The loops find the date of the closed form.
  method FmtTimestampUtc(secs: nat) returns (t: string)
    ensures t == CompactStamp(secs)
  {
    var days, timeOfDay := (secs / 86400) % DAY_CAST, secs % 86400;
    var d := YmdByLoops(days);
    t := Compact(d, timeOfDay);
  }

  // The separators of the long format taken out.
  function Strip(s: string): string {
    if s == [] then [] else (if s[0] == '-' || s[0] == ':' then [] else [s[0]]) + Strip(s[1..])
  }

  lemma {:induction false} StripConcat(a: string, b: string)
    ensures Strip(a + b) == Strip(a) + Strip(b)
  {
    if a == [] {
      assert a + b == b;
    } else {
      assert (a + b)[1..] == a[1..] + b;
      StripConcat(a[1..], b);
      Associate(if a[0] == '-' || a[0] == ':' then [] else [a[0]], Strip(a[1..]), Strip(b));
    }
  }

  lemma StripDigit(n: nat)
    requires n < 10
    ensures Strip([Digit(n)]) == [Digit(n)]
  {
    assert [Digit(n)][1..] == [];
  }

  lemma {:induction false} StripDecimal(n: nat)
    ensures Strip(Decimal(n)) == Decimal(n)
  {
    if n < 10 {
      StripDigit(n);
    } else {
      StripDecimal(n / 10);
      StripDigit(n % 10);
      StripConcat(Decimal(n / 10), [Digit(n % 10)]);
    }
  }

  lemma {:induction false} StripZeros(n: nat)
    ensures Strip(Zeros(n)) == Zeros(n)
  {
    if n > 0 {
      StripZeros(n - 1);
      StripConcat(Zeros(n - 1), "0");
      assert "0"[1..] == "";
    }
  }

  lemma StripPad(n: nat, w: nat)
    ensures Strip(Pad(n, w)) == Pad(n, w)
  {
    var t := Decimal(n);
    StripDecimal(n);
    if |t| < w {
      StripZeros(w - |t|);
      StripConcat(Zeros(w - |t|), t);
    }
  }

  function StripFields(fs: seq<Field>): seq<Field> {
    seq(|fs|, i requires 0 <= i < |fs| => fs[i].(after := Strip(fs[i].after)))
  }

  lemma {:induction false} StripRender(fs: seq<Field>)
    ensures Strip(Render(fs)) == Render(StripFields(fs))
  {
    if fs != [] {
      RenderFirst(fs);
      RenderFirst(StripFields(fs));
      StripRender(fs[1..]);
      assert StripFields(fs)[1..] == StripFields(fs[1..]);
      StripPad(fs[0].value, fs[0].width);
      StripConcat(Text(fs[0]), Render(fs[1..]));
      StripConcat(Pad(fs[0].value, fs[0].width), fs[0].after);
    }
  }

  lemma StripSeparators()
    ensures Strip("-") == "" && Strip(":") == "" && Strip("T") == "T" && Strip("Z") == "Z"
  {
    assert "-"[1..] == "" && ":"[1..] == "" && "T"[1..] == "" && "Z"[1..] == "";
  }

  lemma StripStamp(secs: nat)
    ensures Strip(Stamp(secs)) == Compact(Ymd(secs / 86400), secs % 86400)
  {
    var t := Ymd(secs / 86400);
    StripRender(Fields(t, secs));
    StripSeparators();
    SameClock(secs);
    assert StripFields(Fields(t, secs)) == CompactFields(t, secs % 86400);
  }

  lemma DigitInjective(a: nat, b: nat)
    requires a < 10 && b < 10 && Digit(a) == Digit(b)
    ensures a == b
  {}

  lemma SnocInjective(x: string, y: string, a: char, b: char)
    requires x + [a] == y + [b]
    ensures x == y && a == b
  {
    assert (x + [a])[..|x|] == x && (y + [b])[..|y|] == y;
    assert (x + [a])[|x|] == a && (y + [b])[|y|] == b;
  }

  lemma {:induction false} DecimalInjective(a: nat, b: nat)
    requires Decimal(a) == Decimal(b)
    ensures a == b
  {
    if a < 10 && b < 10 {
      DigitInjective(a, b);
    } else {
      assert a >= 10 && b >= 10;
      SnocInjective(Decimal(a / 10), Decimal(b / 10), Digit(a % 10), Digit(b % 10));
      DecimalInjective(a / 10, b / 10);
      DigitInjective(a % 10, b % 10);
    }
  }

  lemma {:induction false} PadInjective(a: nat, b: nat, w: nat)
    requires w > 0 && Pad(a, w) == Pad(b, w)
    ensures a == b
  {
    if w == 1 {
      DecimalInjective(a, b);
    } else {
      PadLast(a, w);
      PadLast(b, w);
      SnocInjective(Pad(a / 10, w - 1), Pad(b / 10, w - 1), Digit(a % 10), Digit(b % 10));
      PadInjective(a / 10, b / 10, w - 1);
      DigitInjective(a % 10, b % 10);
    }
  }

  // Equal endings of one length can be cut off.
  lemma SuffixInjective(x: string, y: string, u: string, v: string)
    requires x + u == y + v && |u| == |v|
    ensures x == y && u == v
  {
    assert (x + u)[..|x|] == x && (y + v)[..|y|] == y;
    assert (x + u)[|x|..] == u && (y + v)[|y|..] == v;
  }

  // The date, and then a part that only the clock decides.
  lemma CompactIs(t: Date, s: nat)
    ensures var clock := CompactFields(t, s)[3..];
      Compact(t, s) == Pad(t.y, 4) + (Pad(t.m, 2) + (Pad(t.d, 2) + ("T" + Render(clock))))
  {
    var fs := CompactFields(t, s);
    RenderFirst(fs);
    RenderFirst(fs[1..]);
    RenderFirst(fs[2..]);
    assert fs[1..][1..] == fs[2..] && fs[2..][1..] == fs[3..];
    assert Pad(t.y, 4) + "" == Pad(t.y, 4) && Pad(t.m, 2) + "" == Pad(t.m, 2);
    Associate(Pad(t.d, 2), "T", Render(fs[3..]));
  }

  lemma CompactInjective(a: Date, b: Date, s: nat)
    requires a.Valid() && b.Valid() && Compact(a, s) == Compact(b, s)
    ensures a == b
  {
    CompactIs(a, s);
    CompactIs(b, s);
    Powers();
    MonthLenSmall(a);
    MonthLenSmall(b);
    PadWidth(a.m, 2);
    PadWidth(b.m, 2);
    PadWidth(a.d, 2);
    PadWidth(b.d, 2);
    hide Pad, Compact, Render, CompactFields, Pow10;
    var z := "T" + Render(CompactFields(a, s)[3..]);
    SameTail(a, b, s);
    SuffixInjective(Pad(a.y, 4), Pad(b.y, 4), Pad(a.m, 2) + (Pad(a.d, 2) + z), Pad(b.m, 2) + (Pad(b.d, 2) + z));
    SuffixInjective(Pad(a.m, 2), Pad(b.m, 2), Pad(a.d, 2) + z, Pad(b.d, 2) + z);
    SuffixInjective(Pad(a.d, 2), Pad(b.d, 2), z, z);
    PadInjective(a.y, b.y, 4);
    PadInjective(a.m, b.m, 2);
    PadInjective(a.d, b.d, 2);
  }

  lemma SameTail(a: Date, b: Date, s: nat)
    ensures CompactFields(a, s)[3..] == CompactFields(b, s)[3..]
  {}

  lemma MonthLenSmall(t: Date)
    requires t.Valid()
    ensures t.d < 100
  {}

  // Both formats show the same instant, the long one without its separators being the compact one, exactly until the
  // day count outgrows 32 bits.
  lemma SameInstant(secs: nat)
    ensures CompactStamp(secs) == Strip(Stamp(secs)) <==> secs / 86400 < DAY_CAST
  {
    hide Compact, Stamp, Strip, Ymd;
    StripStamp(secs);
    var days := secs / 86400;
    var cut := days % DAY_CAST;
    YmdOf(days);
    YmdOf(cut);
    if days < DAY_CAST {
      assert cut == days;
    } else if CompactStamp(secs) == Strip(Stamp(secs)) {
      CompactInjective(Ymd(cut), Ymd(days), secs % 86400);
    }
  }

  lemma SameClock(secs: nat)
    ensures (secs % 86400) / 3600 == (secs / 3600) % 24
    ensures ((secs % 86400) % 3600) / 60 == (secs / 60) % 60 && (secs % 86400) % 60 == secs % 60
  {
    Clock(secs);
    ClockOf(secs % 86400, (secs / 3600) % 24, (secs / 60) % 60, secs % 60);
  }

  lemma ClockOf(s: nat, h: nat, m: nat, x: nat)
    requires s == 3600 * h + 60 * m + x && m < 60 && x < 60
    ensures s / 3600 == h && (s % 3600) / 60 == m && s % 60 == x
  {
    Quotient(s, 3600, h, 60 * m + x);
    Quotient(60 * m + x, 60, m, x);
    Quotient(s, 60, 60 * h + m, x);
  }
}
