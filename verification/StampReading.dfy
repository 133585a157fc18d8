// Reading a timestamp back: the text names the instant it was written for.
module StampReading {
  import opened Calendar
  import opened Timestamps

  // ---- Decimal numbers ----

  function DigitValue(c: char): int { c as int - '0' as int }

  function Value(s: string): int {
    if s == [] then 0 else 10 * Value(s[..|s| - 1]) + DigitValue(s[|s| - 1])
  }

  lemma DigitReads(n: nat)
    requires n < 10
    ensures DigitValue(Digit(n)) == n
  {
    assert "0123456789"[n] as int == 48 + n;
  }

  lemma ValueSnoc(s: string, n: nat)
    requires n < 10
    ensures Value(s + [Digit(n)]) == 10 * Value(s) + n
  {
    DigitReads(n);
    assert (s + [Digit(n)])[..|s|] == s;
  }

  lemma {:induction false} DecimalReads(n: nat)
    ensures Value(Decimal(n)) == n
  {
    if n < 10 {
      ValueSnoc("", n);
      assert "" + [Digit(n)] == [Digit(n)];
    } else {
      DecimalReads(n / 10);
      ValueSnoc(Decimal(n / 10), n % 10);
    }
  }

  lemma {:induction false} ZerosRead(n: nat)
    ensures Value(Zeros(n)) == 0
  {
    if n > 0 {
      ZerosRead(n - 1);
      ValueSnoc(Zeros(n - 1), 0);
      assert [Digit(0)] == "0";
    }
  }

  lemma {:induction false} ZerosInFront(n: nat, t: string)
    ensures Value(Zeros(n) + t) == Value(t)
  {
    if t == [] {
      ZerosRead(n);
      assert Zeros(n) + t == Zeros(n);
    } else {
      ZerosInFront(n, t[..|t| - 1]);
      assert (Zeros(n) + t)[..n + |t| - 1] == Zeros(n) + t[..|t| - 1];
    }
  }

  // A padded number reads as the number.
  lemma PadReads(n: nat, w: nat)
    ensures Value(Pad(n, w)) == n && |Pad(n, w)| >= w
  {
    DecimalReads(n);
    ZerosInFront(if |Decimal(n)| < w then w - |Decimal(n)| else 0, Decimal(n));
  }

  // ---- The fields of a timestamp ----

  lemma RenderSix(fs: seq<Field>)
    requires |fs| == 6
    ensures Render(fs) == Text(fs[0]) + (Text(fs[1]) + (Text(fs[2]) + (Text(fs[3]) + (Text(fs[4]) + Text(fs[5])))))
  {
    hide Text;
    RenderFirst(fs);
    RenderFirst(fs[1..]);
    RenderFirst(fs[2..]);
    RenderFirst(fs[3..]);
    RenderFirst(fs[4..]);
    RenderFirst(fs[5..]);
    assert fs[1..][1..] == fs[2..] && fs[2..][1..] == fs[3..] && fs[3..][1..] == fs[4..] && fs[4..][1..] == fs[5..];
    assert fs[5..][1..] == [];
    NothingRendered();
    assert Text(fs[5]) + "" == Text(fs[5]);
  }

  lemma NothingRendered()
    ensures Render([]) == ""
  {}

  // The text is cut into a year of any length and five numbers of two digits, with their separators.
  ghost predicate Cut(s: string, y: string, a: string, b: string, c: string, d: string, e: string) {
    var n := |y|;
    && |s| == n + 16 && s[..n] == y && s[n] == '-' && s[n + 1..n + 3] == a && s[n + 3] == '-'
    && s[n + 4..n + 6] == b && s[n + 6] == 'T' && s[n + 7..n + 9] == c && s[n + 9] == ':'
    && s[n + 10..n + 12] == d && s[n + 12] == ':' && s[n + 13..n + 15] == e && s[n + 15] == 'Z'
  }

  lemma Slices(y: string, a: string, b: string, c: string, d: string, e: string)
    requires |a| == |b| == |c| == |d| == |e| == 2
    ensures Cut((y + "-") + ((a + "-") + ((b + "T") + ((c + ":") + ((d + ":") + (e + "Z"))))), y, a, b, c, d, e)
  {}

  // The text is <year>-<month>-<day>T<hour>:<minute>:<second>Z, read as numbers, the year being n digits long.
  ghost predicate Reads(s: string, n: int, t: Date, h: nat, m: nat, x: nat) {
    && n >= 4 && |s| == n + 16
    && s[n] == s[n + 3] == '-' && s[n + 6] == 'T' && s[n + 9] == s[n + 12] == ':' && s[n + 15] == 'Z'
    && Value(s[..n]) == t.y && Value(s[n + 1..n + 3]) == t.m && Value(s[n + 4..n + 6]) == t.d
    && Value(s[n + 7..n + 9]) == h && Value(s[n + 10..n + 12]) == m && Value(s[n + 13..n + 15]) == x
  }

  lemma CutReads(s: string, y: string, a: string, b: string, c: string, d: string, e: string)
    requires |y| >= 4 && Cut(s, y, a, b, c, d, e)
    requires Value(y) >= 0 && Value(a) >= 0 && Value(b) >= 0 && Value(c) >= 0 && Value(d) >= 0 && Value(e) >= 0
    ensures Reads(s, |y|, Date(Value(y), Value(a), Value(b)), Value(c), Value(d), Value(e))
  {
    hide Value;
  }

  lemma FieldsRead(t: Date, secs: nat)
    requires t.Valid()
    ensures Reads(Render(Fields(t, secs)), |Pad(t.y, 4)|, t, (secs / 3600) % 24, (secs / 60) % 60, secs % 60)
  {
    hide Pad, Value, Render, Reads, Cut;
    var h, m, x := (secs / 3600) % 24, (secs / 60) % 60, secs % 60;
    RenderSix(Fields(t, secs));
    PadReads(t.y, 4);
    TwoDigits(t.m);
    TwoDigits(t.d);
    TwoDigits(h);
    TwoDigits(m);
    TwoDigits(x);
    Slices(Pad(t.y, 4), Pad(t.m, 2), Pad(t.d, 2), Pad(h, 2), Pad(m, 2), Pad(x, 2));
    CutReads(Render(Fields(t, secs)), Pad(t.y, 4), Pad(t.m, 2), Pad(t.d, 2), Pad(h, 2), Pad(m, 2), Pad(x, 2));
  }

  lemma TwoDigits(n: nat)
    requires n < 100
    ensures |Pad(n, 2)| == 2 && Value(Pad(n, 2)) == n
  {
    Powers();
    PadWidth(n, 2);
    PadReads(n, 2);
  }

  // Every timestamp, in any year, reads back as the calendar date and time of day of its second.
  lemma StampReads(secs: nat)
    ensures var t, h, m, x := Ymd(secs / 86400), (secs / 3600) % 24, (secs / 60) % 60, secs % 60;
      && Reads(Stamp(secs), |Stamp(secs)| - 16, t, h, m, x) && t.Valid()
      && secs == 86400 * DayNumber(t) + 3600 * h + 60 * m + x
  {
    hide Ymd, Render, Fields, Value, Pad, DayNumber;
    YmdOf(secs / 86400);
    Clock(secs);
    FieldsRead(Ymd(secs / 86400), secs);
  }

  // ---- The last records ----

  // The limit keeps the end of the list: all of it without a limit, otherwise at most that many.
  lemma LimitKeepsEnd<T>(s: seq<T>, limit: nat)
    ensures var out := LastOf(s, limit);
      && |out| == (if limit == 0 || |s| < limit then |s| else limit)
      && forall i | 0 <= i < |out| :: out[i] == s[|s| - |out| + i]
  {}
}
