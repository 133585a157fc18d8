// What any text says as a known_hosts file.
module KnownLines {
  import opened Options
  import opened KnownHosts

  ghost predicate Blank(s: string) { forall i | 0 <= i < |s| :: Space(s[i]) }

  // No white space at either end.
  ghost predicate Trimmed(s: string) { s != [] ==> !Space(s[0]) && !Space(s[|s| - 1]) }

  // ---- Trimming ----

  lemma {:induction false} StartIs(s: string) returns (a: string)
    ensures Blank(a) && s == a + TrimStart(s) && (TrimStart(s) != [] ==> !Space(TrimStart(s)[0]))
  {
    if s != [] && Space(s[0]) {
      var rest := StartIs(s[1..]);
      a := [s[0]] + rest;
      assert s == [s[0]] + s[1..];
    } else {
      a := [];
    }
  }

  lemma {:induction false} EndIs(s: string) returns (c: string)
    ensures Blank(c) && s == TrimEnd(s) + c
    ensures TrimEnd(s) != [] ==> !Space(TrimEnd(s)[|TrimEnd(s)| - 1]) && TrimEnd(s)[0] == s[0]
  {
    if s != [] && Space(s[|s| - 1]) {
      var front := EndIs(s[..|s| - 1]);
      c := front + [s[|s| - 1]];
      assert s == s[..|s| - 1] + [s[|s| - 1]];
    } else {
      c := [];
    }
  }

  lemma {:induction false} StartSkips(a: string, s: string)
    requires Blank(a)
    ensures TrimStart(a + s) == TrimStart(s)
  {
    if a == [] {
      assert a + s == s;
    } else {
      assert (a + s)[1..] == a[1..] + s && Blank(a[1..]);
      StartSkips(a[1..], s);
    }
  }

  lemma {:induction false} EndSkips(s: string, c: string)
    requires Blank(c)
    ensures TrimEnd(s + c) == TrimEnd(s)
  {
    if c == [] {
      assert s + c == s;
    } else {
      var n := |c| - 1;
      assert (s + c)[..|s| + n] == s + c[..n] && Blank(c[..n]);
      EndSkips(s, c[..n]);
    }
  }

  ghost predicate Between(s: string, m: string) { exists a, c :: Blank(a) && Blank(c) && s == a + m + c }

  lemma TrimLeaves(s: string)
    requires Trim(s) != []
    ensures Trimmed(Trim(s)) && Between(s, Trim(s))
  {
    hide TrimStart, TrimEnd, Space;
    var a := StartIs(s);
    var c := EndIs(TrimStart(s));
    Three(a, Trim(s), c);
    assert s == a + Trim(s) + c;
  }

  lemma Three(a: string, b: string, c: string)
    ensures a + (b + c) == a + b + c
  {}

  lemma TrimOf(s: string, a: string, m: string, c: string)
    requires m != [] && Trimmed(m) && Blank(a) && Blank(c) && s == a + m + c
    ensures Trim(s) == m
  {
    hide Space;
    Three(a, m, c);
    StartSkips(a, m + c);
    assert (m + c)[0] == m[0];
    EndSkips(m, c);
  }

  // What trimming leaves is what stands between the outermost white space.
  lemma TrimExactly(s: string, m: string)
    requires m != []
    ensures Trim(s) == m <==> Trimmed(m) && Between(s, m)
  {
    hide Trim, Blank, Trimmed;
    if Trim(s) == m { TrimLeaves(s); }
    if Trimmed(m) && Between(s, m) {
      var a, c :| Blank(a) && Blank(c) && s == a + m + c;
      TrimOf(s, a, m, c);
    }
  }

  // ---- Lines ----

  // A host, a blank and a value, with any white space around them.
  ghost predicate IsEntry(raw: string, host: string, value: string) {
    && host != [] && host[0] != '#' && !Space(host[0]) && ' ' !in host && value != [] && Trimmed(value)
    && exists b :: Blank(b) && Between(raw, host + " " + b + value)
  }

  // A line is read as a pin exactly when it is that entry.
  lemma LineExactly(raw: string, host: string, value: string)
    ensures ParseLine(raw) == Some((host, value)) <==> IsEntry(raw, host, value)
  {
    hide Trim, Find, Between;
    if ParseLine(raw) == Some((host, value)) { EntryRead(raw, host, value); }
    if IsEntry(raw, host, value) { EntryIsRead(raw, host, value); }
  }

  lemma EntryRead(raw: string, host: string, value: string)
    requires ParseLine(raw) == Some((host, value))
    ensures IsEntry(raw, host, value)
  {
    hide Trim, Find, Between;
    var line := Trim(raw);
    TrimExactly(raw, line);
    var n := Find(line, ' ');
    SpaceBlank();
    assert line == host + " " + line[n + 1..];
    assert n > 0;
    LastOf(line, n);
    var b := Lead(line[n + 1..], value);
    assert host + " " + (b + value) == host + " " + b + value;
  }

  lemma SpaceBlank()
    ensures Space(' ')
  {}

  // What follows the blank ends where the line ends.
  lemma LastOf(line: string, n: nat)
    requires Trimmed(line) && n < |line| && line[n] == ' '
    ensures n + 1 < |line| && !Space(line[n + 1..][|line| - n - 2])
  {}

  lemma SomethingLeft(b: string, r: string)
    requires Blank(b) && b + r != [] && !Space((b + r)[|b + r| - 1])
    ensures r != []
  {}

  // A text that does not end in white space is white space and then its trimmed form.
  lemma Lead(s: string, m: string) returns (b: string)
    requires m == Trim(s) && s != [] && !Space(s[|s| - 1])
    ensures Blank(b) && s == b + m && m != [] && Trimmed(m)
  {
    b := StartIs(s);
    SomethingLeft(b, TrimStart(s));
    assert TrimStart(s)[|TrimStart(s)| - 1] == s[|s| - 1];
    assert TrimEnd(TrimStart(s)) == TrimStart(s);
  }

  lemma EntryIsRead(raw: string, host: string, value: string)
    requires IsEntry(raw, host, value)
    ensures ParseLine(raw) == Some((host, value))
  {
    hide Trim, Find, Between;
    var b :| Blank(b) && Between(raw, host + " " + b + value);
    var line := host + " " + b + value;
    assert line[0] == host[0] && line[|line| - 1] == value[|value| - 1];
    TrimExactly(raw, line);
    assert line == host + [' '] + (b + value);
    FindIs(host, ' ', b + value);
    assert line[..|host|] == host && line[|host| + 1..] == b + value;
    BlankBefore(b, value);
    TrimExactly(b + value, value);
  }

  lemma BlankBefore(b: string, value: string)
    requires Blank(b)
    ensures Between(b + value, value)
  {
    assert Blank([]) && b + value == b + value + [];
  }

  // ---- Whole files ----

  // Line i is the last one that is an entry of this host.
  ghost predicate LastEntry(lines: seq<string>, i: nat, host: string, value: string) {
    && i < |lines| && IsEntry(lines[i], host, value)
    && forall j, w | i < j < |lines| :: !IsEntry(lines[j], host, w)
  }

  ghost predicate SaysPin(lines: seq<string>, host: string, value: string) {
    exists i | 0 <= i < |lines| :: LastEntry(lines, i, host, value)
  }

  ghost predicate Mentions(lines: seq<string>, host: string) {
    exists i, w | 0 <= i < |lines| :: IsEntry(lines[i], host, w)
  }

  lemma SaysCons(line: string, rest: seq<string>, host: string, value: string)
    ensures SaysPin([line] + rest, host, value) <==>
      SaysPin(rest, host, value) || (IsEntry(line, host, value) && !Mentions(rest, host))
    ensures Mentions([line] + rest, host) <==> Mentions(rest, host) || exists w :: IsEntry(line, host, w)
  {
    hide IsEntry;
    var all := [line] + rest;
    if SaysPin(all, host, value) {
      var i :| 0 <= i < |all| && LastEntry(all, i, host, value);
      if i > 0 {
        forall j, w | i - 1 < j < |rest| ensures !IsEntry(rest[j], host, w) { assert rest[j] == all[j + 1]; }
        assert LastEntry(rest, i - 1, host, value);
      } else {
        forall j, w | 0 <= j < |rest| ensures !IsEntry(rest[j], host, w) { assert rest[j] == all[j + 1]; }
      }
    }
    if SaysPin(rest, host, value) {
      var i :| 0 <= i < |rest| && LastEntry(rest, i, host, value);
      forall j, w | i + 1 < j < |all| ensures !IsEntry(all[j], host, w) { assert all[j] == rest[j - 1]; }
      assert LastEntry(all, i + 1, host, value);
    }
    if IsEntry(line, host, value) && !Mentions(rest, host) {
      forall j, w | 0 < j < |all| ensures !IsEntry(all[j], host, w) { assert all[j] == rest[j - 1]; }
      assert LastEntry(all, 0, host, value);
    }
    if Mentions(rest, host) {
      var i, w :| 0 <= i < |rest| && IsEntry(rest[i], host, w);
      assert IsEntry(all[i + 1], host, w);
    }
    if w :| IsEntry(line, host, w) { assert IsEntry(all[0], host, w); }
  }

  lemma {:induction false} InsertExactly(lines: seq<string>, pins: map<string, string>, host: string, value: string)
    ensures (host in Insert(lines, pins) && Insert(lines, pins)[host] == value) <==>
      SaysPin(lines, host, value) || (!Mentions(lines, host) && host in pins && pins[host] == value)
    decreases |lines|
  {
    hide IsEntry, ParseLine, SaysPin, Mentions;
    if lines == [] {
      NoLines(host, value);
    } else {
      var line, rest := lines[0], lines[1..];
      assert lines == [line] + rest;
      var e := ParseLine(line);
      InsertExactly(rest, if e.Some? then pins[e.value.0 := e.value.1] else pins, host, value);
      SaysCons(line, rest, host, value);
      forall w ensures IsEntry(line, host, w) <==> e == Some((host, w)) { LineExactly(line, host, w); }
      if SaysPin(rest, host, value) { Mentioned(rest, host, value); }
    }
  }

  lemma NoLines(host: string, value: string)
    ensures !SaysPin([], host, value) && !Mentions([], host)
  {}

  lemma Mentioned(lines: seq<string>, host: string, value: string)
    requires SaysPin(lines, host, value)
    ensures Mentions(lines, host)
  {}

  // From any text, a host is pinned to a value exactly when the last line that is an entry of that host has it.
  lemma LoadExactly(text: string, host: string, value: string)
    ensures (host in LoadPins(text) && LoadPins(text)[host] == value) <==> SaysPin(Lines(text), host, value)
  {
    InsertExactly(Lines(text), map[], host, value);
  }

  // ---- Where lines end ----

  lemma Carriage(l: string, rest: string)
    requires '\n' !in l
    ensures Lines(l + "\r\n" + rest) == [l] + Lines(rest)
  {
    var line := l + "\r";
    assert l + "\r\n" + rest == line + ['\n'] + rest;
    FindIs(line, '\n', rest);
    var text := line + ['\n'] + rest;
    assert text[..|line|] == line && text[|line| + 1..] == rest;
    assert Chomp(line) == l;
  }

  // A line ends at a line break, with or without a carriage return before it; the last one need not.
  lemma LineEnds(l: string, rest: string)
    requires '\n' !in l
    ensures Lines(l + "\r\n" + rest) == [l] + Lines(rest)
    ensures (l == [] || l[|l| - 1] != '\r') ==> Lines(l + "\n" + rest) == [l] + Lines(rest)
    ensures l != [] ==> Lines(l) == [l]
  {
    Carriage(l, rest);
    if l == [] || l[|l| - 1] != '\r' { FirstLine(l, rest); }
  }
}
