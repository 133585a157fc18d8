// The known_hosts file: saving and loading the pin table.
module KnownHosts {
  import opened Options

  // Unicode white space.
  predicate Space(c: char) {
    var n := c as int;
    || 9 <= n <= 13 || n == 32 || n == 0x85 || n == 0xA0 || n == 0x1680 || 0x2000 <= n <= 0x200A
    || n == 0x2028 || n == 0x2029 || n == 0x202F || n == 0x205F || n == 0x3000
  }

  function TrimStart(s: string): string { if s != [] && Space(s[0]) then TrimStart(s[1..]) else s }

  function TrimEnd(s: string): string { if s != [] && Space(s[|s| - 1]) then TrimEnd(s[..|s| - 1]) else s }

  function Trim(s: string): string { TrimEnd(TrimStart(s)) }

  // ---- Reading ----

  // The position of the first c, or the length.
  function Find(s: string, c: char): (n: nat)
    ensures n <= |s| && c !in s[..n] && (n < |s| ==> s[n] == c)
  {
    if s == [] || s[0] == c then 0 else
      var n := 1 + Find(s[1..], c);
      assert s[..n] == [s[0]] + s[1..][..n - 1];
      n
  }

  // A line without its final carriage return.
  function Chomp(s: string): string { if s != [] && s[|s| - 1] == '\r' then s[..|s| - 1] else s }

  function Lines(text: string): seq<string>
    decreases |text|
  {
    if text == [] then []
    else
      var n := Find(text, '\n');
      if n == |text| then [text] else [Chomp(text[..n])] + Lines(text[n + 1..])
  }

  // host, then everything after the first space.
  function ParseLine(raw: string): Option<(string, string)> {
    var line := Trim(raw);
    if line == [] || line[0] == '#' then None
    else
      var n := Find(line, ' ');
      if n == |line| then None else Some((line[..n], Trim(line[n + 1..])))
  }

  function Insert(lines: seq<string>, pins: map<string, string>): map<string, string>
    decreases |lines|
  {
    if lines == [] then pins
    else
      var e := ParseLine(lines[0]);
      Insert(lines[1..], if e.Some? then pins[e.value.0 := e.value.1] else pins)
  }

  function LoadPins(text: string): map<string, string> { Insert(Lines(text), map[]) }

  // ---- Writing ----

  // The lines the file opens with: comments on one line each.
  ghost predicate Comments(header: seq<string>) {
    forall l | l in header :: l != [] && l[0] == '#' && '\n' !in l && !Space(l[|l| - 1])
  }

  function EntryLines(hosts: seq<string>, pins: map<string, string>): seq<string>
    requires forall h | h in hosts :: h in pins
  {
    seq(|hosts|, i requires 0 <= i < |hosts| => hosts[i] + " " + pins[hosts[i]])
  }

  function Unlines(lines: seq<string>): string { if lines == [] then "" else lines[0] + "\n" + Unlines(lines[1..]) }

  // The file for the table listed in the order of `hosts`.
  function SavePins(header: seq<string>, hosts: seq<string>, pins: map<string, string>): string
    requires forall h | h in hosts :: h in pins
  {
    Unlines(header + EntryLines(hosts, pins))
  }

  // ---- The round trip ----

  // No line break inside, and no carriage return at the end.
  ghost predicate OneLine(s: string) { '\n' !in s && (s == [] || s[|s| - 1] != '\r') }

  lemma FindIs(a: string, c: char, b: string)
    requires c !in a
    ensures Find(a + [c] + b, c) == |a|
  {
    var s := a + [c] + b;
    assert s[|a|] == c && s[..|a|] == a;
  }

  lemma {:induction false} LinesUnlines(lines: seq<string>)
    requires forall l | l in lines :: OneLine(l)
    ensures Lines(Unlines(lines)) == lines
  {
    if lines != [] {
      LinesUnlines(lines[1..]);
      FirstLine(lines[0], Unlines(lines[1..]));
      assert lines == [lines[0]] + lines[1..];
    }
  }

  lemma FirstLine(l: string, rest: string)
    requires OneLine(l)
    ensures Lines(l + "\n" + rest) == [l] + Lines(rest)
  {
    FindIs(l, '\n', rest);
    assert "\n" == ['\n'];
    var text := l + "\n" + rest;
    assert text[..|l|] == l && text[|l| + 1..] == rest;
  }

  // A host name the format can carry: not empty, no blank and no line break, no comment mark or white space in front.
  predicate PlainHost(h: string) { h != [] && h[0] != '#' && !Space(h[0]) && ' ' !in h && '\n' !in h }

  // A fingerprint the format can carry: not empty, on one line, no white space at either end.
  predicate PlainValue(v: string) { v != [] && '\n' !in v && !Space(v[0]) && !Space(v[|v| - 1]) }

  predicate PlainTable(pins: map<string, string>) { forall h | h in pins :: PlainHost(h) && PlainValue(pins[h]) }

  lemma TrimPlain(s: string)
    requires s != [] ==> !Space(s[0]) && !Space(s[|s| - 1])
    ensures Trim(s) == s
  {}

  lemma EntryParses(h: string, v: string)
    requires PlainHost(h) && PlainValue(v)
    ensures OneLine(h + " " + v) && ParseLine(h + " " + v) == Some((h, v))
  {
    var line := h + " " + v;
    assert line[0] == h[0] && line[|line| - 1] == v[|v| - 1];
    TrimPlain(line);
    FindIs(h, ' ', v);
    assert " " == [' '];
    assert line[..|h|] == h && line[|h| + 1..] == v;
    TrimPlain(v);
    EntryOneLine(h, v);
  }

  lemma EntryOneLine(h: string, v: string)
    requires PlainHost(h) && PlainValue(v)
    ensures OneLine(h + " " + v)
  {}

  lemma CommentSkipped(l: string)
    requires l != [] && l[0] == '#' && '\n' !in l && !Space(l[|l| - 1])
    ensures OneLine(l) && ParseLine(l).None?
  {
    TrimPlain(l);
  }

  // The table restricted to the first hosts of the list, on top of what was there.
  lemma {:induction false} InsertEntries(hosts: seq<string>, pins: map<string, string>, before: map<string, string>)
    requires forall h | h in hosts :: h in pins && PlainHost(h) && PlainValue(pins[h])
    ensures var m := Insert(EntryLines(hosts, pins), before);
      && (forall h | h in hosts :: h in m && m[h] == pins[h])
      && (forall h | h !in hosts :: (h in m <==> h in before) && (h in m ==> m[h] == before[h]))
    decreases |hosts|
  {
    if hosts != [] {
      var h := hosts[0];
      assert EntryLines(hosts, pins)[1..] == EntryLines(hosts[1..], pins);
      EntryParses(h, pins[h]);
      InsertEntries(hosts[1..], pins, before[h := pins[h]]);
      assert hosts == [h] + hosts[1..];
    }
  }

  lemma {:induction false} InsertSkips(lines: seq<string>, rest: seq<string>, pins: map<string, string>)
    requires forall l | l in lines :: ParseLine(l).None?
    ensures Insert(lines + rest, pins) == Insert(rest, pins)
    decreases |lines|
  {
    if lines == [] {
      assert lines + rest == rest;
    } else {
      assert (lines + rest)[1..] == lines[1..] + rest && (lines + rest)[0] == lines[0] && lines[0] in lines;
      InsertSkips(lines[1..], rest, pins);
    }
  }

  lemma FileLines(header: seq<string>, hosts: seq<string>, pins: map<string, string>)
    requires Comments(header) && forall h | h in hosts :: h in pins && PlainHost(h) && PlainValue(pins[h])
    ensures Lines(SavePins(header, hosts, pins)) == header + EntryLines(hosts, pins)
  {
    var all := header + EntryLines(hosts, pins);
    forall l | l in all ensures OneLine(l) {
      if l in header {
        CommentSkipped(l);
      } else {
        var i :| 0 <= i < |hosts| && EntryLines(hosts, pins)[i] == l;
        assert hosts[i] in hosts;
        EntryOneLine(hosts[i], pins[hosts[i]]);
      }
    }
    LinesUnlines(all);
  }

  // The list names exactly the hosts of the table.
  ghost predicate Lists(hosts: seq<string>, pins: map<string, string>) { forall h :: h in hosts <==> h in pins }

  lemma PlainRestored(header: seq<string>, hosts: seq<string>, pins: map<string, string>)
    requires Comments(header) && Lists(hosts, pins) && PlainTable(pins)
    ensures LoadPins(SavePins(header, hosts, pins)) == pins
  {
    FileLines(header, hosts, pins);
    forall l | l in header ensures ParseLine(l).None? { CommentSkipped(l); }
    InsertSkips(header, EntryLines(hosts, pins), map[]);
    InsertEntries(hosts, pins, map[]);
  }

  // ---- What can be loaded at all ----

  // What is left is part of s, and begins and ends with no white space.
  ghost predicate Trimmed(s: string, t: string) {
    (forall c | c in t :: c in s) && (t != [] ==> !Space(t[0]) && !Space(t[|t| - 1]))
  }

  lemma {:induction false} TrimStartIs(s: string)
    ensures var t := TrimStart(s); |t| <= |s| && t == s[|s| - |t|..] && (t != [] ==> !Space(t[0]))
  {
    if s != [] && Space(s[0]) { TrimStartIs(s[1..]); }
  }

  lemma {:induction false} TrimEndIs(s: string)
    ensures var t := TrimEnd(s); t <= s && (t != [] ==> !Space(t[|t| - 1]))
  {
    if s != [] && Space(s[|s| - 1]) { TrimEndIs(s[..|s| - 1]); }
  }

  lemma TrimIs(s: string)
    ensures Trimmed(s, Trim(s))
  {
    var u := TrimStart(s);
    TrimStartIs(s);
    TrimEndIs(u);
    forall c | c in Trim(s) ensures c in s { assert c in u; }
  }

  // White space alone trims to nothing, and only that.
  lemma {:induction false} TrimStartFinds(s: string, i: nat)
    requires i < |s| && !Space(s[i])
    ensures TrimStart(s) != [] && s[|s| - 1] == TrimStart(s)[|TrimStart(s)| - 1]
  {
    if Space(s[0]) { TrimStartFinds(s[1..], i - 1); }
  }

  lemma TrimKeepsEnd(s: string)
    requires s != [] && !Space(s[|s| - 1])
    ensures Trim(s) != []
  {
    TrimStartFinds(s, |s| - 1);
  }

  // A line that parses gives a host and a fingerprint the format can carry.
  lemma ParsedPlain(raw: string)
    requires '\n' !in raw && ParseLine(raw).Some?
    ensures PlainHost(ParseLine(raw).value.0) && PlainValue(ParseLine(raw).value.1)
  {
    var line := Trim(raw);
    TrimIs(raw);
    var n := Find(line, ' ');
    var rest := line[n + 1..];
    assert line[|line| - 1] != ' ';
    assert rest != [] && rest[|rest| - 1] == line[|line| - 1];
    TrimKeepsEnd(rest);
    TrimIs(rest);
    assert line[..n][0] == line[0];
    forall c | c in rest ensures c in line {}
  }

  lemma {:induction false} LinesUnbroken(text: string)
    ensures forall l | l in Lines(text) :: '\n' !in l
    decreases |text|
  {
    if text != [] {
      var n := Find(text, '\n');
      if n < |text| {
        LinesUnbroken(text[n + 1..]);
        forall c | c in Chomp(text[..n]) ensures c != '\n' { assert c in text[..n]; }
      } else {
        assert text[..n] == text;
      }
    }
  }

  lemma {:induction false} InsertPlain(lines: seq<string>, pins: map<string, string>)
    requires PlainTable(pins) && forall l | l in lines :: '\n' !in l
    ensures PlainTable(Insert(lines, pins))
    decreases |lines|
  {
    if lines != [] {
      var e := ParseLine(lines[0]);
      assert lines[0] in lines;
      if e.Some? { ParsedPlain(lines[0]); }
      InsertPlain(lines[1..], if e.Some? then pins[e.value.0 := e.value.1] else pins);
    }
  }

  // Whatever the file says, the table loaded from it can be saved.
  lemma LoadedPlain(text: string)
    ensures PlainTable(LoadPins(text))
  {
    LinesUnbroken(text);
    InsertPlain(Lines(text), map[]);
  }

  // Saving and loading restores a table, in whatever order its hosts are listed, exactly when every host and every
  // fingerprint in it is plain.
  lemma LoadAfterSave(header: seq<string>, hosts: seq<string>, pins: map<string, string>)
    requires Comments(header) && Lists(hosts, pins)
    ensures LoadPins(SavePins(header, hosts, pins)) == pins <==> PlainTable(pins)
  {
    if PlainTable(pins) { PlainRestored(header, hosts, pins); }
    LoadedPlain(SavePins(header, hosts, pins));
  }

  // ---- The loops ----

  method Load(text: string) returns (pins: map<string, string>)
    ensures pins == LoadPins(text)
  {
    var lines := Lines(text);
    pins := map[];
    assert lines[0..] == lines;
    for i := 0 to |lines|
      invariant Insert(lines[i..], pins) == LoadPins(text)
    {
      assert lines[i..][1..] == lines[i + 1..];
      var line := Trim(lines[i]);
      if line == [] || line[0] == '#' {
        continue;
      }
      var n := Find(line, ' ');
      if n < |line| {
        pins := pins[line[..n] := Trim(line[n + 1..])];
      }
    }
  }

  lemma {:induction false} UnlinesSplit(a: seq<string>, b: seq<string>)
    ensures Unlines(a + b) == Unlines(a) + Unlines(b)
  {
    if a == [] {
      assert a + b == b && Unlines(a) + Unlines(b) == Unlines(b);
    } else {
      UnlinesSplit(a[1..], b);
      assert (a + b)[1..] == a[1..] + b && (a + b)[0] == a[0];
      assert a[0] + "\n" + (Unlines(a[1..]) + Unlines(b)) == a[0] + "\n" + Unlines(a[1..]) + Unlines(b);
    }
  }

  lemma EntryRound(text: string, hosts: seq<string>, pins: map<string, string>)
    requires hosts != [] && forall h | h in hosts :: h in pins
    ensures text + Unlines(EntryLines(hosts, pins)) ==
      text + (hosts[0] + " " + pins[hosts[0]] + "\n") + Unlines(EntryLines(hosts[1..], pins))
  {
    assert EntryLines(hosts, pins)[1..] == EntryLines(hosts[1..], pins);
    var first, rest := hosts[0] + " " + pins[hosts[0]] + "\n", Unlines(EntryLines(hosts[1..], pins));
    assert text + (first + rest) == text + first + rest;
  }

  method Save(header: seq<string>, hosts: seq<string>, pins: map<string, string>) returns (text: string)
    requires forall h | h in hosts :: h in pins
    ensures text == SavePins(header, hosts, pins)
  {
    UnlinesSplit(header, EntryLines(hosts, pins));
    text := Unlines(header);
    assert hosts[0..] == hosts;
    for i := 0 to |hosts|
      invariant text + Unlines(EntryLines(hosts[i..], pins)) == SavePins(header, hosts, pins)
    {
      assert hosts[i..][1..] == hosts[i + 1..] && hosts[i..][0] == hosts[i];
      EntryRound(text, hosts[i..], pins);
      text := text + (hosts[i] + " " + pins[hosts[i]] + "\n");
    }
    assert text + "" == text;
  }
}
