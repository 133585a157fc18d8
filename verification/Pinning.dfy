// Trust on first use: processes that verify and remove pins in the known_hosts file under a lock.
module Pinning {
  import opened Options
  import opened KnownHosts

  type Host = string
  type Fingerprint = string
  type Table = map<Host, Fingerprint>

  datatype Op = Verify(host: Host, fp: Fingerprint) | Remove(host: Host)
  {
    // The file format can carry what the operation may write.
    predicate Plain() { PlainHost(host) && (Verify? ==> PlainValue(fp)) }
  }

  // What an operation reported when it decided. Unsaved is an acceptance that could not be written down,
  // NotRemoved a removal that could not.
  datatype Event =
    | Accepted(host: Host, fp: Fingerprint)
    | Unsaved(host: Host, fp: Fingerprint)
    | Rejected(host: Host, fp: Fingerprint)
    | Removed(host: Host)
    | NotRemoved(host: Host)
  {
    predicate Accepts() { Accepted? || Unsaved? }
  }

  // verify_or_pin_locked and remove_pin on a loaded table: the table to save, if any, and the outcome once saved.
  function Decide(op: Op, pins: Table): (Option<Table>, Event) {
    match op
    case Verify(host, fp) =>
      if host in pins then (None, if pins[host] == fp then Accepted(host, fp) else Rejected(host, fp))
      else (Some(pins[host := fp]), Accepted(host, fp))
    case Remove(host) => (if host in pins then Some(pins - {host}) else None, Removed(host))
  }

  // The outcome when saving fails: a new pin is accepted all the same, a removal is an error.
  function Failed(op: Op): Event {
    match op
    case Verify(host, fp) => Unsaved(host, fp)
    case Remove(host) => NotRemoved(host)
  }

  // ---- Processes ----

  // Where a process is in its load-decide-save cycle.
  datatype Phase = Idle | Waiting(op: Op) | Holding(op: Op) | Loaded(op: Op, pins: Table) | Finished

  // The text of the file, whose comment lines are always the same, the lock, the processes and the outcomes.
  datatype World = World(header: seq<string>, file: string, lock: Option<nat>, procs: map<nat, Phase>, log: seq<Event>)
  {
    function PhaseOf(p: nat): Phase { if p in procs then procs[p] else Idle }
  }

  // A load says whether the file could be read, a commit whether it could be written and in which order.
  datatype Move =
    | Begin(p: nat, op: Op)
    | Acquire(p: nat)
    | Load(p: nat, read: bool)
    | Commit(p: nat, order: seq<Host>, saved: bool)
    | Release(p: nat)

  // A file that cannot be read counts as empty.
  function Read(file: string, read: bool): Table { if read then LoadPins(file) else map[] }

  // A move that is not enabled changes nothing.
  ghost function Next(w: World, m: Move): World {
    var at := w.PhaseOf(m.p);
    match m
    case Begin(p, op) => if at.Idle? then w.(procs := w.procs[p := Waiting(op)]) else w
    case Acquire(p) =>
      if at.Waiting? && w.lock.None? then w.(lock := Some(p), procs := w.procs[p := Holding(at.op)]) else w
    case Load(p, read) => if at.Holding? then w.(procs := w.procs[p := Loaded(at.op, Read(w.file, read))]) else w
    case Commit(p, order, saved) => if at.Loaded? then Committed(w, p, at.op, at.pins, order, saved) else w
    case Release(p) => if at.Finished? then w.(lock := None, procs := w.procs[p := Idle]) else w
  }

  ghost function Committed(w: World, p: nat, op: Op, pins: Table, order: seq<Host>, saved: bool): World {
    var (save, e) := Decide(op, pins);
    var done := w.(procs := w.procs[p := Finished]);
    if save.None? then done.(log := w.log + [e])
    else if !saved then done.(log := w.log + [Failed(op)])
    else if Lists(order, save.value) then done.(file := SavePins(w.header, order, save.value), log := w.log + [e])
    else w
  }

  ghost function Run(header: seq<string>, text: string, moves: seq<Move>): World {
    if moves == [] then World(header, text, None, map[], [])
    else Next(Run(header, text, moves[..|moves| - 1]), moves[|moves| - 1])
  }

  // ---- What the lock keeps ----

  predicate Inside(at: Phase) { at.Holding? || at.Loaded? || at.Finished? }

  predicate PlainPhase(at: Phase) { at.Waiting? || at.Holding? || at.Loaded? ==> at.op.Plain() }

  // Only the holder is between acquire and release, and what it loaded is still on disk.
  ghost predicate Exclusive(w: World) {
    && (forall p | p in w.procs && Inside(w.procs[p]) :: w.lock == Some(p))
    && (forall p | p in w.procs && w.procs[p].Loaded? :: w.procs[p].pins == LoadPins(w.file))
    && (forall p | p in w.procs :: PlainPhase(w.procs[p]))
  }

  ghost predicate NoRemoval(log: seq<Event>, host: Host, i: nat, j: nat)
    requires j <= |log|
  {
    forall k | i <= k < j :: log[k] != Removed(host)
  }

  // An acceptance written down, which no removal has followed, names the fingerprint on disk.
  ghost predicate OnDisk(log: seq<Event>, file: Table) {
    forall i | 0 <= i < |log| && log[i].Accepted? && NoRemoval(log, log[i].host, i, |log|) ::
      log[i].host in file && file[log[i].host] == log[i].fp
  }

  // After an acceptance written down, every acceptance of that host up to its removal names the same fingerprint.
  ghost predicate Agree(log: seq<Event>, i: nat, j: nat)
    requires i < j < |log|
  {
    log[i].Accepted? && log[j].Accepts() && log[i].host == log[j].host && NoRemoval(log, log[i].host, i, j) ==>
      log[i].fp == log[j].fp
  }

  ghost predicate Consistent(log: seq<Event>) { forall i, j | 0 <= i < j < |log| :: Agree(log, i, j) }

  lemma NoRemovalSnoc(log: seq<Event>, e: Event, host: Host, i: nat, j: nat)
    requires j <= |log|
    ensures NoRemoval(log + [e], host, i, j) == NoRemoval(log, host, i, j)
  {
    if NoRemoval(log + [e], host, i, j) {
      forall k | i <= k < j ensures log[k] != Removed(host) { assert (log + [e])[k] == log[k]; }
    }
  }

  // The event and the table on disk after an operation on the table `file`.
  ghost predicate Outcome(op: Op, file: Table, e: Event, file': Table) {
    var (save, done) := Decide(op, file);
    if save.None? then e == done && file' == file
    else (e == done && file' == save.value) || (e == Failed(op) && file' == file)
  }

  lemma OnDiskSnoc(log: seq<Event>, file: Table, op: Op, e: Event, file': Table)
    requires OnDisk(log, file) && Outcome(op, file, e, file')
    ensures OnDisk(log + [e], file')
  {
    var all := log + [e];
    forall i | 0 <= i < |all| && all[i].Accepted? && NoRemoval(all, all[i].host, i, |all|)
      ensures all[i].host in file' && file'[all[i].host] == all[i].fp
    {
      if i < |log| {
        assert all[|log|] == e && e != Removed(log[i].host);
        forall k | i <= k < |log| ensures log[k] != Removed(log[i].host) { assert all[k] == log[k]; }
        assert NoRemoval(log, log[i].host, i, |log|);
      }
    }
  }

  lemma ConsistentSnoc(log: seq<Event>, file: Table, op: Op, e: Event, file': Table)
    requires OnDisk(log, file) && Consistent(log) && Outcome(op, file, e, file')
    ensures Consistent(log + [e])
  {
    var all := log + [e];
    forall i, j | 0 <= i < j < |all| ensures Agree(all, i, j) {
      NoRemovalSnoc(log, e, log[i].host, i, j);
      if j < |log| { assert Agree(log, i, j); }
    }
  }

  ghost predicate Inv(w: World) {
    Comments(w.header) && Exclusive(w) && OnDisk(w.log, LoadPins(w.file)) && Consistent(w.log)
  }

  // A plain operation on a plain table leaves a plain table.
  lemma DecidePlain(op: Op, pins: Table)
    requires op.Plain() && PlainTable(pins)
    ensures Decide(op, pins).0.Some? ==> PlainTable(Decide(op, pins).0.value)
  {}

  // What a commit does to the text is what the operation does to the table.
  lemma CommitOutcome(w: World, p: nat, op: Op, order: seq<Host>, saved: bool)
    requires Comments(w.header) && op.Plain()
    ensures var v := Committed(w, p, op, LoadPins(w.file), order, saved);
      v == w || exists e :: v.log == w.log + [e] && Outcome(op, LoadPins(w.file), e, LoadPins(v.file))
  {
    var pins := LoadPins(w.file);
    LoadedPlain(w.file);
    DecidePlain(op, pins);
    var (save, e) := Decide(op, pins);
    var v := Committed(w, p, op, pins, order, saved);
    if save.Some? && saved && Lists(order, save.value) { PlainRestored(w.header, order, save.value); }
    if v != w {
      var x := if save.Some? && !saved then Failed(op) else e;
      assert v.log == w.log + [x];
    }
  }

  lemma CommitInv(w: World, m: Move)
    requires Inv(w) && m.Commit? && w.PhaseOf(m.p).Loaded?
    ensures Inv(Next(w, m))
  {
    hide LoadPins, SavePins, Decide, Comments, OnDisk, Consistent, Outcome;
    var at, v := w.PhaseOf(m.p), Next(w, m);
    CommitOutcome(w, m.p, at.op, m.order, m.saved);
    if v != w {
      var e :| v.log == w.log + [e] && Outcome(at.op, LoadPins(w.file), e, LoadPins(v.file));
      OnDiskSnoc(w.log, LoadPins(w.file), at.op, e, LoadPins(v.file));
      ConsistentSnoc(w.log, LoadPins(w.file), at.op, e, LoadPins(v.file));
    }
  }

  // The operation can be written down, and the file can be read.
  predicate Sane(m: Move) { (m.Begin? ==> m.op.Plain()) && (m.Load? ==> m.read) }

  // A process moves on without touching the file: it takes the lock, keeps it, or lets it go.
  lemma PhaseExclusive(w: World, p: nat, at: Phase, lock: Option<nat>)
    requires Exclusive(w) && PlainPhase(at) && (at.Loaded? ==> at.pins == LoadPins(w.file))
    requires Inside(at) ==> lock == Some(p)
    requires lock == w.lock || w.lock.None? || Inside(w.PhaseOf(p))
    ensures Exclusive(w.(lock := lock, procs := w.procs[p := at]))
  {
    hide LoadPins;
  }

  lemma QuietInv(w: World, m: Move)
    requires Inv(w) && !m.Commit? && Sane(m)
    ensures Inv(Next(w, m))
  {
    hide LoadPins, OnDisk, Consistent;
    var at := w.PhaseOf(m.p);
    match m {
      case Begin(p, op) => if at.Idle? { PhaseExclusive(w, p, Waiting(op), w.lock); }
      case Acquire(p) => if at.Waiting? && w.lock.None? { PhaseExclusive(w, p, Holding(at.op), Some(p)); }
      case Load(p, _) => if at.Holding? { PhaseExclusive(w, p, Loaded(at.op, LoadPins(w.file)), w.lock); }
      case Release(p) => if at.Finished? { PhaseExclusive(w, p, Idle, None); }
    }
  }

  lemma NextInv(w: World, m: Move)
    requires Inv(w) && Sane(m)
    ensures Inv(Next(w, m))
  {
    hide Inv;
    if !m.Commit? { QuietInv(w, m); } else if w.PhaseOf(m.p).Loaded? { CommitInv(w, m); }
  }

  // In every interleaving, from any file text and with saves that may fail, once an acceptance has been written down
  // every acceptance of that host up to its removal names the same fingerprint.
  lemma {:induction false} PinsNeverSplit(header: seq<string>, text: string, moves: seq<Move>)
    requires Comments(header) && forall i | 0 <= i < |moves| :: Sane(moves[i])
    ensures Inv(Run(header, text, moves))
  {
    hide Next;
    if moves != [] {
      var front := moves[..|moves| - 1];
      PinsNeverSplit(header, text, front);
      NextInv(Run(header, text, front), moves[|moves| - 1]);
    }
  }

  // An acceptance that could not be written down binds nobody: the next process accepts any fingerprint.
  lemma UnsavedBindsNothing(w: World, p: nat, host: Host, fp: Fingerprint, other: Fingerprint, order: seq<Host>)
    requires host !in LoadPins(w.file)
    ensures var v := Committed(w, p, Verify(host, fp), LoadPins(w.file), order, false);
      v.log == w.log + [Unsaved(host, fp)] && Decide(Verify(host, other), LoadPins(v.file)).1 == Accepted(host, other)
  {}

  // ---- What a pin binds ----

  // Reading the table back, the host is accepted with this fingerprint and no other.
  ghost predicate Binds(pins: Table, host: Host, fp: Fingerprint) {
    forall offered: Fingerprint :: Decide(Verify(host, offered), pins).1.Accepts() <==> offered == fp
  }

  lemma BindsIs(pins: Table, host: Host, fp: Fingerprint)
    ensures Binds(pins, host, fp) <==> host in pins && pins[host] == fp
  {
    if Binds(pins, host, fp) {
      var other := fp + "?";
      assert other != fp;
      assert !Decide(Verify(host, other), pins).1.Accepts();
      assert Decide(Verify(host, pins[host]), pins).1.Accepts();
    }
  }

  // A new pin that was written to the file binds later processes exactly when the format can carry its host and its
  // fingerprint. Otherwise the acceptance is reported all the same, and another fingerprint is accepted next.
  lemma PinSurvives(header: seq<string>, text: string, host: Host, fp: Fingerprint, order: seq<Host>)
    requires Comments(header) && host !in LoadPins(text) && Lists(order, LoadPins(text)[host := fp])
    ensures Decide(Verify(host, fp), LoadPins(text)) == (Some(LoadPins(text)[host := fp]), Accepted(host, fp))
    ensures Binds(LoadPins(SavePins(header, order, LoadPins(text)[host := fp])), host, fp) <==>
      PlainHost(host) && PlainValue(fp)
  {
    hide LoadPins, SavePins;
    var table := LoadPins(text)[host := fp];
    var back := LoadPins(SavePins(header, order, table));
    LoadedPlain(text);
    LoadedPlain(SavePins(header, order, table));
    BindsIs(back, host, fp);
    if PlainHost(host) && PlainValue(fp) { PlainRestored(header, order, table); }
  }

  lemma UnplainForgotten(header: seq<string>, text: string, host: Host, fp: Fingerprint, order: seq<Host>)
    requires Comments(header) && host !in LoadPins(text) && Lists(order, LoadPins(text)[host := fp])
    requires !(PlainHost(host) && PlainValue(fp))
    ensures var back := LoadPins(SavePins(header, order, LoadPins(text)[host := fp]));
      && (host !in back || back[host] != fp)
      && exists other :: other != fp && Decide(Verify(host, other), back).1.Accepts()
  {
    hide LoadPins, SavePins;
    var back := LoadPins(SavePins(header, order, LoadPins(text)[host := fp]));
    LoadedPlain(SavePins(header, order, LoadPins(text)[host := fp]));
    var other := if host in back then back[host] else fp + "?";
    assert other != fp && Decide(Verify(host, other), back).1.Accepts();
  }

  // ---- What the outcomes say of the file ----

  // The pin of the host after these outcomes, from this table: the last acceptance written down, unless removed since.
  function LastWord(start: Table, log: seq<Event>, host: Host): Option<Fingerprint> {
    if log == [] then if host in start then Some(start[host]) else None
    else
      var e := log[|log| - 1];
      if e.Accepted? && e.host == host then Some(e.fp)
      else if e == Removed(host) then None
      else LastWord(start, log[..|log| - 1], host)
  }

  function PinOf(pins: Table, host: Host): Option<Fingerprint> { if host in pins then Some(pins[host]) else None }

  // The table holds, for every host, the last word on it.
  ghost predicate Kept(start: Table, log: seq<Event>, file: Table) {
    forall host: Host :: PinOf(file, host) == LastWord(start, log, host)
  }

  // The outcome is the right one for what was pinned when it was decided.
  ghost predicate Right(pin: Option<Fingerprint>, e: Event) {
    match e
    case Accepted(_, fp) => pin == None || pin == Some(fp)
    case Unsaved(_, _) => pin == None
    case Rejected(_, fp) => pin != None && pin != Some(fp)
    case Removed(_) => true
    case NotRemoved(_) => pin != None
  }

  ghost predicate AllRight(start: Table, log: seq<Event>) {
    forall j | 0 <= j < |log| :: Right(LastWord(start, log[..j], log[j].host), log[j])
  }

  // An operation reports on its own host, with the fingerprint it was offered.
  lemma Reports(op: Op, file: Table, e: Event, file': Table)
    requires Outcome(op, file, e, file')
    ensures e.host == op.host && (op.Verify? <==> e.Accepts() || e.Rejected?) && (op.Verify? ==> e.fp == op.fp)
    ensures Right(PinOf(file, op.host), e)
    ensures PinOf(file', op.host) ==
      if e.Accepted? then Some(e.fp) else if e.Removed? then None else PinOf(file, op.host)
    ensures forall other: Host | other != op.host :: PinOf(file', other) == PinOf(file, other)
  {}

  lemma KeptSnoc(start: Table, log: seq<Event>, op: Op, file: Table, e: Event, file': Table)
    requires Kept(start, log, file) && AllRight(start, log) && Outcome(op, file, e, file')
    ensures Kept(start, log + [e], file') && AllRight(start, log + [e])
  {
    hide Outcome;
    Reports(op, file, e, file');
    var all := log + [e];
    assert all[..|log|] == log;
    forall host: Host ensures PinOf(file', host) == LastWord(start, all, host) {}
    forall j | 0 <= j < |all| ensures Right(LastWord(start, all[..j], all[j].host), all[j]) {
      if j < |log| { assert all[..j] == log[..j]; } else { assert all[..j] == log; }
    }
  }

  lemma NextKept(start: Table, w: World, m: Move)
    requires Inv(w) && Kept(start, w.log, LoadPins(w.file)) && AllRight(start, w.log)
    ensures var v := Next(w, m); Kept(start, v.log, LoadPins(v.file)) && AllRight(start, v.log)
  {
    hide LoadPins, SavePins, Decide, Comments, OnDisk, Consistent, Outcome, Kept, AllRight;
    var at, v := w.PhaseOf(m.p), Next(w, m);
    if m.Commit? && at.Loaded? {
      CommitOutcome(w, m.p, at.op, m.order, m.saved);
      if v != w {
        var e :| v.log == w.log + [e] && Outcome(at.op, LoadPins(w.file), e, LoadPins(v.file));
        KeptSnoc(start, w.log, at.op, LoadPins(w.file), e, LoadPins(v.file));
      }
    }
  }

  // In every interleaving the file holds for every host exactly the last word on it, and every outcome was the right
  // one for what was pinned then.
  lemma {:induction false} FileSaysExactly(header: seq<string>, text: string, moves: seq<Move>)
    requires Comments(header) && forall i | 0 <= i < |moves| :: Sane(moves[i])
    ensures var w := Run(header, text, moves);
      Kept(LoadPins(text), w.log, LoadPins(w.file)) && AllRight(LoadPins(text), w.log)
  {
    hide Next, Inv, LoadPins;
    if moves != [] {
      var front := moves[..|moves| - 1];
      FileSaysExactly(header, text, front);
      PinsNeverSplit(header, text, front);
      NextKept(LoadPins(text), Run(header, text, front), moves[|moves| - 1]);
    }
  }

  lemma {:induction false} LastWordRemoved(start: Table, log: seq<Event>, host: Host, i: nat)
    requires i < |log| && log[i] == Removed(host)
    requires forall k | i < k < |log| :: !(log[k].Accepted? && log[k].host == host)
    ensures LastWord(start, log, host) == None
  {
    if i < |log| - 1 { LastWordRemoved(start, log[..|log| - 1], host, i); }
  }

  // Once a removal was written down, and until the next acceptance, the host is accepted with any fingerprint.
  lemma RemovalFrees(header: seq<string>, text: string, moves: seq<Move>, host: Host, i: nat, fp: Fingerprint)
    requires Comments(header) && forall i | 0 <= i < |moves| :: Sane(moves[i])
    requires var log := Run(header, text, moves).log;
      i < |log| && log[i] == Removed(host) && forall k | i < k < |log| :: !(log[k].Accepted? && log[k].host == host)
    ensures Decide(Verify(host, fp), LoadPins(Run(header, text, moves).file)).1 == Accepted(host, fp)
  {
    hide Run, LoadPins, AllRight;
    var w := Run(header, text, moves);
    FileSaysExactly(header, text, moves);
    LastWordRemoved(LoadPins(text), w.log, host, i);
    assert PinOf(LoadPins(w.file), host) == None;
  }

  // ---- When the file cannot be read ----

  // Some acceptance of the host was written down and not removed since.
  ghost predicate Pinned(log: seq<Event>, host: Host) {
    exists i | 0 <= i < |log| :: log[i].Accepted? && log[i].host == host && NoRemoval(log, host, i, |log|)
  }

  // A process that could not read the file accepts whatever it is offered. That breaks no promise exactly when the
  // host was not pinned, or was pinned to the same fingerprint.
  lemma UnreadAccepts(log: seq<Event>, file: Table, host: Host, fp: Fingerprint)
    requires OnDisk(log, file) && Consistent(log)
    ensures Decide(Verify(host, fp), Read("", false)) == (Some(map[host := fp]), Accepted(host, fp))
    ensures Consistent(log + [Accepted(host, fp)]) <==> !Pinned(log, host) || (host in file && file[host] == fp)
  {
    var all := log + [Accepted(host, fp)];
    if Pinned(log, host) {
      var i :| 0 <= i < |log| && log[i].Accepted? && log[i].host == host && NoRemoval(log, host, i, |log|);
      NoRemovalSnoc(log, Accepted(host, fp), host, i, |log|);
      assert all[i] == log[i] && all[|log|] == Accepted(host, fp);
      assert host in file && file[host] == log[i].fp;
      if Consistent(all) { assert Agree(all, i, |log|); }
    }
    if !Pinned(log, host) || (host in file && file[host] == fp) {
      forall i, j | 0 <= i < j < |all| ensures Agree(all, i, j) {
        NoRemovalSnoc(log, Accepted(host, fp), log[i].host, i, j);
        if j < |log| { assert Agree(log, i, j); }
      }
    }
  }

  // Its save then leaves a file with that one pin, whatever was pinned before.
  lemma UnreadOverwrites(w: World, p: nat, host: Host, fp: Fingerprint, order: seq<Host>)
    requires Comments(w.header) && PlainHost(host) && PlainValue(fp) && Lists(order, map[host := fp])
    ensures var v := Committed(w, p, Verify(host, fp), Read(w.file, false), order, true);
      v.log == w.log + [Accepted(host, fp)] && LoadPins(v.file) == map[host := fp]
  {
    hide LoadPins, SavePins;
    var table: Table := map[host := fp];
    assert Read(w.file, false)[host := fp] == table;
    PlainRestored(w.header, order, table);
  }

  // One process goes through its whole cycle alone.
  ghost function Cycle(w: World, p: nat, op: Op, read: bool, order: seq<Host>): World {
    Next(Next(Next(Next(Next(w, Begin(p, op)), Acquire(p)), Load(p, read)), Commit(p, order, true)), Release(p))
  }

  lemma CycleIs(w: World, p: nat, op: Op, read: bool, order: seq<Host>)
    requires w.lock.None? && w.PhaseOf(p).Idle?
    requires Decide(op, Read(w.file, read)).0.Some? && Lists(order, Decide(op, Read(w.file, read)).0.value)
    ensures var (save, e) := Decide(op, Read(w.file, read));
      var v := Cycle(w, p, op, read, order);
      && v.lock.None? && v.header == w.header && v.file == SavePins(w.header, order, save.value)
      && v.log == w.log + [e] && (forall q | q != p :: v.PhaseOf(q) == w.PhaseOf(q))
  {
    hide SavePins, Read, Decide, Lists;
    var w3 := Next(Next(Next(w, Begin(p, op)), Acquire(p)), Load(p, read));
    assert w3 == w.(lock := Some(p), procs := w.procs[p := Loaded(op, Read(w.file, read))]);
  }

  // Under the lock, a host pinned by one process is accepted with another fingerprint by the next, whose load failed.
  lemma UnreadSplits(header: seq<string>, text: string, host: Host, a: Fingerprint, b: Fingerprint, order: seq<Host>)
    requires Comments(header) && PlainHost(host) && PlainValue(a) && a != b && host !in LoadPins(text)
    requires Lists(order, LoadPins(text)[host := a])
    ensures var first := Cycle(World(header, text, None, map[], []), 1, Verify(host, a), true, order);
      var second := Cycle(first, 2, Verify(host, b), false, [host]);
      && host in LoadPins(first.file) && LoadPins(first.file)[host] == a
      && second.log == [Accepted(host, a), Accepted(host, b)] && !Consistent(second.log)
  {
    hide Cycle, SavePins, LoadPins;
    var w := World(header, text, None, map[], []);
    CycleIs(w, 1, Verify(host, a), true, order);
    var first := Cycle(w, 1, Verify(host, a), true, order);
    LoadedPlain(text);
    PlainRestored(header, order, LoadPins(text)[host := a]);
    CycleIs(first, 2, Verify(host, b), false, [host]);
    Splits(host, a, b);
    assert [] + [Accepted(host, a)] + [Accepted(host, b)] == [Accepted(host, a), Accepted(host, b)];
  }

  // ---- Without the lock ----

  // The fall-back when the lock cannot be taken: the cycle runs without it.
  ghost function Unlocked(w: World, m: Move): World {
    var at := w.PhaseOf(m.p);
    match m
    case Acquire(p) => if at.Waiting? then w.(procs := w.procs[p := Holding(at.op)]) else w
    case _ => Next(w, m)
  }

  // Processes 1 and 2 make the same move, one after the other.
  ghost function Both(w: World, a: Move, b: Move): World { Unlocked(Unlocked(w, a), b) }

  lemma BothBegin(w: World, x: Op, y: Op)
    requires w.procs == map[]
    ensures var v := Both(w, Begin(1, x), Begin(2, y));
      v.PhaseOf(1) == Waiting(x) && v.PhaseOf(2) == Waiting(y) && v.file == w.file && v.log == w.log
  {}

  lemma BothAcquire(w: World, x: Op, y: Op)
    requires w.PhaseOf(1) == Waiting(x) && w.PhaseOf(2) == Waiting(y)
    ensures var v := Both(w, Acquire(1), Acquire(2));
      v.PhaseOf(1) == Holding(x) && v.PhaseOf(2) == Holding(y) && v.file == w.file && v.log == w.log
  {}

  lemma BothLoad(w: World, x: Op, y: Op)
    requires w.PhaseOf(1) == Holding(x) && w.PhaseOf(2) == Holding(y)
    ensures var v, pins := Both(w, Load(1, true), Load(2, true)), LoadPins(w.file);
      v.PhaseOf(1) == Loaded(x, pins) && v.PhaseOf(2) == Loaded(y, pins) && v.file == w.file && v.log == w.log
  {
    hide LoadPins;
  }

  lemma BothCommit(w: World, host: Host, a: Fingerprint, b: Fingerprint, pins: Table, p: seq<Host>, q: seq<Host>)
    requires w.PhaseOf(1) == Loaded(Verify(host, a), pins) && w.PhaseOf(2) == Loaded(Verify(host, b), pins)
    requires host !in pins && Lists(p, pins[host := a]) && Lists(q, pins[host := b])
    ensures Both(w, Commit(1, p, true), Commit(2, q, true)).log == w.log + [Accepted(host, a)] + [Accepted(host, b)]
  {
    hide SavePins, Lists;
  }

  // Two first connections to an unpinned host then both accept, whatever they were offered.
  lemma UnlockedSplits(w: World, host: Host, a: Fingerprint, b: Fingerprint, p: seq<Host>, q: seq<Host>)
    requires w.procs == map[] && w.log == [] && host !in LoadPins(w.file) && a != b
    requires Lists(p, LoadPins(w.file)[host := a]) && Lists(q, LoadPins(w.file)[host := b])
    ensures var began := Both(w, Begin(1, Verify(host, a)), Begin(2, Verify(host, b)));
      var loaded := Both(Both(began, Acquire(1), Acquire(2)), Load(1, true), Load(2, true));
      var log := Both(loaded, Commit(1, p, true), Commit(2, q, true)).log;
      log == [Accepted(host, a), Accepted(host, b)] && !Consistent(log)
  {
    hide Both, Lists, LoadPins;
    var x, y := Verify(host, a), Verify(host, b);
    var w1 := Both(w, Begin(1, x), Begin(2, y));
    var w2 := Both(w1, Acquire(1), Acquire(2));
    var w3 := Both(w2, Load(1, true), Load(2, true));
    BothBegin(w, x, y);
    BothAcquire(w1, x, y);
    BothLoad(w2, x, y);
    BothCommit(w3, host, a, b, LoadPins(w.file), p, q);
    Splits(host, a, b);
    assert [] + [Accepted(host, a)] + [Accepted(host, b)] == [Accepted(host, a), Accepted(host, b)];
  }

  lemma Splits(host: Host, a: Fingerprint, b: Fingerprint)
    requires a != b
    ensures !Consistent([Accepted(host, a), Accepted(host, b)])
  {
    var log := [Accepted(host, a), Accepted(host, b)];
    assert NoRemoval(log, host, 0, 1);
    assert !Agree(log, 0, 1);
  }
}
