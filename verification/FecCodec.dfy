// The codec's methods: encoder, decoder and wire format of repair symbols.
module FecCodec {
  import opened Options
  import opened GaloisField
  import opened LinearAlgebra
  import opened LinearSystems
  import opened Cauchy
  import opened FecCode
  import opened FecDecoder
  import opened Ragged
  import opened Vectors
  import opened GaussInPlace
  import opened Bytes

  // Collect and sort the keys of a table with byte keys.
  method SortedKeys(m: map<nat, seq<bv8>>) returns (keys: seq<nat>)
    ensures keys == Ascending(m.Keys, 256)
  {
    keys := [];
    for i := 0 to 256
      invariant keys == Ascending(m.Keys, i)
    {
      if i in m { keys := keys + [i]; }
    }
  }

  method MissingKeys(m: map<nat, seq<bv8>>, k: nat) returns (keys: seq<nat>)
    ensures keys == Missing(m.Keys, k)
  {
    keys := [];
    for i := 0 to k
      invariant keys == Missing(m.Keys, i)
    {
      if i !in m { keys := keys + [i]; }
    }
  }

  // One Cauchy row, or None at the first zero denominator.
  method CauchyRowOf(t: Tables, i: nat, k: nat, r: nat) returns (row: Option<seq<bv8>>)
    requires t.Correct()
    ensures row.None? ==> exists j: nat | j < k :: ZeroDenominator(i, j, r)
    ensures row.Some? ==> forall j: nat | j < k :: !ZeroDenominator(i, j, r)
    ensures row.Some? ==> row.value == CauchyRow(GF(), Point(i), Columns(k, r))
  {
    var u: seq<bv8> := [];
    for j := 0 to k
      invariant |u| == j
      invariant forall l: nat | l < j :: !ZeroDenominator(i, l, r)
      invariant forall l | 0 <= l < j :: u[l] == CauchyRow(GF(), Point(i), Columns(k, r))[l]
    {
      var c := CauchyEntry(t, i, j, r);
      if c.None? {
        return None;
      }
      EntryOfRow(t, i, j, k, r);
      u := u + [c.value];
    }
    return Some(u);
  }

  // The rows gathered for columns below n, in column order.
  ghost predicate RowsBelow(g: Group, mat: seq<seq<bv8>>, rhs: seq<seq<bv8>>, n: nat)
    requires g.Valid() && |Chosen(g)| == |Missing(g.sources.Keys, g.k)|
  {
    && |mat| == |rhs| == g.k && n <= g.k
    && (forall c | 0 <= c < n :: mat[c] == Matrix(g)[c] && rhs[c] == Rhs(g)[c])
  }

  // No chosen repair with position below n meets a zero denominator.
  ghost predicate CleanBelow(g: Group, n: nat) {
    n <= |Chosen(g)| && forall i, j: nat | 0 <= i < n && j < g.k :: !ZeroDenominator(Chosen(g)[i], j, g.r)
  }

  // The row of one column: a received source, or the next chosen repair.
  method SystemRow(t: Tables, g: Group, chosen: seq<nat>, col: nat, next: nat)
    returns (row: Option<seq<bv8>>, b: seq<bv8>)
    requires t.Correct() && g.Valid() && chosen == Chosen(g) && |chosen| == |Missing(g.sources.Keys, g.k)|
    requires col < g.k && next == |Missing(g.sources.Keys, col)| && (col in g.sources || next < |chosen|)
    ensures row.Some? ==> row.value == Matrix(g)[col] && b == Rhs(g)[col]
    ensures row.None? ==> col !in g.sources && exists j: nat | j < g.k :: ZeroDenominator(chosen[next], j, g.r)
    ensures row.Some? && col !in g.sources ==> forall j: nat | j < g.k :: !ZeroDenominator(chosen[next], j, g.r)
  {
    ChosenStored(g);
    if col in g.sources {
      row := Some(seq(g.k, _ => 0)[col := 1]);
      b := g.sources[col];
    } else {
      row := CauchyRowOf(t, chosen[next], g.k, g.r);
      b := g.repairs[chosen[next]];
    }
  }

  lemma CleanStep(g: Group, n: nat)
    requires CleanBelow(g, n) && n < |Chosen(g)| && forall j: nat | j < g.k :: !ZeroDenominator(Chosen(g)[n], j, g.r)
    ensures CleanBelow(g, n + 1)
  {}

  method BuildSystem(t: Tables, g: Group, chosen: seq<nat>, mat: array<seq<bv8>>, rhs: array<seq<bv8>>)
    returns (ok: bool)
    requires t.Correct() && g.Valid() && chosen == Chosen(g) && |chosen| == |Missing(g.sources.Keys, g.k)|
    requires mat != rhs && mat.Length == rhs.Length == g.k
    modifies mat, rhs
    ensures ok <==> !Degenerate(g)
    ensures ok ==> mat[..] == Matrix(g) && rhs[..] == Rhs(g)
  {
    var next := 0;
    for col := 0 to g.k
      invariant next == |Missing(g.sources.Keys, col)| <= |chosen|
      invariant CleanBelow(g, next)
      invariant RowsBelow(g, mat[..], rhs[..], col)
    {
      MissingPosition(g.sources.Keys, col, g.k);
      var row, b := SystemRow(t, g, chosen, col, next);
      if row.None? {
        return false;
      }
      if col !in g.sources {
        CleanStep(g, next);
        next := next + 1;
      }
      mat[col] := row.value;
      rhs[col] := b;
    }
    return true;
  }

  // The checks at the top of try_recover.
  method EarlyExits(g: Group) returns (v: Verdict, missing: seq<nat>)
    ensures v == Decide(g.recovered, |g.sources|, |g.repairs|, g.k, |Missing(g.sources.Keys, g.k)|)
    ensures v == Reconstruct ==> missing == Missing(g.sources.Keys, g.k)
  {
    missing := [];
    if g.recovered {
      return Wait, [];
    }
    var haveSrc, haveRep := |g.sources| % 256, |g.repairs| % 256;
    if haveSrc == g.k {
      return Complete, [];
    }
    if (haveSrc + haveRep) % 256 < g.k {
      return Wait, [];
    }
    missing := MissingKeys(g.sources, g.k);
    v := if haveRep < |missing| then Wait else Reconstruct;
  }

  method TryRecover(t: Tables, g: Group) returns (out: Attempt)
    requires t.Correct() && g.Valid()
    ensures out == Recovery(g)
  {
    var v, missing := EarlyExits(g);
    match v {
      case Wait => out := Return(None);
      case Complete => out := Return(Some([]));
      case Reconstruct =>
        ChosenCount(g);
        var avail := SortedKeys(g.repairs);
        out := RecoverMissing(t, g, missing, avail[..|missing|]);
    }
  }

  method RecoverMissing(t: Tables, g: Group, missing: seq<nat>, chosen: seq<nat>) returns (out: Attempt)
    requires t.Correct() && g.Valid() && missing == Missing(g.sources.Keys, g.k)
    requires chosen == Chosen(g) && |chosen| == |missing|
    ensures out == RecoverBySolving(g)
  {
    hide Eliminate;
    var mat := new seq<bv8>[g.k](_ => []);
    var rhs := new seq<bv8>[g.k](_ => []);
    var built := BuildSystem(t, g, chosen, mat, rhs);
    if !built {
      return Return(None);
    }
    var ending := GaussRhs(t, mat, rhs, g.k);
    match ending {
      case OutOfRange => return Crash;
      case Unsolvable => return Return(None);
      case Solved =>
        var list := CollectRows(missing, rhs[..]);
        return Return(Some(list));
    }
  }

  method CollectRows(at: seq<nat>, rows: seq<seq<bv8>>) returns (list: Recovered)
    requires forall i | 0 <= i < |at| :: at[i] < |rows|
    ensures list == PickRows(at, rows)
  {
    list := [];
    for i := 0 to |at|
      invariant |list| == i && forall j | 0 <= j < i :: list[j] == (at[j], rows[at[j]])
    {
      list := list + [(at[i], rows[at[i]])];
    }
  }

  class Decoder {
    const t: Tables
    var groups: map<nat, Group>

    ghost predicate Valid()
      reads this
    {
      t.Correct() && forall id | id in groups :: groups[id].Valid()
    }

    constructor (t: Tables)
      requires t.Correct()
      ensures Valid() && groups == map[] && this.t == t
    {
      this.t := t;
      groups := map[];
    }

    function Find(id: nat): Option<Group>
      reads this
    {
      if id in groups then Some(groups[id]) else None
    }

    // Process a source or repair symbol of any length: store it, then try to recover.
    method Add(id: nat, k: nat, r: nat, sym: Symbol) returns (out: Attempt)
      requires Valid() && k < 256 && r < 256 && sym.idx < 256
      modifies this
      ensures Valid()
      ensures var g := Insert(old(Find(id)), k, r, sym);
        g.Valid() && out == Recovery(g) && groups == old(groups)[id := AfterRecovery(g)]
    {
      InsertValid(Find(id), k, r, sym);
      var g := Insert(Find(id), k, r, sym);
      out := TryRecover(t, g);
      groups := groups[id := if Succeeds(out) then g.(recovered := true) else g];
    }

    method CleanupGroup(id: nat)
      requires Valid()
      modifies this
      ensures Valid() && groups == old(groups) - {id}
    {
      groups := groups - {id};
    }
  }

  datatype RepairData = RepairData(groupId: nat, repairIdx: nat, k: nat, r: nat, paddedLen: nat, data: seq<bv8>)

  // The repair symbols of one full group, in order.
  ghost function Repairs(id: nat, P: Rows<bv8>, w: nat, r: nat): (s: seq<RepairData>)
    requires Rect(P, w)
    ensures |s| == r
  {
    seq(r, i requires 0 <= i < r => RepairData(id, i, |P|, r, w % U16, RepairSymbol(P, w, i, r)))
  }

  ghost function PadAll(s: seq<seq<bv8>>, w: nat): (P: Rows<bv8>)
    ensures |P| == |s| && Rect(P, w)
  {
    seq(|s|, i requires 0 <= i < |s| => Pad(s[i], w))
  }

  // The longest payload.
  ghost function Longest(s: seq<seq<bv8>>): (w: nat)
    ensures forall i | 0 <= i < |s| :: |s[i]| <= w
  {
    if |s| == 0 then 0 else Max(Longest(s[..|s| - 1]), |s[|s| - 1]|)
  }

  class Encoder {
    const t: Tables
    const k: nat
    const r: nat
    var groupId: nat
    var sources: seq<seq<bv8>>
    var paddedLen: nat
    var sourceIdx: nat

    ghost predicate Valid()
      reads this
    {
      && t.Correct() && 1 <= k < 256 && r < 256 && (r == 0 || k + r <= 256)
      && groupId < U32 && |sources| < k && sourceIdx == |sources| && paddedLen == Longest(sources)
    }

    constructor (t: Tables, groupId: nat, k: nat, r: nat)
      requires t.Correct() && groupId < U32 && 1 <= k < 256 && r < 256 && (r == 0 || k + r <= 256)
      ensures Valid() && sources == [] && this.groupId == groupId && this.k == k && this.r == r && this.t == t
    {
      this.t, this.k, this.r := t, k, r;
      this.groupId, sources, paddedLen, sourceIdx := groupId, [], 0, 0;
    }

    method PushSource(payload: seq<bv8>) returns (out: Option<seq<RepairData>>)
      requires Valid()
      modifies this
      ensures Valid()
      ensures out.Some? <==> |old(sources)| + 1 == k
      ensures out.None? ==> sources == old(sources) + [payload] && groupId == old(groupId)
      ensures out.Some? ==>
        var all := old(sources) + [payload];
        && sources == [] && groupId == (old(groupId) + 1) % U32
        && out.value == Repairs(old(groupId), PadAll(all, Longest(all)), Longest(all), r)
    {
      paddedLen := Max(paddedLen, |payload|);
      sources := sources + [payload];
      assert sources[..|sources| - 1] == old(sources);
      sourceIdx := sourceIdx + 1;
      if |sources| == k {
        var repairs := EmitRepairs(k);
        out := Some(repairs);
      } else {
        out := None;
      }
    }

    // Flush a partial group.
    method Flush() returns (out: Option<seq<RepairData>>)
      requires Valid()
      modifies this
      ensures Valid() && sources == []
      ensures out.Some? <==> old(sources) != []
      ensures out.None? ==> groupId == old(groupId)
      ensures out.Some? ==>
        && groupId == (old(groupId) + 1) % U32
        && out.value == Repairs(old(groupId), PadAll(old(sources), Longest(old(sources))), Longest(old(sources)), r)
    {
      if sources == [] {
        return None;
      }
      var repairs := EmitRepairs(|sources|);
      out := Some(repairs);
    }

    method EmitRepairs(actualK: nat) returns (out: seq<RepairData>)
      requires t.Correct() && 1 <= k < 256 && r < 256 && (r == 0 || k + r <= 256) && groupId < U32
      requires 1 <= actualK <= k && |sources| == actualK && paddedLen == Longest(sources)
      modifies this
      ensures Valid() && sources == [] && groupId == (old(groupId) + 1) % U32
      ensures out == Repairs(old(groupId), PadAll(old(sources), old(paddedLen)), old(paddedLen), r)
    {
      var len := paddedLen;
      var padded := PadSources(sources, len);
      out := [];
      for i := 0 to r
        invariant groupId == old(groupId) && sources == old(sources) && paddedLen == old(paddedLen)
        invariant |out| == i
        invariant forall j | 0 <= j < i :: out[j] == Repairs(groupId, padded, len, r)[j]
      {
        var sym := EncodeSymbol(t, padded, len, i, r);
        out := out + [RepairData(groupId, i, actualK, r, len % U16, sym)];
      }
      groupId := (groupId + 1) % U32;
      sources, paddedLen, sourceIdx := [], 0, 0;
    }
  }

  // s.resize(len, 0) for every source.
  method PadSources(s: seq<seq<bv8>>, len: nat) returns (P: seq<seq<bv8>>)
    ensures P == PadAll(s, len)
  {
    P := [];
    for i := 0 to |s|
      invariant |P| == i && forall j | 0 <= j < i :: P[j] == Pad(s[j], len)
    {
      P := P + [Pad(s[i], len)];
    }
  }

  // The partial sum over the first n sources.
  ghost predicate SumBelow(sym: seq<bv8>, P: Rows<bv8>, w: nat, row: seq<bv8>, n: nat)
    requires Rect(P, w) && n <= |P| == |row|
  {
    |sym| == w && forall t | 0 <= t < w :: sym[t] == Dot(GF(), row[..n], Column(P, w, t)[..n])
  }

  lemma SumStep(sym: seq<bv8>, P: Rows<bv8>, w: nat, row: seq<bv8>, n: nat)
    requires Rect(P, w) && n < |P| == |row| && SumBelow(sym, P, w, row, n)
    ensures SumBelow(AddScaled(GF(), sym, P[n], row[n]), P, w, row, n + 1)
  {
    forall t | 0 <= t < w
      ensures AddScaled(GF(), sym, P[n], row[n])[t] == Dot(GF(), row[..n + 1], Column(P, w, t)[..n + 1])
    {
      var col := Column(P, w, t);
      assert row[..n + 1][..n] == row[..n] && col[..n + 1][..n] == col[..n];
    }
  }

  // One repair symbol, accumulated source by source.
  method EncodeSymbol(t: Tables, P: Rows<bv8>, w: nat, i: nat, r: nat) returns (sym: seq<bv8>)
    requires t.Correct() && Rect(P, w) && 1 <= |P| < 256 && i < r < 256 && |P| + r <= 256
    ensures sym == RepairSymbol(P, w, i, r)
  {
    var buf := new bv8[w](_ => 0);
    ghost var row := CauchyRow(GF(), Point(i), Columns(|P|, r));
    for j := 0 to |P|
      invariant SumBelow(buf[..], P, w, row, j)
    {
      DenominatorsNonZero(|P|, r);
      EntryOfRow(t, i, j, |P|, r);
      var c := CauchyEntry(t, i, j, r).value;
      SumStep(buf[..], P, w, row, j);
      MulAddSlice(t, buf, P[j], c);
    }
    sym := buf[..];
    forall u | 0 <= u < w ensures sym[u] == RepairSymbol(P, w, i, r)[u] {
      assert row[..|P|] == row && Column(P, w, u)[..|P|] == Column(P, w, u);
    }
  }

  // ---- Wire format of a repair symbol ----

  const REPAIR_HDR: nat := 9

  function ToBytes(d: RepairData): seq<byte>
    requires Encodable(d)
  {
    ToLE(d.groupId, 4) + [d.repairIdx, d.k, d.r] + ToLE(d.paddedLen, 2) + ToWire(d.data)
  }

  function FromBytes(buf: seq<byte>): Option<RepairData> {
    if |buf| < REPAIR_HDR then None
    else
      var len := FromLE(buf[7..9]);
      if |buf| < REPAIR_HDR + len then None
      else Some(RepairData(FromLE(buf[0..4]), buf[4], buf[5], buf[6], len, FromWire(buf[9..9 + len])))
  }

  predicate Encodable(d: RepairData) {
    d.groupId < U32 && d.repairIdx < 256 && d.k < 256 && d.r < 256 && d.paddedLen < U16
  }

  lemma HeaderBytes(d: RepairData)
    requires Encodable(d)
    ensures var b := ToBytes(d);
      && |b| == 9 + |d.data| && b[0..4] == ToLE(d.groupId, 4) && b[7..9] == ToLE(d.paddedLen, 2)
      && b[4] == d.repairIdx && b[5] == d.k && b[6] == d.r && b[9..] == ToWire(d.data)
  {}

  lemma WirePrefix(s: seq<bv8>, n: nat)
    requires n <= |s|
    ensures FromWire(ToWire(s)[..n]) == s[..n]
  {
    forall i | 0 <= i < n ensures FromWire(ToWire(s)[..n])[i] == s[i] { NatOfByte(s[i]); }
  }

  lemma RepairOnWire(d: RepairData)
    requires Encodable(d)
    ensures FromBytes(ToBytes(d)) ==
      if |d.data| < d.paddedLen then None else Some(d.(data := d.data[..d.paddedLen]))
  {
    HeaderBytes(d);
    Widths();
    LERoundTrip(d.groupId, 4);
    LERoundTrip(d.paddedLen, 2);
    var b := ToBytes(d);
    if |d.data| >= d.paddedLen {
      assert b[9..9 + d.paddedLen] == b[9..][..d.paddedLen];
      WirePrefix(d.data, d.paddedLen);
    }
  }

  // A repair symbol survives the wire exactly when its length field is its data length.
  lemma RepairRoundTrip(d: RepairData)
    requires Encodable(d)
    ensures FromBytes(ToBytes(d)) == Some(d) <==> |d.data| == d.paddedLen
  {
    RepairOnWire(d);
    if |d.data| == d.paddedLen { assert d.data[..d.paddedLen] == d.data; }
  }

  ghost function FullGroup(payloads: seq<seq<bv8>>, r: nat): Coded {
    Coded(|payloads|, r, Longest(payloads), payloads)
  }

  // What the encoder emits for a full group survives the wire (RepairRoundTrip) and is a
  // symbol of that group to the decoder.
  lemma EncoderFeedsDecoder(id: nat, payloads: seq<seq<bv8>>, r: nat, i: nat)
    requires id < U32 && 1 <= |payloads| < 256 && i < r < 256 && |payloads| + r <= 256
    requires Longest(payloads) < U16
    ensures var w := Longest(payloads);
      var d := Repairs(id, PadAll(payloads, w), w, r)[i];
      && Encodable(d) && |d.data| == d.paddedLen
      && FullGroup(payloads, r).Valid()
      && FullGroup(payloads, r).Sends(Repair(d.repairIdx, d.paddedLen, d.data))
  {
    var w := Longest(payloads);
    var P := PadAll(payloads, w);
    var d := RepairData(id, i, |P|, r, w, RepairSymbol(P, w, i, r));
    assert Repairs(id, P, w, r)[i] == d;
    PaddedIsPadAll(FullGroup(payloads, r));
  }

  lemma PaddedIsPadAll(c: Coded)
    requires c.Valid()
    ensures c.Padded() == PadAll(c.payloads, c.w)
  {}
}
