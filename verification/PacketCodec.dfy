// Packet protection: header masking, nonces, and the order of replay check and authentication.
module PacketCodec {
  import opened Options
  import opened Bytes
  import Replay

  type Octets = seq<bv8>

  const HEADER_LEN: nat := 32
  const TAG_LEN: nat := 16
  const MAX_PACKET_LEN: nat := 65535

  // ---- The primitives, and what is asked of them ----

  // Authenticated encryption and the header mask under the keys of one direction.
  datatype Suite = Suite(
    seal: (Octets, Octets, Octets) -> Octets,
    open: (Octets, Octets, Octets) -> Option<Octets>,
    mask: Octets -> Octets)
  {
    ghost predicate Lawful() {
      && (forall nonce, aad, plain :: |seal(nonce, aad, plain)| == |plain| + TAG_LEN)
      && (forall nonce, aad, plain :: open(nonce, aad, seal(nonce, aad, plain)) == Some(plain))
      && (forall nonce, aad, body ::
            open(nonce, aad, body).Some? ==> |open(nonce, aad, body).value| + TAG_LEN == |body|)
      && (forall sample :: |mask(sample)| == HEADER_LEN)
    }
  }

  function Xor(a: Octets, m: Octets): (r: Octets)
    requires |a| == |m|
    ensures |r| == |a|
  {
    seq(|a|, i requires 0 <= i < |a| => a[i] ^ m[i])
  }

  // Masking twice is not masking.
  lemma XorTwice(a: Octets, m: Octets)
    requires |a| == |m|
    ensures Xor(Xor(a, m), m) == a
  {
    forall i | 0 <= i < |a| ensures Xor(Xor(a, m), m)[i] == a[i] { XorCancels(a[i], m[i]); }
  }

  lemma XorCancels(x: bv8, y: bv8)
    ensures (x ^ y) ^ y == x
  {}

  function LE8(n: nat): (b: Octets)
    ensures |b| == 8
  {
    FromWire(ToLE(n, 8))
  }

  function Number(b: Octets): nat { FromLE(ToWire(b)) }

  lemma NumberOf(n: nat)
    requires n < U64
    ensures Number(LE8(n)) == n
  {
    WireNumbers(ToLE(n, 8));
    Widths();
    LERoundTrip(n, 8);
  }

  // ---- Nonces ----

  // The packet number folded into the first eight of twelve octets.
  function Nonce(base: Octets, pn: nat): (n: Octets)
    requires |base| == 12
    ensures |n| == 12
  {
    Xor(base[..8], LE8(pn)) + base[8..]
  }

  lemma Unmask(base: Octets, a: Octets)
    requires |base| == |a|
    ensures Xor(Xor(base, a), base) == a
  {
    forall i | 0 <= i < |a| ensures Xor(Xor(base, a), base)[i] == a[i] { MaskBack(base[i], a[i]); }
  }

  lemma MaskBack(x: bv8, y: bv8)
    ensures (x ^ y) ^ x == y
  {}

  lemma XorInjective(base: Octets, a: Octets, b: Octets)
    requires |base| == |a| == |b| && Xor(base, a) == Xor(base, b)
    ensures a == b
  {
    Unmask(base, a);
    Unmask(base, b);
  }

  // Distinct packet numbers have distinct nonces.
  lemma NoncesDistinct(base: Octets, a: nat, b: nat)
    requires |base| == 12 && a < U64 && b < U64 && a != b
    ensures Nonce(base, a) != Nonce(base, b)
  {
    if Nonce(base, a) == Nonce(base, b) {
      assert Nonce(base, a)[..8] == Xor(base[..8], LE8(a)) && Nonce(base, b)[..8] == Xor(base[..8], LE8(b));
      XorInjective(base[..8], LE8(a), LE8(b));
      NumberOf(a);
      NumberOf(b);
      assert false;
    }
  }

  // ---- Encoding ----

  datatype Keys = Keys(suite: Suite, base: Octets)
  {
    ghost predicate Valid() { suite.Lawful() && |base| == 12 }
  }

  predicate KnownType(t: bv8) { t <= 0x11 }

  function Header(t: bv8, session: nat, pn: nat): (h: Octets)
    ensures |h| == HEADER_LEN
  {
    [1, t, 0, 0, 0, 0, 0, 0] + LE8(session) + LE8(pn) + [0, 0, 0, 0, 0, 0, 0, 0]
  }

  ghost function Packet(k: Keys, t: bv8, session: nat, pn: nat, plain: Octets): (p: Octets)
    requires k.Valid()
    ensures |p| == HEADER_LEN + |plain| + TAG_LEN
  {
    var h := Header(t, session, pn);
    var body := k.suite.seal(Nonce(k.base, pn), h, plain);
    Xor(h, k.suite.mask(body[..16])) + body
  }

  // ---- Decoding ----

  datatype Failure = TooLarge | TooSmall | BadType(t: bv8) | Replay(v: Replay.Verdict) | Unauthentic

  datatype Decoded = Good(t: bv8, pn: nat, plain: Octets) | Bad(why: Failure)

  // The result, and the replay window afterwards.
  ghost function Decode(k: Keys, w: Replay.Window, buf: Octets): (Decoded, Replay.Window)
    requires k.Valid()
  {
    if |buf| > MAX_PACKET_LEN then (Bad(TooLarge), w)
    else if |buf| < HEADER_LEN + TAG_LEN then (Bad(TooSmall), w)
    else Opened(k, w, Xor(buf[..HEADER_LEN], k.suite.mask(buf[HEADER_LEN..HEADER_LEN + 16])), buf[HEADER_LEN..])
  }

  // With the header unmasked: type, replay check, authentication, commit.
  ghost function Opened(k: Keys, w: Replay.Window, h: Octets, body: Octets): (Decoded, Replay.Window)
    requires k.Valid() && |h| == HEADER_LEN
  {
    var t, pn := h[1], Number(h[16..24]);
    if !KnownType(t) then (Bad(BadType(t)), w)
    else if w.Judge(pn) != Replay.Accept then (Bad(Replay(w.Judge(pn))), w)
    else
      var plain := k.suite.open(Nonce(k.base, pn), h, body);
      if plain.None? then (Bad(Unauthentic), w) else (Good(t, pn, plain.value), w.Commit(pn))
  }

  // Version, type, session and packet number stand at octets 0, 1, 8 and 16; the others are zero.
  lemma HeaderFields(t: bv8, session: nat, pn: nat)
    requires session < U64 && pn < U64
    ensures var h := Header(t, session, pn);
      && h[0] == 1 && h[1] == t && Number(h[8..16]) == session && Number(h[16..24]) == pn
      && forall i | 2 <= i < 8 || 24 <= i < 32 :: h[i] == 0
  {
    assert Header(t, session, pn)[8..16] == LE8(session) && Header(t, session, pn)[16..24] == LE8(pn);
    NumberOf(session);
    NumberOf(pn);
  }

  lemma HeaderNumber(t: bv8, session: nat, pn: nat)
    requires pn < U64
    ensures Header(t, session, pn)[1] == t && Number(Header(t, session, pn)[16..24]) == pn
  {
    assert Header(t, session, pn)[16..24] == LE8(pn);
    NumberOf(pn);
  }

  // The nonce is the base with the packet number folded into its first eight octets.
  lemma NonceFields(base: Octets, pn: nat)
    requires |base| == 12 && pn < U64
    ensures Number(Xor(Nonce(base, pn)[..8], base[..8])) == pn && Nonce(base, pn)[8..] == base[8..]
  {
    assert Nonce(base, pn)[..8] == Xor(base[..8], LE8(pn));
    Unmask(base[..8], LE8(pn));
    NumberOf(pn);
  }

  // What is encoded decodes to itself, if it fits and its number is new.
  lemma DecodeEncode(k: Keys, w: Replay.Window, t: bv8, session: nat, pn: nat, plain: Octets)
    requires k.Valid() && KnownType(t) && pn < U64
    ensures var r := Decode(k, w, Packet(k, t, session, pn, plain));
      r == if HEADER_LEN + |plain| + TAG_LEN > MAX_PACKET_LEN then (Bad(TooLarge), w)
           else if w.Judge(pn) != Replay.Accept then (Bad(Replay(w.Judge(pn))), w)
           else (Good(t, pn, plain), w.Commit(pn))
  {
    var h := Header(t, session, pn);
    var body := k.suite.seal(Nonce(k.base, pn), h, plain);
    var p := Packet(k, t, session, pn, plain);
    assert p[..HEADER_LEN] == Xor(h, k.suite.mask(body[..16])) && p[HEADER_LEN..] == body;
    assert p[HEADER_LEN..HEADER_LEN + 16] == body[..16];
    XorTwice(h, k.suite.mask(body[..16]));
    HeaderNumber(t, session, pn);
  }

  // Only a packet that authenticates changes what is accepted later.
  lemma OnlyGoodCommits(k: Keys, w: Replay.Window, buf: Octets)
    requires k.Valid()
    ensures var (r, v) := Decode(k, w, buf);
      && (r.Bad? ==> v == w)
      && (r.Good? ==> w.Judge(r.pn) == Replay.Accept && v.accepted == w.accepted + {r.pn} && r.pn !in w.accepted)
  {}

  // ---- Runs ----

  // The window and the results after a run of arbitrary buffers.
  ghost function DecodeAll(k: Keys, bufs: seq<Octets>): (seq<Decoded>, Replay.Window)
    requires k.Valid()
  {
    if bufs == [] then ([], Replay.Window(0, {}))
    else
      var (rs, w) := DecodeAll(k, bufs[..|bufs| - 1]);
      var (r, v) := Decode(k, w, bufs[|bufs| - 1]);
      (rs + [r], v)
  }

  // The numbers of the packets that were returned are exactly the accepted ones, each once.
  ghost predicate Once(rs: seq<Decoded>, accepted: set<nat>) {
    && (forall i | 0 <= i < |rs| && rs[i].Good? :: rs[i].pn in accepted)
    && (forall i, j | 0 <= i < j < |rs| && rs[i].Good? && rs[j].Good? :: rs[i].pn != rs[j].pn)
    && (forall n | n in accepted :: exists i | 0 <= i < |rs| :: rs[i].Good? && rs[i].pn == n)
  }

  lemma OnceSnoc(rs: seq<Decoded>, a: set<nat>, r: Decoded)
    requires Once(rs, a) && (r.Good? ==> r.pn !in a)
    ensures Once(rs + [r], if r.Good? then a + {r.pn} else a)
  {
    var all, b := rs + [r], if r.Good? then a + {r.pn} else a;
    forall n | n in b ensures exists i | 0 <= i < |all| :: all[i].Good? && all[i].pn == n {
      if n in a {
        var i :| 0 <= i < |rs| && rs[i].Good? && rs[i].pn == n;
        assert all[i].Good? && all[i].pn == n;
      } else {
        assert all[|rs|].Good? && all[|rs|].pn == n;
      }
    }
  }

  // Whatever buffers arrive, no packet number is delivered twice.
  lemma {:induction false} DeliveredOnce(k: Keys, bufs: seq<Octets>)
    requires k.Valid()
    ensures |DecodeAll(k, bufs).0| == |bufs| && Once(DecodeAll(k, bufs).0, DecodeAll(k, bufs).1.accepted)
  {
    if bufs != [] {
      var front := bufs[..|bufs| - 1];
      DeliveredOnce(k, front);
      var (rs, w) := DecodeAll(k, front);
      OnlyGoodCommits(k, w, bufs[|bufs| - 1]);
      OnceSnoc(rs, w.accepted, Decode(k, w, bufs[|bufs| - 1]).0);
    }
  }

  // The buffers of a run that decoded, without the others.
  ghost function Authentic(k: Keys, bufs: seq<Octets>): seq<Octets>
    requires k.Valid()
  {
    if bufs == [] then []
    else
      var front, last := bufs[..|bufs| - 1], bufs[|bufs| - 1];
      Authentic(k, front) + (if Decode(k, DecodeAll(k, front).1, last).0.Good? then [last] else [])
  }

  function GoodOf(rs: seq<Decoded>): seq<Decoded> {
    if rs == [] then [] else GoodOf(rs[..|rs| - 1]) + (if rs[|rs| - 1].Good? then [rs[|rs| - 1]] else [])
  }

  lemma GoodSnoc(rs: seq<Decoded>, r: Decoded)
    ensures GoodOf(rs + [r]) == GoodOf(rs) + (if r.Good? then [r] else [])
  {
    assert (rs + [r])[..|rs|] == rs;
  }

  lemma DecodeSnoc(k: Keys, bufs: seq<Octets>, last: Octets)
    requires k.Valid()
    ensures var (rs, w) := DecodeAll(k, bufs);
      DecodeAll(k, bufs + [last]) == (rs + [Decode(k, w, last).0], Decode(k, w, last).1)
  {
    assert (bufs + [last])[..|bufs|] == bufs;
  }

  // Noise leaves no trace: without the buffers that failed, a run returns the same packets and ends with the same
  // replay window.
  lemma {:induction false} NoiseIsInert(k: Keys, bufs: seq<Octets>)
    requires k.Valid()
    ensures DecodeAll(k, Authentic(k, bufs)) == (GoodOf(DecodeAll(k, bufs).0), DecodeAll(k, bufs).1)
  {
    hide Decode;
    if bufs != [] {
      var front, last := bufs[..|bufs| - 1], bufs[|bufs| - 1];
      NoiseIsInert(k, front);
      var (rs, w) := DecodeAll(k, front);
      OnlyGoodCommits(k, w, last);
      var r := Decode(k, w, last).0;
      assert DecodeAll(k, bufs) == (rs + [r], Decode(k, w, last).1);
      GoodSnoc(rs, r);
      if r.Good? {
        DecodeSnoc(k, Authentic(k, front), last);
      } else {
        assert Authentic(k, bufs) == Authentic(k, front) && GoodOf(rs + [r]) == GoodOf(rs);
      }
    }
  }

  // ---- The encoder's counter ----

  // A call: the plaintext length and the room in the output buffer.
  datatype Call = Call(plainLen: nat, room: nat)
  {
    predicate Succeeds() { room >= HEADER_LEN + plainLen + TAG_LEN }
  }

  // The packet numbers used by a run of calls; a call without room takes none. The counter wraps at 2^64.
  function NumbersUsed(calls: seq<Call>): seq<nat> {
    if calls == [] then []
    else
      var before := NumbersUsed(calls[..|calls| - 1]);
      if calls[|calls| - 1].Succeeds() then before + [|before| % U64] else before
  }

  lemma {:induction false} NumbersCount(calls: seq<Call>)
    ensures |NumbersUsed(calls)| <= |calls|
    ensures |calls| < U64 ==> forall i | 0 <= i < |NumbersUsed(calls)| :: NumbersUsed(calls)[i] == i
  {
    if calls != [] {
      NumbersCount(calls[..|calls| - 1]);
      if |calls| < U64 { Small(|NumbersUsed(calls[..|calls| - 1])|); }
    }
  }

  lemma Small(n: nat)
    requires n < U64
    ensures n % U64 == n
  {}

  // In every run of fewer than 2^64 calls no nonce is used twice under one key.
  lemma NoncesNeverRepeat(base: Octets, calls: seq<Call>, i: nat, j: nat)
    requires |base| == 12 && |calls| < U64 && i < j < |NumbersUsed(calls)|
    ensures Nonce(base, NumbersUsed(calls)[i]) != Nonce(base, NumbersUsed(calls)[j])
  {
    NumbersCount(calls);
    NoncesDistinct(base, i, j);
  }

  // ---- The objects ----

  // XOR the mask into the header in place.
  method ApplyHeaderProtection(header: array<bv8>, mask: Octets)
    requires header.Length >= HEADER_LEN && |mask| == HEADER_LEN
    modifies header
    ensures header[..HEADER_LEN] == Xor(old(header[..HEADER_LEN]), mask)
    ensures header[HEADER_LEN..] == old(header[HEADER_LEN..])
  {
    for i := 0 to HEADER_LEN
      invariant forall j | 0 <= j < i :: header[j] == old(header[j]) ^ mask[j]
      invariant forall j | i <= j < header.Length :: header[j] == old(header[j])
    {
      header[i] := header[i] ^ mask[i];
    }
  }

  // Fold the packet number into the nonce base.
  method BuildNonce(base: Octets, pn: nat) returns (nonce: Octets)
    requires |base| == 12
    ensures nonce == Nonce(base, pn)
  {
    nonce := base;
    var b := LE8(pn);
    for i := 0 to 8
      invariant |nonce| == 12 && nonce[i..] == base[i..] && forall j | 0 <= j < i :: nonce[j] == base[j] ^ b[j]
    {
      nonce := nonce[i := nonce[i] ^ b[i]];
    }
    assert nonce[..8] == Xor(base[..8], b);
  }

  // Copy octets into the buffer at an offset.
  method CopyInto(out: array<bv8>, at: nat, data: Octets)
    requires at + |data| <= out.Length
    modifies out
    ensures out[..] == old(out[..at]) + data + old(out[at + |data|..])
  {
    for i := 0 to |data|
      invariant forall j | 0 <= j < i :: out[at + j] == data[j]
      invariant forall j | 0 <= j < out.Length && !(at <= j < at + i) :: out[j] == old(out[j])
    {
      out[at + i] := data[i];
    }
  }

  lemma Front(before: Octets, h: Octets, body: Octets, now: Octets)
    requires |h + body| <= |before| && now == before[..0] + (h + body) + before[|h + body|..]
    ensures now[..|h|] == h && now[|h|..][..|body|] == body
  {}

  lemma Rest(s: Octets, i: nat, n: nat)
    requires i <= n <= |s|
    ensures s[..n] == s[..i] + s[i..][..n - i]
  {}

  class PacketEncoder {
    const keys: Keys
    const session: nat
    var next: nat

    constructor (k: Keys, id: nat)
      ensures keys == k && session == id && next == 0
    {
      keys, session, next := k, id, 0;
    }

    // None: the buffer is too small, and no number is spent.
    method Encode(t: bv8, plain: Octets, out: array<bv8>) returns (n: Option<nat>)
      requires keys.Valid()
      modifies this, out
      ensures n.None? <==> out.Length < HEADER_LEN + |plain| + TAG_LEN
      ensures n.None? ==> next == old(next) && out[..] == old(out[..])
      ensures n.Some? ==> n.value == HEADER_LEN + |plain| + TAG_LEN && next == (old(next) + 1) % U64
      ensures n.Some? ==> out[..n.value] == Packet(keys, t, session, old(next), plain)
    {
      var needed := HEADER_LEN + |plain| + TAG_LEN;
      if out.Length < needed {
        return None;
      }
      var pn := next;
      next := (next + 1) % U64;
      var h := Header(t, session, pn);
      var nonce := BuildNonce(keys.base, pn);
      var body := keys.suite.seal(nonce, h, plain);
      ghost var before := out[..];
      CopyInto(out, 0, h + body);
      Front(before, h, body, out[..]);
      ApplyHeaderProtection(out, keys.suite.mask(body[..16]));
      Rest(out[..], HEADER_LEN, needed);
      return Some(needed);
    }
  }

  class PacketDecoder {
    const keys: Keys
    var replay: Replay.ReplayWindow

    constructor (k: Keys)
      ensures keys == k && fresh(replay) && fresh(replay.bitmap) && replay.Valid()
      ensures replay.View() == Replay.Window(0, {})
    {
      keys := k;
      replay := new Replay.ReplayWindow();
    }

    // Check, authenticate, and only then commit the number; the plaintext replaces the ciphertext in place.
    method DecodePacket(buf: array<bv8>) returns (r: Decoded)
      requires keys.Valid() && replay.Valid()
      modifies buf, replay, replay.bitmap
      ensures replay == old(replay) && replay.Valid() && (replay.bitmap == old(replay.bitmap) || fresh(replay.bitmap))
      ensures (r, replay.View()) == Decode(keys, old(replay.View()), old(buf[..]))
      ensures r.Good? ==> HEADER_LEN + |r.plain| <= buf.Length && buf[HEADER_LEN..HEADER_LEN + |r.plain|] == r.plain
    {
      if buf.Length > MAX_PACKET_LEN {
        return Bad(TooLarge);
      }
      if buf.Length < HEADER_LEN + TAG_LEN {
        return Bad(TooSmall);
      }
      ghost var was := buf[..];
      var sample := buf[HEADER_LEN..HEADER_LEN + 16];
      ApplyHeaderProtection(buf, keys.suite.mask(sample));
      var h, body := buf[..HEADER_LEN], buf[HEADER_LEN..];
      assert was[..HEADER_LEN] == old(buf[..HEADER_LEN]) && was[HEADER_LEN..] == body;
      assert was[HEADER_LEN..HEADER_LEN + 16] == sample;
      assert Decode(keys, old(replay.View()), was) == Opened(keys, old(replay.View()), h, body);
      r := OpenBody(h, body);
      if r.Good? {
        CopyInto(buf, HEADER_LEN, r.plain);
      }
    }

    method OpenBody(h: Octets, body: Octets) returns (r: Decoded)
      requires keys.Valid() && replay.Valid() && |h| == HEADER_LEN
      modifies replay, replay.bitmap
      ensures replay.Valid() && (replay.bitmap == old(replay.bitmap) || fresh(replay.bitmap))
      ensures (r, replay.View()) == Opened(keys, old(replay.View()), h, body)
      ensures r.Good? ==> |r.plain| <= |body|
    {
      var t, pn := h[1], Number(h[16..24]);
      if !KnownType(t) {
        return Bad(BadType(t));
      }
      var v := replay.Check(pn);
      if v != Replay.Accept {
        return Bad(Replay(v));
      }
      var nonce := BuildNonce(keys.base, pn);
      var plain := keys.suite.open(nonce, h, body);
      if plain.None? {
        return Bad(Unauthentic);
      }
      v := replay.Commit(pn);
      return Good(t, pn, plain.value);
    }
  }
}
