// The frames as bytes: data frames, grants, and every packet of every run.
module Wire {
  import opened Options
  import opened Bytes
  import opened Session
  import opened TwoParty
  import opened Runs
  import Ack = AckRanges
  import PacketCodec

  // ---- Data frames: type, flags, length, stream id, offset, data ----

  function EncodeData(f: DataFrame): (b: seq<byte>)
    ensures |b| == 16 + |f.data|
  {
    [0x01, if f.fin then 0x01 else 0] + ToLE(|f.data| % U16, 2) + ToLE(f.sid, 4) + ToLE(f.offset, 8) + f.data
  }

  // The length field decides how much is data; whatever follows is ignored.
  function ParseData(b: seq<byte>): Option<DataFrame> {
    if |b| < 16 then None
    else
      var len := FromLE(b[2..4]);
      if |b| < 16 + len then None
      else Some(DataFrame(FromLE(b[4..8]), FromLE(b[8..16]), b[16..16 + len], b[1] % 2 == 1))
  }

  // The fields fit their widths.
  predicate Fits(f: DataFrame) { f.sid < U32 && f.offset < U64 && |f.data| < U16 }

  lemma LE(n: nat, len: nat)
    requires (len == 2 && n < U16) || (len == 4 && n < U32) || (len == 8 && n < U64)
    ensures FromLE(ToLE(n, len)) == n
  {
    Widths();
    LERoundTrip(n, len);
  }

  // The slices of a frame with 2-, 2-, 4- and 8-byte fields.
  lemma Slices(h: seq<byte>, a: seq<byte>, b: seq<byte>, c: seq<byte>, rest: seq<byte>)
    requires |h| == |a| == 2 && |b| == 4 && |c| == 8
    ensures var f := h + a + b + c + rest;
      f[1] == h[1] && f[2..4] == a && f[4..8] == b && f[8..16] == c && f[16..] == rest
  {}

  // A frame whose fields fit is read back, whatever bytes follow it.
  lemma DataRoundTrip(f: DataFrame, padding: seq<byte>)
    requires Fits(f)
    ensures ParseData(EncodeData(f) + padding) == Some(f)
  {
    var h, a, b, c := [0x01, if f.fin then 0x01 else 0], ToLE(|f.data| % U16, 2), ToLE(f.sid, 4), ToLE(f.offset, 8);
    FieldValues(f);
    Join(h + a + b + c, f.data, padding);
    FieldsRoundTrip(h, a, b, c, f, f.data + padding);
  }

  lemma FieldValues(f: DataFrame)
    requires Fits(f)
    ensures FromLE(ToLE(|f.data| % U16, 2)) == |f.data| && FromLE(ToLE(f.sid, 4)) == f.sid
    ensures FromLE(ToLE(f.offset, 8)) == f.offset
  {
    Ack.FitsU16(|f.data|);
    LE(|f.data| % U16, 2);
    LE(f.sid, 4);
    LE(f.offset, 8);
  }

  lemma FieldsRoundTrip(h: seq<byte>, a: seq<byte>, b: seq<byte>, c: seq<byte>, f: DataFrame, rest: seq<byte>)
    requires |h| == |a| == 2 && |b| == 4 && |c| == 8 && h[1] == (if f.fin then 1 else 0)
    requires FromLE(a) == |f.data| && FromLE(b) == f.sid && FromLE(c) == f.offset && f.data <= rest
    ensures ParseData(h + a + b + c + rest) == Some(f)
  {
    hide FromLE;
    Slices(h, a, b, c, rest);
    var bytes := h + a + b + c + rest;
    assert bytes[16..16 + |f.data|] == bytes[16..][..|f.data|] == f.data;
  }

  lemma Join(head: seq<byte>, data: seq<byte>, padding: seq<byte>)
    ensures head + data + padding == head + (data + padding)
    ensures data <= data + padding
  {}

  // What is read has fields of the right widths, so no other frame is read back.
  lemma ParsedFits(b: seq<byte>)
    ensures ParseData(b).Some? ==> Fits(ParseData(b).value)
  {
    Widths();
    if |b| >= 16 {
      LEBound(b[2..4]);
      LEBound(b[4..8]);
      LEBound(b[8..16]);
    }
  }

  lemma DataRoundTripIff(f: DataFrame)
    ensures ParseData(EncodeData(f)) == Some(f) <==> Fits(f)
  {
    ParsedFits(EncodeData(f));
    if Fits(f) {
      DataRoundTrip(f, []);
      assert EncodeData(f) + [] == EncodeData(f);
    }
  }

  // ---- Grants: eight bytes, big endian ----

  function EncodeGrant(limit: nat): seq<byte> { ToBE(limit, 8) }

  function ParseGrant(b: seq<byte>): Option<nat> { if |b| < 8 then None else Some(FromBE(b[..8])) }

  lemma {:induction false} BEBound(b: seq<byte>)
    ensures FromBE(b) < Pow256(|b|)
  {
    if |b| > 0 { BEBound(b[..|b| - 1]); }
  }

  lemma GrantRoundTripIff(limit: nat)
    ensures ParseGrant(EncodeGrant(limit)) == Some(limit) <==> limit < U64
    ensures limit < U64 ==> FromBE(EncodeGrant(limit)) == limit
  {
    Widths();
    assert EncodeGrant(limit)[..8] == ToBE(limit, 8);
    BEBound(ToBE(limit, 8));
    if limit < U64 { BERoundTrip(limit, 8); }
  }

  // ---- Every packet a session ever numbers survives the wire ----

  // Segments of at most one packet; acknowledgements that list runs.
  ghost predicate Encodable(p: Packet) {
    && (p.Data? ==> |p.frame.data| <= SEGMENT)
    && (p.Ack? ==> p.ranges != [] && Ack.Separated(p.ranges) && p.ranges[0].1 < U64 && |p.ranges| - 1 < U16)
  }

  ghost predicate AllEncodable(log: seq<Packet>) { forall i | 0 <= i < |log| :: Encodable(log[i]) }

  lemma AckEncodable(a: Ack.AckState)
    requires a.Valid() && a.pending
    ensures Encodable(Packet.Ack(Ack.Runs(a.received)))
  {
    Ack.RunsFrame(a.received);
    Ack.RunsFewer(a.received);
  }

  lemma ActEncodable(me: Party, peer: Party, a: Action, now: nat)
    requires Ready(me, peer) && AllEncodable(me.log)
    ensures AllEncodable(Act(me, peer, a, now).log)
  {
    if a.FlushAck? && me.s.ack.pending { AckEncodable(me.s.ack); }
  }

  lemma MoveEncodable(w: World, v: World, t: Step, client: bool)
    requires Moves(w, v, t) && AllEncodable(Of(w, client).log)
    ensures AllEncodable(Of(v, client).log)
  {
    if t.byClient == client && Ready(Of(w, client), Of(w, !client)) {
      ActEncodable(Of(w, client), Of(w, !client), t.action, t.now);
    }
  }

  ghost function EncodableWorld(client: bool): World -> bool { (w: World) => AllEncodable(Of(w, client).log) }

  lemma RunEncodable(r: Trace, c: nat, s: nat, n: nat, client: bool)
    requires IsRun(r, c, s) && n < |r.worlds|
    ensures AllEncodable(Of(r.worlds[n], client).log)
  {
    forall i | 0 <= i < |r.worlds| - 1
      ensures EncodableWorld(client)(r.worlds[i]) ==> EncodableWorld(client)(r.worlds[i + 1])
    {
      if EncodableWorld(client)(r.worlds[i]) {
        StepOf(r, c, s, i);
        MoveEncodable(r.worlds[i], r.worlds[i + 1], r.steps[i], client);
      }
    }
    Along(EncodableWorld(client), r.worlds, n);
  }

  lemma FrameFits(me: Party, pn: nat)
    requires Good(me) && pn < |me.log| && me.log[pn].Data? && |me.log[pn].frame.data| <= SEGMENT
    ensures Fits(me.log[pn].frame)
  {
    var f := me.log[pn].frame;
    assert FrameOk(f, me.s.streams, me.written);
    assert StreamSends(me.s.streams[f.sid], At(me.written, f.sid));
  }

  // In every run, every data frame and every acknowledgement reads back as it was built.
  lemma RunRoundTrips(r: Trace, c: nat, s: nat, n: nat, client: bool, pn: nat, delay: nat, padding: seq<byte>)
    requires IsRun(r, c, s) && n < |r.worlds| && pn < |Of(r.worlds[n], client).log| && delay < U64
    ensures var p := Of(r.worlds[n], client).log[pn];
      && (p.Data? ==> ParseData(EncodeData(p.frame) + padding) == Some(p.frame))
      && (p.Ack? ==>
            && Encodable(p)
            && Ack.ParseFrame(Ack.EncodeFrame(delay, p.ranges)) == Some((p.ranges[0].1, delay, p.ranges)))
  {
    RunInv(r, c, s, n);
    RunEncodable(r, c, s, n, client);
    PacketRoundTrips(Of(r.worlds[n], client), pn, delay, padding);
  }

  lemma PacketRoundTrips(me: Party, pn: nat, delay: nat, padding: seq<byte>)
    requires Good(me) && AllEncodable(me.log) && pn < |me.log| && delay < U64
    ensures var p := me.log[pn];
      && (p.Data? ==> ParseData(EncodeData(p.frame) + padding) == Some(p.frame))
      && (p.Ack? ==>
            && Encodable(p)
            && Ack.ParseFrame(Ack.EncodeFrame(delay, p.ranges)) == Some((p.ranges[0].1, delay, p.ranges)))
  {
    var p := me.log[pn];
    assert Encodable(p);
    if p.Data? {
      FrameFits(me, pn);
      DataRoundTrip(p.frame, padding);
    } else if p.Ack? {
      Ack.FrameRoundTrip(delay, p.ranges);
    }
  }

  // ---- Any bytes ----

  // The bytes say this frame: final mark, length, stream id and offset stand at bytes 1, 2, 4 and 8, then the data.
  ghost predicate SaysData(b: seq<byte>, f: DataFrame) {
    && |b| >= 16 + |f.data| && FromLE(b[2..4]) == |f.data| && FromLE(b[4..8]) == f.sid && FromLE(b[8..16]) == f.offset
    && b[16..16 + |f.data|] == f.data && (f.fin <==> b[1] % 2 == 1)
  }

  // Any bytes are read as a frame exactly when they say it. A frame says itself, under the type of a data frame, and
  // its packet is as long as the tracker counts it.
  lemma DataExactly(b: seq<byte>, f: DataFrame)
    ensures ParseData(b) == Some(f) <==> SaysData(b, f)
    ensures Fits(f) ==> SaysData(EncodeData(f), f) && EncodeData(f)[0] == 0x01
    ensures Data(f).WireSize() == PacketCodec.HEADER_LEN + |EncodeData(f)| + PacketCodec.TAG_LEN
  {
    if Fits(f) {
      DataRoundTripIff(f);
      SaysItself(f);
    }
  }

  lemma SaysItself(f: DataFrame)
    requires ParseData(EncodeData(f)) == Some(f)
    ensures SaysData(EncodeData(f), f)
  {}
}
