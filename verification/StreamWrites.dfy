// The send side of one stream over whole histories.
module StreamWrites {
  import opened Options
  import opened Bytes
  import opened Stream

  datatype Event = Put(data: seq<byte>) | Poll(maxBytes: nat) | Close

  // ---- What the caller may expect, from the history alone ----

  predicate Closed(events: seq<Event>) { Close in events }

  // The bytes accepted so far: a write is taken whole unless the stream was closed or the window would overflow.
  function Accepted(events: seq<Event>): (w: seq<byte>)
    ensures |w| <= DEFAULT_WINDOW
  {
    if events == [] then []
    else
      var front, last := events[..|events| - 1], events[|events| - 1];
      var w := Accepted(front);
      if last.Put? && !Closed(front) && |w| + |last.data| <= DEFAULT_WINDOW then w + last.data else w
  }

  // The answer to a write of d bytes after w.
  function Answer(closed: bool, w: seq<byte>, d: seq<byte>): Outcome<nat>
    requires |w| <= DEFAULT_WINDOW
  {
    if closed then Err(StreamFinished)
    else if |w| + |d| > DEFAULT_WINDOW then Err(FlowControlBlocked(DEFAULT_WINDOW - |w|, |d|))
    else Ok(|w|)
  }

  // ---- The stream ----

  // The guard is what polling asks of the stream; it always holds, see Tracks.
  function Next(s: StreamState, e: Event): StreamState {
    match e
    case Put(data) => s.Write(data).0
    case Poll(maxBytes) => if s.Unsent() >= 0 then s.PollSend(maxBytes).0 else s
    case Close => s.Finish()
  }

  function After(events: seq<Event>): StreamState {
    if events == [] then New() else Next(After(events[..|events| - 1]), events[|events| - 1])
  }

  ghost predicate Tracks(s: StreamState, w: seq<byte>, closed: bool) {
    Sending(s, w) && s.sendMax == DEFAULT_WINDOW && s.finSent == closed
  }

  lemma Step(s: StreamState, w: seq<byte>, closed: bool, e: Event)
    requires Tracks(s, w, closed)
    ensures match e
      case Put(d) => Tracks(Next(s, e), if !closed && |w| + |d| <= DEFAULT_WINDOW then w + d else w, closed)
      case Poll(_) => Tracks(Next(s, e), w, closed)
      case Close => Tracks(Next(s, e), w, true)
  {
    match e {
      case Put(d) => if s.Write(d).1.Ok? { WriteSending(s, w, d); }
      case Poll(m) => PollTracks(s, w, m);
      case Close =>
    }
  }

  lemma PollTracks(s: StreamState, w: seq<byte>, m: nat)
    requires Sending(s, w)
    ensures Sending(s.PollSend(m).0, w)
  {
    var n := Min(|s.sendBuf|, m);
    assert w[|w| - |s.sendBuf|..][n..] == w[|w| - |s.sendBuf| + n..];
  }

  lemma NewTracks()
    ensures Tracks(New(), [], false)
  {}

  lemma {:induction false} AfterTracks(events: seq<Event>)
    ensures Tracks(After(events), Accepted(events), Closed(events))
  {
    hide Tracks, Next;
    if events == [] {
      NewTracks();
    } else {
      var front, last := events[..|events| - 1], events[|events| - 1];
      AfterTracks(front);
      Step(After(front), Accepted(front), Closed(front), last);
      assert events == front + [last];
    }
  }

  // After any history of writes, polls and closes, a write is accepted exactly when the stream was not closed and
  // the window holds everything accepted before and this. It is then placed right after that, and otherwise nothing
  // changes. The bytes still to be sent are the end of what was accepted, whatever was polled.
  lemma WriteExactly(events: seq<Event>, d: seq<byte>)
    ensures var s, w := After(events), Accepted(events);
      && s.Write(d).1 == Answer(Closed(events), w, d)
      && (s.Write(d).1.Err? ==> s.Write(d).0 == s)
      && s.Unsent() == |w| - |s.sendBuf| >= 0 && s.sendBuf == w[s.Unsent()..]
  {
    hide After, Accepted, Closed;
    AfterTracks(events);
  }

  // ---- The receive limit, for segments of any origin ----

  // Everything buffered lies within the limit.
  ghost predicate Within(s: StreamState) { forall g | g in s.recvBuf :: End(g) <= s.recvMax }

  lemma {:induction false} InsertMembers(buf: seq<Seg>, g: Seg)
    ensures forall x | x in InsertSeg(buf, g) :: x in buf || x == g
  {
    if buf != [] && g.0 > buf[0].0 { InsertMembers(buf[1..], g); }
  }

  // Whatever arrives, a segment is refused exactly when it brings new data from beyond the limit, and then the buffer
  // is as before; the buffer never exceeds the limit.
  lemma ReceiveExactly(s: StreamState, g: Seg, fin: bool)
    requires Within(s)
    ensures var (t, o) := s.Receive(g, fin);
      && (o.Ok? <==> End(g) <= s.recvMax || g.1 == [] || End(g) <= s.recvOffset)
      && (o.Err? ==> t.recvBuf == s.recvBuf) && Within(t)
      && t.finReceived == (if fin then Some(End(g)) else s.finReceived)
  {
    InsertMembers(s.recvBuf, g);
  }
}
