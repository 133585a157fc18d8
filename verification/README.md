# Seam: a verified model

Seam is a QUIC-like transport. This project models the deterministic state code at its core and proves what that
code is for. Time reads become arguments, cryptographic primitives become functions constrained only by their laws,
and nothing of the original is executed here: every claim below is a theorem about the model.

`dafny verify dfyconfig.toml` checks the whole project.

## What is modelled

**Forward error correction** (`Field`, `GaloisField`, `LinearAlgebra`, `Vectors`, `Elimination`, `LinearSystems`,
`Ragged`, `Cauchy`, `GaussInPlace`, `FecCode`, `FecDecoder`, `FecCodec`, `FecLengths`, `FecPartial`). The GF(2^8)
log/antilog tables are built by the loop of the source and proved to be those of a field whose multiplication is
polynomial multiplication modulo 0x11d. Gauss-Jordan elimination is proved to keep the solution set of the augmented
system, generically over any field, and `Ragged` follows it on right-hand sides of different lengths, where it can
index past the end of a row. A Cauchy matrix has a trivial kernel by induction on its size, each step being one Schur
complement. Together these give the headline `FecDecoder.AnyKSymbolsRecover`, which says of every run of arrivals
exactly when any k of the k + r symbols rebuild the group and when the decoder fails. `FecPartial` carries it over to
groups flushed before they were full.

**The reliable session as a two-party system** (`Replay`, `AckRanges`, `AckFrames`, `Arq`, `ArqRuns`, `Stream`,
`StreamRuns`, `StreamWrites`, `Session`, `FlowControl`, `TwoParty`, `Runs`, `Delivery`, `Effects`, `Answers`, `Duties`,
`Endings`, `StreamTable`, `Flush`, `Endpoint`, `Wire`). Two sessions and a network that drops, duplicates and reorders.
A step is one action of one party: open, write, finish, flush one packet of any kind, receive any packet the other side
ever numbered, read, retransmit, drain congestion feedback. `TwoParty.Inv` ties the sender's state, every packet it ever
numbered and the receiver's state together; `TwoParty.ActStep` keeps it for every action, and `Runs` reads the
guarantees off it for every world of every run. `Delivery` follows every data packet through a run: it is held by its
receiver exactly when the stream cap let it in and no read stopped inside it, and then everything written is read.

The other run modules say of each piece of state exactly which history it stands for. `Answers`: a packet is in flight
exactly until an accepted ACK covers it, and is resent exactly when its timeout has passed since it was last on the
wire. `Duties`: an ACK is pending exactly when one is owed, it lists exactly what the window retains, no request for one
is forgotten, and both limits are exactly the largest grant. `Endings`: what every write answers, and a stream is
finished exactly when its mark arrived and all of it was read. `StreamTable`: which streams a session knows and when it
opens another. `ArqRuns` and `StreamWrites` do the same for one retransmission tracker and one stream.
`Endpoint.SessionObject` is the session as an object with the loops of the source, composed of the verified stream,
tracker, credit and replay-window objects; its methods refine the session functions, and `Flush` shows what a whole
flush sends and that it is a sequence of steps.

**Packet protection** (`PacketCodec`): header masking, nonces, and the order check, authenticate, commit.

**Self-contained algorithms**: the closed-form calendar against the year and month loops and the text order of
timestamps (`Calendar`, `Timestamps`, `StampReading`), RACK loss detection (`Rack`), the monotone-deque maximum
(`MaxFilter`), the per-address token bucket (`RateLimit`, `RateLaw`), the round-robin scheduler (`RoundRobin`), and
trust-on-first-use pinning by interleaved processes with its file format (`Pinning`, `KnownHosts`, `KnownLines`).
`Bytes`, `Words`, `Division` and `Options` are shared helpers.

## Where code and documentation differ

- The comment on `cauchy` asks for k + r <= 128. The code meets no zero denominator exactly when r = 0 or
  k + r <= 256 (`FecCode.DenominatorsNonZero`), and the model follows the code.
- The decoder pads a symbol only to the length known when it arrives, so rows of different lengths can meet in the
  elimination, which then indexes past the end of the shorter one (`FecLengths.ShortSourceCrashes`). A run of honest
  symbols recovers if and only if every source received arrived at or after a symbol of full length, or none is missing
  (`FecDecoder.AnyKSymbolsRecover`).
- A flushed group of a < k sources sends envelopes with k and repair symbols with a. The first arrival decides which
  count the decoder uses (`FecPartial.FlushedRuns`).
- A read whose budget ends inside a segment drops the rest of that segment (`Stream.ReadLoses`). A read loses nothing
  if and only if it lands on a segment boundary or covers the contiguous data (`Stream.ReadKeepsAll`).
- A frame refused by the stream cap is recorded as received, so it is never let in again and its stream never opens
  (`Delivery.RefusedForever`).
- An RTT estimate of zero counts as no estimate, so the next sample starts it anew. It falls to zero exactly from one
  microsecond with a sample below eight (`ArqRuns.FallsToZero`, `ArqRuns.ZeroRestarts`); the estimates are the weighted
  mean and deviation of the samples since then (`ArqRuns.EstimatesAreMeans`).
- A gap field of 2^64 - 1 wraps to zero when an ACK frame is read, and its range then touches the one before it
  (`AckFrames.ParsedDescends`).
- The ACK frame of an empty tracker reads back as acknowledging packet 0 (`AckRanges.EmptyFrameAcksZero`). It is never
  sent, because a pending acknowledgement implies a received packet.
- Timestamps sort by time exactly up to the end of the year 9999 (`Timestamps.StampOrderBound`); the last second of
  9999 and the first of 10000 sort the wrong way round (`Timestamps.FiveDigitYears`).
- When the pin file cannot be locked the code runs unlocked, and two first connections can then both be accepted with
  different keys (`Pinning.UnlockedSplits`). A new pin that cannot be saved is accepted all the same and binds nobody
  (`Pinning.UnsavedBindsNothing`). A pin that was saved binds later processes if and only if the file format can carry
  its host and fingerprint; otherwise another fingerprint is accepted next (`Pinning.PinSurvives`,
  `Pinning.UnplainForgotten`). A file that cannot be read counts as empty: a pinned host is then accepted with any
  fingerprint (`Pinning.UnreadSplits`), and the save leaves that pin alone in the file (`Pinning.UnreadOverwrites`).
- The compact timestamp casts the day count to 32 bits. It shows the same instant as the long one exactly until that
  count outgrows them (`Timestamps.SameInstant`).
- `Session::send` reserves credit before it looks up the stream, so consumed credit bounds the bytes written from above.

## Model

| member | source | states |
|---|---|---|
| GaloisField.OrderIs255 | src/fec/gf.rs:4-24 | the element x generates all 255 non-zero bytes modulo 0x11d: its powers first return to 1 at exponent 255 |
| GaloisField.BuildTables | src/fec/gf.rs:6-24 | the table loop fills antilog (twice over) and log so that they are mutually inverse on the powers of x |
| GaloisField.TablesCorrect | src/fec/gf.rs:6-24 | the filled tables hold every power of x, twice over, and the logarithm of every non-zero byte |
| GaloisField.Tables.Multiply | src/fec/gf.rs:35-42 | looking up the sum of the logarithms gives the field product, zero included |
| GaloisField.Tables.Divide | src/fec/gf.rs:44-52 | the looked-up quotient times the divisor is the dividend |
| GaloisField.Tables.Invert | src/fec/gf.rs:54-67 | None exactly for zero, otherwise the field inverse |
| GaloisField.FieldLaws | src/fec/gf.rs:30-67 | xor and table multiplication form a field: all ring laws, commutativity, inverses |
| GaloisField.MulIsPolynomial | src/fec/gf.rs:30-43 | the product by logarithms is the polynomial product modulo 0x11d: one shifted and reduced copy of b for each bit of a |
| GaloisField.MulByX | src/fec/gf.rs:6-24 | multiplication by x is the shift-register step of the table loop |
| GaloisField.DivideLaw | src/fec/gf.rs:44-52 | a / b times b is a for every non-zero b |
| Vectors.MulAddSlice | src/fec/gf.rs:73-158 | the unrolled loop with its zero, one and general cases adds scalar times src to dst in every position |
| GaussInPlace.InvertMatrix | src/fec/gf.rs:161-205 | succeeds exactly when elimination of [M, I] does, and leaves the right-hand block |
| GaussInPlace.InverseOnTheLeft | src/fec/gf.rs:161-205 | on success the result M' satisfies M' * M = I |
| GaussInPlace.InverseOnTheRight | src/fec/gf.rs:161-205 | on success M * M' = I as well |
| Elimination.GaussAnnihilates | src/fec/codec.rs:293-327 | every swap, scaling and elimination keeps exactly the vectors annihilated by the rows |
| Elimination.GaussIdentity | src/fec/codec.rs:293-327 | on success the left columns are the identity matrix |
| Elimination.GaussSingular | src/fec/codec.rs:293-327 | on failure the rows annihilate a non-zero vector of the left columns |
| LinearSystems.SolveUnique | src/fec/codec.rs:293-327 | on success the right-hand block is the one and only solution of A * X = B |
| LinearSystems.SolveFailsIffSingular | src/fec/codec.rs:293-327 | elimination fails exactly when the matrix has a non-zero kernel vector |
| GaussInPlace.PivotRound | src/fec/codec.rs:293-325 | one round of the in-place loop is one step of elimination on rows of any lengths: done, no pivot, or an index past the end of a row |
| GaussInPlace.GaussRhs | src/fec/codec.rs:293-327 | in place on both arrays, for right-hand rows of any lengths, the loop computes the elimination or reports exactly how it fails |
| Ragged.EliminateEven | src/fec/codec.rs:293-327 | rows of one length are never overrun, and elimination is that of the augmented matrix |
| Ragged.ShortOverruns | src/fec/codec.rs:293-327 | a unit row with a short right-hand side, whose column a full row reaches, always ends in an index past its end |
| FecCode.DenominatorsNonZero | src/fec/codec.rs:18-32 | no zero denominator is met exactly when r = 0 or k + r <= 256 |
| Cauchy.CauchyKernel | src/fec/codec.rs:18-32 | a Cauchy matrix over any field, with distinct points, annihilates only the zero vector |
| Cauchy.DecodeKernel | src/fec/codec.rs:222-275 | any k rows of the identity stacked on the Cauchy rows are independent |
| FecCodec.BuildSystem | src/fec/codec.rs:230-272 | gathers unit and Cauchy rows with their symbols in column order, refusing exactly the degenerate groups |
| FecCodec.TryRecover | src/fec/codec.rs:203-289 | early exits, choice of repairs, elimination and read-off compute the recovery specification, the crash included |
| FecDecoder.DecideHonest | src/fec/codec.rs:203-228 | for an honest group the byte-wide counters decide: wait below k symbols, complete with all sources, else reconstruct |
| FecDecoder.HonestRecovery | src/fec/codec.rs:203-289 | from honest symbols: nothing below k, then exactly the missing sources with their original bytes if every stored source has full length or none is missing, else a crash; never a singular matrix |
| FecDecoder.AnyKSymbolsRecover | src/fec/codec.rs:341-386 | in every run of honest arrivals, any lengths, order and repetition: nothing before the k-th distinct symbol, at it exactly the missing sources if every source arrived at or after a symbol of full length (or none is missing) and a crash otherwise, nothing once returned |
| FecDecoder.FullFirstRecovers | src/fec/codec.rs:341-386 | with a first symbol of full length no order crashes: the missing sources at the k-th distinct symbol, silence before and after |
| FecDecoder.StoredLenIs | src/fec/codec.rs:354-357 | a source is stored at full length exactly when it arrived at or after a symbol of full length |
| FecLengths.EvenStep | src/fec/codec.rs:354-383 | storing a symbol keeps all rows at one length exactly when it is no longer than they are or replaces the only one |
| FecLengths.EvenThroughout | src/fec/codec.rs:341-386 | in every run of arrivals all rows have one length throughout exactly when no arrival is longer than everything before it, unless only that symbol has arrived before |
| FecLengths.ShortSourceCrashes | src/fec/codec.rs:203-327 | payloads of lengths one and two, the short source and then the repair: two of two symbols, rows of lengths one and two, reconstruction, crash |
| FecPartial.WidenedRepair | src/fec/codec.rs:137-177 | a repair symbol of the flushed sources is the one of the same sources with empty ones up to k |
| FecPartial.FlushedRuns | src/fec/codec.rs:137-143 | every run of a flushed group returns what a group of the first arrival's k returns: the sources that were sent, or those and rows of zeros |
| FecPartial.RepairFirst | src/fec/codec.rs:362-386 | after a repair symbol any a distinct symbols rebuild a flushed group of a sources |
| FecPartial.SourceFirstStarves | src/fec/codec.rs:341-359 | after a source nothing is returned before the k-th distinct symbol, which need not exist |
| FecCodec.Decoder.Add | src/fec/codec.rs:341-386 | one arrival of any length: the symbol is stored, the recovery of that group is returned or crashes, every other group is untouched |
| FecCodec.EncodeSymbol | src/fec/codec.rs:151-164 | the accumulation loop computes the Cauchy combination of the padded sources |
| FecCodec.Encoder.PushSource | src/fec/codec.rs:110-134 | the k-th source yields the r repair symbols of the padded group and starts the next group |
| FecCodec.Encoder.Flush | src/fec/codec.rs:137-143 | a partial group yields the repair symbols of the sources so far, an empty one nothing |
| FecCodec.EncoderFeedsDecoder | src/fec/codec.rs:145-177 | every repair the encoder emits for a full group is a symbol of that group to the decoder, and fits the wire |
| FecCodec.RepairRoundTrip | src/fec/codec.rs:53-84 | a repair symbol survives its wire format exactly when its length field equals its data length |
| Replay.ReplayWindow.Check | src/crypto/replay.rs:29-47 | the bitmap query judges like the set of accepted numbers |
| Replay.ReplayWindow.Slide | src/crypto/replay.rs:60-84 | shifting the 16 words keeps bit i set exactly when base + i was accepted |
| Replay.ReplayWindow.Commit | src/crypto/replay.rs:52-95 | commit succeeds exactly when check does, adds the number, and keeps the bitmap and base in step with the set |
| Replay.AfterAnchored | src/crypto/replay.rs:52-95 | after any run the base is the largest accepted number minus 1023, or 0 |
| Replay.AcceptedSet | src/crypto/replay.rs:52-95 | the set holds exactly the numbers accepted at some attempt of the run |
| Replay.NoReplay | src/crypto/replay.rs:29-95 | no number is accepted twice in any run |
| Replay.AcceptedIff | src/crypto/replay.rs:29-47 | a number is accepted exactly when it is new and no accepted number is 1024 or more above it |
| AckRanges.RunsAreRuns | src/session/ack.rs:98-111 | the ranges are non-empty, separated by gaps, descending, and cover exactly the received numbers |
| AckRanges.RunsUnique | src/session/ack.rs:98-111 | maximal runs are unique, so the frame says exactly one thing |
| AckRanges.FrameRoundTrip | src/session/ack.rs:81-175 | every list of separated 64-bit ranges, at most 65536 of them, parses back from its frame |
| AckRanges.PayloadRoundTrip | src/session/ack.rs:81-175 | the frame of any tracker state with a received packet parses to its largest number and the maximal runs of its retained set |
| AckRanges.RunsFewer | src/session/ack.rs:33 | n ranges span at least 2(n - 1) numbers, so the retention window keeps the count within 16 bits |
| AckRanges.HistoryRetained | src/session/ack.rs:59-69 | after any history the largest number is the maximum ever received, and the retained set is what was received within 8192 below it |
| AckRanges.EmptyFrameAcksZero | src/session/ack.rs:83-89 | an empty tracker's frame would be read as acknowledging packet 0 |
| AckRanges.BuildRanges | src/session/ack.rs:98-111 | the downward walk computes the maximal runs |
| AckRanges.ParseAckFrame | src/session/ack.rs:148-175 | the parse loop computes the parsed frame, rejecting truncation and underflow, with gap + 1 wrapping at 64 bits |
| AckRanges.Tracker.OnReceived | src/session/ack.rs:59-69 | insertion, largest number, pending flag and pruning as one state change |
| AckRanges.Tracker.BuildFrame | src/session/ack.rs:81-134 | returns the payload of the state and clears the pending flag |
| AckFrames.ParseExactly | src/session/ack.rs:148-175 | any bytes are read as a frame exactly when they hold it field by field at its offsets, with gap + 1 taken modulo 2^64; bytes that are cut short or would count below zero are read as nothing |
| AckFrames.ParsedDescends | src/session/ack.rs:148-175 | the ranges read from any bytes are non-empty and lie below one another, strictly exactly when the gap field is not 2^64 - 1 |
| AckFrames.FrameReports | src/session/ack.rs:59-134 | after any history an ACK is pending exactly when some arrival asked for one, and the frame is read as the largest number, the time since it first arrived and the maximal runs of what was received within 8192 below it |
| Arq.RttBounds | src/session/arq.rs:65-108 | for samples in [lo, hi] SRTT stays in [lo - 7, hi] and RTTVAR below hi; the RTO stays in [200 ms, 60 s] through any mix of samples and timeouts |
| Arq.AckRangesRemove | src/session/mod.rs:545-562 | acknowledging ranges removes exactly the covered packets and counts each once, however the ranges overlap |
| Arq.StampKeeps | src/session/arq.rs:65-81 | a retransmission round keeps every in-flight number, payload and size in its place, and the total size |
| Arq.Tracker.OnAck | src/session/arq.rs:49-63 | removes the packet, samples the RTT only if it was never retransmitted, and reports its size |
| Arq.Tracker.DrainExpired | src/session/arq.rs:65-81 | the loop over the table computes the drain of which ArqRuns.DrainExactly says what it returns |
| ArqRuns.DrainExactly | src/session/arq.rs:65-81 | a round returns exactly the packets put on the wire at least one timeout ago, in number order, each once; those alone are restamped and counted, afterwards every packet is younger than the timeout, and it backs off once exactly if there was one |
| ArqRuns.TimeoutExactly | src/session/arq.rs:65-108 | after any samples and timeouts the timeout is 300 ms or SRTT + 4 RTTVAR clamped to 200 ms and 60 s, doubled once for each timeout since the last sample and capped at 60 s |
| ArqRuns.EstimatesAreMeans | src/session/arq.rs:91-108 | after any samples and timeouts SRTT lies within 16 below the weighted mean by eighths, and RTTVAR within 24 of the weighted deviation by quarters, of the samples since the estimate was last zero |
| ArqRuns.LiveIsAll | src/session/arq.rs:91-108 | these are all samples if none is below eight microseconds |
| ArqRuns.ZeroRestarts | src/session/arq.rs:91-95 | samples of 1, 0 and 1000 microseconds give an estimate of 1000, their mean being below 126 |
| ArqRuns.FallsToZero | src/session/arq.rs:99-102 | an estimate falls to zero exactly from one microsecond with a sample below eight |
| ArqRuns.KarnExactly | src/session/arq.rs:32-108 | in every run of sends, acknowledgements and rounds the estimates are those of the round-trip times of packets sent once and of the rounds that resent something; a retransmitted packet leaves them alone |
| Stream.PollSendCuts | src/session/stream.rs:118-127 | each poll cuts the next piece of the written bytes at its own offset |
| Stream.ReceiveKeeps | src/session/stream.rs:140-162 | an honest segment is never refused and leaves ordered, disjoint pieces that end above the read position |
| Stream.ReadKeeps | src/session/stream.rs:167-186 | a read never leaves a segment's range, returns the next bytes of the stream, and stops short only when nothing more is contiguous |
| Stream.ReadSevers | src/session/stream.rs:167-186 | a buffered segment survives a read exactly when the read does not stop inside it |
| Stream.ReadKeepsAll | src/session/stream.rs:167-186 | a read loses nothing that was buffered exactly when its budget ends on a segment boundary or covers the contiguous data |
| Stream.ReadLoses | src/session/stream.rs:177-183 | reading one byte of a segment of two loses the other |
| StreamRuns.RunIsPrefix | src/session/stream.rs:140-186 | in any run of deliveries and reads the bytes read are a prefix of the bytes written |
| StreamRuns.RunKeepsExactly | src/session/stream.rs:140-186 | in every run a piece is read or waits exactly when no read since its last delivery stopped inside it |
| StreamRuns.RunDeliversAll | src/session/stream.rs:118-186 | a last read brings the bytes read to exactly the bytes written if and only if every piece stays until then and its budget suffices |
| StreamRuns.LandingReadsDeliver | src/session/stream.rs:118-186 | with reads that end on boundaries, every piece delivered at least once in any order is enough |
| Stream.ByteStream.Write | src/session/stream.rs:79-94 | the object computes the write of which StreamWrites.WriteExactly says when it is accepted |
| StreamWrites.WriteExactly | src/session/stream.rs:79-127 | after any history of writes, polls and finishes a write is accepted exactly when no finish came before and everything accepted so far and it fit the window; it returns the bytes accepted before it, otherwise the error and nothing changes; what is unsent is the end of what was accepted |
| Stream.ByteStream.Receive | src/session/stream.rs:140-162 | records the final size, ignores old data, refuses data beyond the limit, otherwise buffers |
| StreamWrites.ReceiveExactly | src/session/stream.rs:140-162 | whatever arrives, a segment is refused exactly when it brings new data from beyond the limit; the buffer never reaches beyond it, and a final mark records the end of its segment |
| Stream.ByteStream.DrainBuffer | src/session/stream.rs:167-186 | the read loop takes whole segments off the buffer until the budget, a gap or the end |
| FlowControl.WindowHistory | src/session/flow.rs:21-38 | over any history consumed is the sum of the reservations that fit below the largest limit announced before them; the next one succeeds exactly when it still fits, and otherwise reports what is left and changes nothing |
| FlowControl.FlowWindow.TryReserve | src/session/flow.rs:22-32 | reserves exactly when the credit suffices, otherwise reports what is available and changes nothing |
| Endpoint.SessionObject.Send | src/session/mod.rs:242-257 | credit from the window object first, then stream lookup, then a write to that stream object alone |
| Endpoint.SessionObject.OpenStream | src/session/mod.rs:184-195 | a fresh stream object under the next id, unless the table is full |
| Endpoint.SessionObject.DrainStream | src/session/mod.rs:280-337 | the inner loop of flush sends the segments of one stream and then its final mark |
| Endpoint.SessionObject.FlushPackets | src/session/mod.rs:272-375 | the whole flush: every listed stream drained, then a pending ACK, then a pending grant |
| Endpoint.SessionObject.HandleDataFrame | src/session/mod.rs:503-542 | parity and stream cap, receive accounting with the 50 percent grant, reassembly |
| Endpoint.SessionObject.HandleAckFrame | src/session/mod.rs:545-576 | the nested loops compute the acknowledgement of which Answers.AckTakesOut says what it takes out |
| Answers.AckTakesOut | src/session/mod.rs:545-576 | an accepted ACK packet takes exactly the covered packets out of the in-flight table and adds exactly their bytes to the congestion feedback |
| Answers.AnsweredExactly | src/session/mod.rs:545-576 | in every run a data packet is out of its sender's in-flight table exactly when the sender has accepted an ACK packet whose ranges cover it |
| Answers.ResentExactly | src/session/mod.rs:620-623 | in every run a retransmission round resends a data packet exactly when no accepted ACK covers it and at least the timeout has passed since it was last put on the wire, first or again |
| Endpoint.SessionObject.ReceivePacket | src/session/mod.rs:422-482 | commit to the bitmap window, acknowledgement tracking, dispatch; a replayed number changes nothing |
| Flush.FlushCarries | src/session/mod.rs:280-337 | flushing a stream sends exactly its buffered bytes at consecutive offsets in full segments, then the final mark once, and leaves nothing to send |
| Flush.FlushAllInv | src/session/mod.rs:272-375 | a whole flush keeps the two-party invariant |
| Flush.FlushAllExactly | src/session/mod.rs:272-375 | a whole flush sends for each listed stream exactly its buffered bytes in full segments and its final mark, nothing for the others, then an ACK exactly if one is pending and a grant exactly if one is; nothing stays pending, and the receive limit is raised to the grant |
| TwoParty.ActStep | src/session/mod.rs:172-600 | every action of either party, including receiving any packet ever numbered any number of times, keeps the two-party invariant |
| TwoParty.DataReceived | src/session/mod.rs:486-543 | an honest data frame is handled without error exactly when it does not exceed the stream cap, and keeps the invariant |
| Runs.RunInv | src/session/mod.rs:242-600 | the invariant holds in every world of every run of two sessions |
| Runs.PrefixSafety | src/session/stream.rs:79-186 | in every run, on every stream and in both directions, the bytes read are a prefix of the bytes written |
| Runs.ReadsInRange | src/session/stream.rs:167-186 | in every run no read slices outside a buffered segment |
| Runs.FrameAccepted | src/session/mod.rs:503-537 | in every run a fresh data packet of the peer is refused only by the stream cap, never by a receive limit or for its parity |
| Runs.NothingForgotten | src/session/mod.rs:545-576 | in every run a data packet out of the in-flight table has been recorded by the peer, and acknowledged plus in-flight bytes equal the bytes sent |
| Delivery.SegmentFate | src/session/mod.rs:422-543 | in every run, at any time after its packet was accepted, a segment has been read or waits exactly when the stream cap let it in and no read since stopped inside it |
| Delivery.RefusedForever | src/session/mod.rs:503-527 | in every run a packet refused by the stream cap is never let in again, its stream never opens at the receiver and nothing of it is read |
| Delivery.EverythingArrives | src/session/stream.rs:118-186 | in every run, once all that was written is cut into packets, a read brings what was read to exactly what was written if and only if every packet of the stream is held and the budget suffices |
| Runs.RetransmitsTheOriginal | src/session/mod.rs:295-307 | in every run what is retransmitted under a number is the packet first sent under it |
| Runs.CreditChain | src/session/mod.rs:452-455 | in every run bytes received <= sender consumed <= sender limit <= receiver limit |
| Runs.GrantStaysAhead | src/transport/connection.rs:486-496 | with the immediate grant flush the receiver's limit stays half a window above the bytes received, until packet numbers run out |
| Runs.FinishedMeansDelivered | src/session/stream.rs:188-191 | in every run a stream that reports itself finished was finished by its writer and read to the last byte |
| Endings.SendExactly | src/session/mod.rs:242-257 | in every run a write succeeds exactly when the connection credit covers it, the stream is open and was not finished, and what was written and it fit the window; it returns the bytes written before; a refused one leaves all but the credit as it was |
| Endings.FinishExactly | src/session/mod.rs:261-265 | in every run a stream is marked finished exactly when its owner finished it while it was open |
| Endings.EndExactly | src/session/stream.rs:188-191 | in every run a stream reports itself finished exactly when its final mark has arrived and everything written on it has been read |
| StreamTable.TableExactly | src/session/mod.rs:184-541 | in every run a session's table holds exactly the streams it opened, numbered in turn from its first id, and those of its peer of which a frame came in while there was room, never more than the cap |
| StreamTable.OpenExactly | src/session/mod.rs:184-195 | in every run opening a stream succeeds exactly below the cap, and then adds one fresh stream under the next id of its parity |
| Duties.DutiesKept | src/session/ack.rs:59-69 | in every run the list of received numbers is exactly the accepted ones within 8192 below the largest, and every accepted packet that asks for an ACK has one numbered, or one is pending, or it has left that window |
| Duties.AckSaysExactly | src/session/mod.rs:352-361 | in every run an ACK packet covers exactly the accepted numbers within 8192 below the largest, so a pending one covers all that asked since the last |
| Duties.PendingExactly | src/session/ack.rs:59-76 | in every run an ACK is pending exactly when, since the last one, a packet that asks for it was taken in |
| Duties.LimitExactly | src/session/mod.rs:452-455 | in every run the sender's limit is exactly the largest grant it has accepted, or the initial window |
| Duties.GrantedExactly | src/session/mod.rs:364-375 | in every run the receive limit is exactly the largest grant sent, or the initial window |
| Duties.AsksExactly | src/session/mod.rs:529-534 | a data frame that is let in asks for a grant exactly when more than half of the granted bytes have come in, and then for one window above those |
| Wire.DataRoundTripIff | src/session/mod.rs:285-292 | a data frame reads back exactly when stream id, offset and length fit their fields |
| Wire.DataRoundTrip | src/session/mod.rs:486-501 | a frame that fits reads back whatever bytes follow it |
| Wire.DataExactly | src/session/mod.rs:486-501 | any bytes are read as a data frame exactly when they hold it field by field at its offsets, and its packet is as long as the tracker counts it |
| Bytes.LEWeights | src/session/mod.rs:289-291 | little endian: each byte counts 256 times the one before it |
| Bytes.BEWeights | src/session/mod.rs:366 | big endian: each byte counts 256 times the one after it |
| Wire.GrantRoundTripIff | src/session/mod.rs:365-367 | a grant reads back exactly when it is below 2^64 |
| Wire.RunRoundTrips | src/session/mod.rs:285-375 | in every run every data frame and every acknowledgement reads back as it was built |
| PacketCodec.NoncesNeverRepeat | src/crypto/encoder.rs:31-65 | in every run of fewer than 2^64 encodes, failed calls included, no nonce repeats under one key |
| PacketCodec.XorTwice | src/crypto/header.rs:10-23 | applying header protection twice restores the header |
| PacketCodec.HeaderFields | src/crypto/encoder.rs:31-65 | version, type, session and packet number stand at octets 0, 1, 8 and 16 of the header, the others are zero |
| PacketCodec.NonceFields | src/crypto/encoder.rs:31-65 | the packet number can be read off the first eight octets of the nonce with the base, the others are the base |
| PacketCodec.DecodeEncode | src/crypto/decoder.rs:24-102 | for any lawful AEAD an encoded packet decodes to its type, number and data, unless it is too large or its number is not acceptable |
| PacketCodec.OnlyGoodCommits | src/crypto/decoder.rs:70-96 | the window changes exactly when authentication succeeds, and then by that new number alone |
| PacketCodec.NoiseIsInert | src/crypto/decoder.rs:24-102 | in every run of arbitrary buffers, without those that failed the same packets are returned and the window ends the same |
| PacketCodec.DeliveredOnce | src/crypto/decoder.rs:24-102 | whatever buffers arrive, the delivered numbers are the accepted ones, each once |
| PacketCodec.PacketEncoder.Encode | src/crypto/encoder.rs:31-89 | fills the output with the protected packet and advances the counter, or fails without spending a number |
| PacketCodec.PacketDecoder.DecodePacket | src/crypto/decoder.rs:24-102 | in-place decoding computes the decoding function with the bitmap window, and leaves the plaintext in the buffer |
| PacketCodec.ApplyHeaderProtection | src/crypto/header.rs:10-23 | the in-place loop masks the first 32 octets and nothing else |
| Calendar.DaysToYmdIs | src/bin/seam/audit.rs:484-498 | for every day count the closed form is the valid date with that day number |
| Calendar.YmdByLoops | src/bin/seam/key.rs:261-295 | the year loop and the month loop find the same date as the closed form |
| Calendar.YmdMonotone | src/bin/seam/audit.rs:484-498 | later days are later dates, and only those |
| Timestamps.StampOrderBound | src/bin/seam/audit.rs:460-482 | the text order of all timestamps up to n is the order of time if and only if n is before the year 10000 |
| Timestamps.SinceDay | src/bin/seam/audit.rs:114-139 | --since with a day keeps exactly the records from midnight of that day on |
| Timestamps.SinceStamp | src/bin/seam/audit.rs:114-139 | --since with a full timestamp keeps exactly the records from that second on |
| Timestamps.SinceSelects | src/bin/seam/audit.rs:121-147 | over a whole log, malformed lines and host filter included, --since with a day selects by time, in order |
| Timestamps.Show | src/bin/seam/audit.rs:121-157 | the loop with its two filters and its limit returns the last matching records |
| Timestamps.FmtTimestampUtc | src/bin/seam/key.rs:254-296 | the year and month loops give the compact timestamp of the closed-form date, with the day count cast to 32 bits |
| Timestamps.SameInstant | src/bin/seam/key.rs:254-296 | the compact timestamp is the long one without its separators if and only if the day count fits 32 bits |
| StampReading.StampReads | src/bin/seam/audit.rs:460-482 | every timestamp, in any year, reads back by its digits as the valid date and the time of day that make up its second |
| StampReading.LimitKeepsEnd | src/bin/seam/audit.rs:150-156 | the limit keeps the end of the list, all of it without a limit |
| Timestamps.FiveDigitYears | src/bin/seam/audit.rs:478-481 | the last second of 9999 and the first of 10000 sort the wrong way round |
| Rack.RunInv | src/session/rack.rs:64-157 | in every run each sent packet is in flight, acknowledged or lost, never two of these; none in flight was sent more than the window before the largest acknowledged one; the window is a quarter of SRTT and at least 1 ms once there is a sample |
| Rack.LostExactly | src/session/rack.rs:78-157 | in every run an ACK declares a packet in flight lost exactly when it is numbered below the largest acknowledged one and was sent more than the reorder window before it |
| Rack.TailLostExactly | src/session/rack.rs:117-133 | in every run the probe declares lost exactly the packets in flight sent more than the probe timeout ago |
| Rack.EstimateExactly | src/session/rack.rs:78-172 | in every run SRTT and RTTVAR are those of the measured round-trip times, one for each packet an ACK took out |
| Rack.LossIsJustified | src/session/rack.rs:78-157 | a packet an ACK declares lost has an acknowledged packet of higher number sent more than the reorder window later |
| Rack.SmoothedBounds | src/session/rack.rs:159-172 | for samples in [lo, hi] SRTT stays in [lo - 7, hi] and RTTVAR below hi |
| Rack.RackTracker.OnAck | src/session/rack.rs:78-114 | removal, reference, RTT, window and loss detection in place compute the acknowledgement of which Rack.LostExactly says what is lost |
| Rack.RackTracker.RemoveLate | src/session/rack.rs:144-156 | collecting and then removing the late packets keeps exactly the others, and reports the late ones in order |
| Rack.RackTracker.DetectTailLoss | src/session/rack.rs:117-133 | declares lost exactly the packets older than the probe timeout |
| MaxFilter.FeedIsMax | src/transport/congestion.rs:62-85 | with rounds in order the front of the deque is the maximum over every sample ever fed that is still in the window, and values strictly decrease |
| MaxFilter.WindowedMaxFilter.Add | src/transport/congestion.rs:62-80 | both eviction loops and the push compute the update |
| RateLimit.AdmittedAtMost | src/transport/endpoint.rs:186-207 | in every run, over every interval of length T, one address is admitted at most rate + T * rate times |
| RateLimit.CleanupUnobservable | src/transport/endpoint.rs:186-207 | every decision is the one of a table that never forgets |
| RateLaw.AdmittedExactly | src/transport/endpoint.rs:186-207 | in every run a request is admitted if and only if, for every request of its address up to it, one more admission since then is at most rate plus rate times the time between them |
| RateLaw.TableForgets | src/transport/endpoint.rs:186-193 | in every run the table holds only addresses seen within the idle limit and one clean-up period |
| RateLimit.RecvLoop.Admit | src/transport/endpoint.rs:183-207 | sweep if due, refill and decide in place, as the run of which RateLaw.AdmittedExactly says who is admitted |
| RoundRobin.FairShare | src/transport/multipath.rs:283-304 | of any m consecutive sends each of the a active paths gets m / a, rounded down or up; of any a it gets exactly one |
| RoundRobin.InactiveGetsNone | src/transport/multipath.rs:283-304 | an inactive path is never used while one is active |
| RoundRobin.AdvanceFinds | src/transport/multipath.rs:292-298 | one turn of the cursor loop always ends on the next active path in cyclic order |
| RoundRobin.MultiPath.SendRoundRobin | src/transport/multipath.rs:283-304 | fails at once exactly when no path is active, otherwise advances the cursor and counts the packet on that path only, unless the socket fails |
| RoundRobin.MultiPath.RemovePath | src/transport/multipath.rs:235-249 | removes the first path with the address, if any, and keeps the cursor valid |
| Pinning.PinsNeverSplit | src/bin/seam/known_hosts.rs:51-239 | from any readable file text, in every interleaving under the lock and with saves that may fail, after an acceptance that was written down every acceptance of that host up to its removal names the same fingerprint |
| Pinning.FileSaysExactly | src/bin/seam/known_hosts.rs:51-239 | in every interleaving under the lock the file holds for every host exactly the last word on it: its last written acceptance, or nothing after a written removal, or what it held at first; and every outcome was the right one for what was pinned then |
| Pinning.RemovalFrees | src/bin/seam/known_hosts.rs:227-239 | once a removal was written down, and until the next acceptance, the host is accepted with any fingerprint |
| Pinning.UnsavedBindsNothing | src/bin/seam/known_hosts.rs:217-222 | a first acceptance whose save fails leaves the next process free to accept any fingerprint |
| Pinning.PinSurvives | src/bin/seam/known_hosts.rs:205-224 | a first acceptance that was saved leaves a file with which exactly its fingerprint is accepted, if and only if the format can carry the host and the fingerprint |
| Pinning.UnplainForgotten | src/bin/seam/known_hosts.rs:71-95 | otherwise the pin is not in the file that is read back, and some other fingerprint is accepted |
| Pinning.UnreadAccepts | src/bin/seam/known_hosts.rs:53-56 | a process that could not read the file accepts whatever it is offered, which breaks the promise exactly when the host was pinned to another fingerprint |
| Pinning.UnreadOverwrites | src/bin/seam/known_hosts.rs:53-56 | its save leaves a file with that one pin |
| Pinning.UnreadSplits | src/bin/seam/known_hosts.rs:53-56 | under the lock two processes in turn accept different fingerprints of one host when the second could not read the file |
| Pinning.UnlockedSplits | src/bin/seam/known_hosts.rs:122-126 | without the lock two first connections to an unpinned host are both accepted whatever they were offered |
| KnownHosts.LoadAfterSave | src/bin/seam/known_hosts.rs:51-95 | saving and loading restores a table if and only if every host is non-empty, without blank or line break, not beginning with a hash or white space, and every value is a trimmed non-empty line |
| KnownLines.LineExactly | src/bin/seam/known_hosts.rs:57-67 | a line is read as a pin exactly when it is a host without blank, not a comment, then a blank and a value, with any white space around them |
| KnownLines.LoadExactly | src/bin/seam/known_hosts.rs:51-68 | from any text a host is pinned to a value exactly when the last line that is an entry of that host has it |
| KnownLines.LineEnds | src/bin/seam/known_hosts.rs:58 | a line ends at a line break, with or without a carriage return before it, and the last one need not |
| KnownHosts.LoadedPlain | src/bin/seam/known_hosts.rs:51-68 | whatever the file says, every host and value loaded from it can be saved |
| KnownHosts.Load | src/bin/seam/known_hosts.rs:57-68 | the line loop skips blanks and comments and inserts the others in order |
| KnownHosts.Save | src/bin/seam/known_hosts.rs:77-85 | the entry loop writes the header and one line per host |

## Left out

- FecDecoder.AnyKSymbolsRecover: is about symbols the encoder sent; what forged lengths or indices do is stated by FecCodec.TryRecover alone.
- GaussInPlace.GaussRhs: follows the release build; the assertion of a debug build that both slices of a row operation have one length is not modelled.
- FecCodec.Encoder.constructor: asks for k >= 1 and r = 0 or k + r <= 256; beyond that the code panics at the first zero denominator, and with k = 0 it never emits.
- Runs.RunInv: byte counters and limits are unbounded integers, packet numbers stop at 2^64 and stream ids at 2^32; wrap-around of byte counters after 2^64 bytes is not modelled.
- Runs.RunInv: packets are structured values numbered by their sender; their bytes are covered by Wire and PacketCodec, and forgery is excluded by the authentication law there.
- Wire.RunRoundTrips: leaves the grant to Wire.GrantRoundTripIff, since its limit is an unbounded integer here.
- Endpoint.SessionObject.FlushPackets: streams are flushed in a given order with one clock reading; the priority sort, datagrams, pings and pongs are other steps of the two-party system.
- Endpoint.SessionObject.HandleDataFrame: the events passed to the application are not modelled.
- Endpoint.SessionObject.ReceivePacket: the events passed to the application and the flag that answers a ping are not modelled.
- Endpoint.SessionObject.HandleAckFrame: the RTT passed to congestion control beside the byte count is not modelled.
- Stream.ByteStream: the unacknowledged-byte estimate, priorities and window extension are not modelled; nothing else reads them.
- Rack.RackTracker.OnAck: the minimum RTT and the statistics counters are not modelled.
- RateLimit.AdmittedAtMost: tokens and times are real numbers, so floating-point rounding is not modelled.
- MaxFilter.FeedIsMax: values are real numbers, rounds do not decrease, and the window is at least one round.
- RoundRobin.FairShare: the set of active paths is fixed during the run; health checks are not modelled, and a failed send counts as one that went to its path.
- Pinning.PinsNeverSplit: hosts and fingerprints are plain and the file can be read, see Pinning.PinSurvives and Pinning.UnreadAccepts for the others, and the policy is not the one that skips verification.
- KnownHosts.Save: the hosts are written in a given order, which the code takes to be alphabetical; the result holds for every order.
- PacketCodec.DecodeEncode: encryption, key derivation and the mask are arbitrary functions that obey the stated laws.
- Noise handshake, ML-KEM, ML-DSA, BLAKE3, tickets and ratchets: foreign or stubbed code.
- Congestion controllers, pacer, FEC arbiter, padding and chaff, path probing: floating-point heuristics or code without a stated promise.
- Sockets, tasks, command line, FUSE, configuration: input and output.
- Datagram queue, key-schedule cache, packet-type table, statistics: would only add easy members.
- Liveness: per-stream windows are never extended and grants are not retransmitted, so progress is not promised by the code.
