# snell-rs, modelled and proved in Dafny

snell-rs carries byte streams over encrypted records. An encoder seals plaintext into
records inside a fixed buffer, a decoder opens them in place, and two pumps move bytes
between a local socket and the record stream. Three record formats exist: v4, v6 shaped
and v6 unshaped. This project models that core and proves what it is for.

**The headline result** is `Relay.RelaySession`. For every input, every codec, any
keystream, tag, key derivation and salt, and any schedule of short reads, partial
vectored writes, stalls and failures:

- the bytes written at one end are always a prefix of the bytes read at the other,
  whoever failed and when;
- if nothing fails and the peers stall no more often than the caller is willing to wait,
  both pumps finish;
- when both have finished, all of the input has come out, except in one case that is
  stated exactly: a v4 encoder made with a padding of 1405 bytes or more delivers nothing;
- each end is shut down once on success and never otherwise.

`Sessions.Session` puts a handshake in front: written in records of its own over the same
connection, then the relay, with one receiver over both.

It rests on results that stand on their own:

- **Records.** A format-independent record layer with a round trip over whole runs
  (`Streams.RunRoundTrip`); each codec is shown to meet the layer's laws (`Codecs`,
  `Policies`).
- **Fragmentation.** A decoder over one buffer, with bytes arriving in any pieces and
  records decoded ahead and consumed in any interleaving, hands out what the whole stream
  parses to in one go, and keeps it readable until it is consumed (`Schedules.Caller.Run`).
- **Encoder lifecycle.** Over any script of sends, misuses, failed seals, drops and leaks,
  an encoder does what a small pure machine says (`Lifecycles.Run`); records that came to
  nothing can be struck from the script without changing any other, under a condition shown
  to be exact (`Traces.NoTrace`, `Traces.TracelessExactly`); nonces are used in order
  (`Encoders.NonceUsedOnce`).
- **Shaping.** Profile ranges, the padding target search, the growth of both chunk windows,
  mixing as one involution, the salt permutation, exact bit sampling, and the fast loops
  over bytes and machine words against their per-byte rules (`Profile`, `Windows`,
  `Mixing`, `Words`, `Salts`, `PaddingBits`, `Generators`).
- **Buffers, batches, pumps.** Reservation stability, coalesced batches under partial
  writes, and both pumps as phase machines (`Buffers`, `Batches`, `DecodeBatches`,
  `Senders`, `Receivers`).
- **The pool.** Over every interleaving of the atomic steps of every lease, no allocation
  is in two places, cached blocks are empty, the byte counter balances, and leases left to
  themselves finish (`Pools`).
- **Smaller cores.** The replay cache against its definition over the accepted history,
  and SOCKS5 parsing from any part of a stream (`Replay`, `Socks5`).

## How it is built

- Bytes are integers below 256. `Cipher` builds AES-GCM's shape from an arbitrary
  keystream and an arbitrary tag, so the seal and open laws are proved, not assumed. The
  key derivation is an arbitrary partial function; the keyed functions behind a profile
  are arbitrary too, and every derived profile is shown to be in range.
- A `Format` says how a codec lays out a record, a `Plan` how it sizes one. `Sound` and
  `WellFormed` are what the record layer needs of them. The encoder and decoder classes
  are written once over these, where the source has three of each.
- What a peer does is nondeterministic: each poll of a `Source` or `Sink` may stall,
  break or make any amount of progress, and a `Host` may refuse memory or fail any step of
  a seal. Clocks are nondeterministic too. Stalls and failures are counted, so a contract
  can also say what happens when there are none. A proof about a poll is a proof about
  every schedule.
- A method that changes state is specified by a function of the old state; the properties
  are proved about those functions. Ghost fields record the history a property speaks of.
- Where the code and a comment disagree the code is followed. A v4 encoder made through
  `with_salt` accepts a padding of up to 16383 bytes, but from 1405 on its first record has
  room for no payload, and a pump takes an empty read for the end of input.
  `Policies.PolicyRoomy` shows this is the only such case, for every codec, and
  `Relay.RelaySession` what it leads to. Encoders made through `new` pad with less than 512
  bytes and are clear of it.
- A request that comes to nothing leaves no trace on v4 and unshaped encoders. On shaped
  ones it can: asking for a stream record sets up or resets the chunk window, on a new
  encoder and after an idle gap, while a datagram only moves the window on. So a dropped
  stream request leaves a trace in the encoder if, and only if, it changed the window and a
  datagram is sealed before the next stream record. `Traces.TracelessExactly` states this for every script,
  `Traces.DatagramTrace` for one step with the guard written out, and `Traces.TraceShows`
  gives a script of three operations, with no gap in it, whose last record differs.

## Model

| member | source | states |
|---|---|---|
| `Relay.RelaySession` | crates/snell-runtime/src/session.rs:420-538 | End to end for every codec, cipher functions, salt and schedule: the output is always a prefix of the input; without failures and with enough patience both pumps finish; when both finish the output is the whole input if and only if the codec is no v4 encoder padding with 1405 bytes or more, or the input is empty; a receiver of a complete stream fails only by I/O; each end is shut down exactly on success. |
| `Sessions.Session` | crates/snell-runtime/src/session.rs:132-190 | A handshake written as records, the relay behind it on the same connection, and one receiver over both, for every codec and schedule: the output is always a prefix of handshake and input together; without failures and with enough patience everything finishes and all of both comes out, unless a v4 padding of 1405 or more leaves the first record no room, when a handshake is never sent. |
| `Sessions.Converse` | crates/snell-runtime/src/session.rs:165-190 | The sending side of that: what went out is part of one run of records carrying a prefix of handshake and input, and all of it on success. |
| `Sessions.BehindPartial` | crates/snell-runtime/src/session.rs:456-538 | Wherever a pump is that started behind other records, what has gone out is part of both runs joined. |
| `Sessions.BehindWhole` | crates/snell-runtime/src/session.rs:456-538 | When it is done, the joined run is whole and carries what came before and what the codec delivers. |
| `Relay.RelayThrough` | crates/snell-runtime/src/session.rs:420-442 | The same for any valid session keys. |
| `Relay.SendAll` | crates/snell-runtime/src/session.rs:456-538 | Whatever happens to the sending pump, what it wrote is part of a run of records that carries a prefix of the input; without failures it finishes, with the whole run written. |
| `Relay.ReceiveAll` | crates/snell-runtime/src/session.rs:689-758 | Over any part of such a run the receiving pump writes a prefix of its payloads; over a whole one it finishes without failures and writes exactly them. |
| `Relay.NeverWrongBytes` | crates/snell-runtime/src/session.rs:678-758 | Whatever part of a run's wire bytes has arrived and wherever the receiver is in it, what it has decoded is a prefix of what was sent. |
| `Relay.ReceiverPartial` | crates/snell-runtime/src/session.rs:792-810 | And what it has written is a prefix of the payloads sent. |
| `Relay.RunDelivered` | crates/snell-runtime/src/session.rs:691-758 | A receiver that finished on an ended run has decoded that run exactly, whether it stopped at the zero chunk or at the end of input. |
| `Relay.NeverRefused` | crates/snell-runtime/src/session.rs:712-755 | The bytes of an ended run can leave a receiver neither with a decode error nor with half a record. |
| `Relay.CutYieldsPrefix` | crates/snell-protocol/src/codec/record.rs:5-18 | Cutting a byte stream anywhere yields a prefix of the records the whole stream yields. |
| `Senders.Sender.Poll` | crates/snell-runtime/src/session.rs:459-538 | Success only when all input is out in data records followed by exactly one zero chunk, or a record without room was mistaken for the end of input; waiting only after a reader or writer poll waited; an error only after a socket or the host failed; the writer is shut down once unless it is to stay open; and in every outcome what went out is a prefix of the sealed records, in order. |
| `Senders.Sender.constructor` | crates/snell-runtime/src/session.rs:456-458 | A pump starts with its books balanced: nothing sealed, nothing queued, all input to come. |
| `Senders.Sender.FillBatch` | crates/snell-runtime/src/session.rs:465-511 | Either the batch holds records for strictly more of the input, or the reader has ended, or the reader made it wait, or something failed and was counted; no byte read is lost without a failed seal. |
| `Senders.Sender.ReadOne` | crates/snell-runtime/src/session.rs:467-503 | One reservation and read: a sealed record with exactly the bytes read, or the batch as it was; refused for size only when others are queued before it; any other error means a counted failure. |
| `Senders.Sender.SendZero` | crates/snell-runtime/src/session.rs:513-523 | Queues the zero chunk behind all data, or leaves it for later only when queued records fill the buffer; fails only with the host. |
| `Senders.Sender.Flush` | crates/snell-runtime/src/session.rs:525-531 | Partial or complete, what is written and what is still queued make up the sealed records in order. |
| `Senders.Sender.Turn` | crates/snell-runtime/src/session.rs:460-536 | Every turn gives a result or is strictly closer to one, so the trailing wait is never reached. |
| `Senders.PollReadRecord` | crates/snell-runtime/src/bufio.rs:76-93 | A read into a reservation seals exactly the bytes that arrived, always when no fault strikes, or drops the reservation without a trace. |
| `Senders.EncodeRecord` | crates/snell-runtime/src/session.rs:112-130 | One record of as much of the source as is admitted, or none; each retry has strictly more capacity; a ready encoder refuses only for size or after a counted failure, and a stream record into an empty buffer never for size. |
| `Writers.WritePlainRecords` | crates/snell-runtime/src/session.rs:165-190 | Ends, and on success has written exactly the source as data records; in every outcome what went out is part of a run carrying a prefix of it; it waits only past the given patience, and fails only after a counted failure or, for size, with an encoder that is not roomy. |
| `Writers.DrainEncode` | crates/snell-runtime/src/bufio.rs:95-106 | A drained record went out from its split on, then up to it, and the buffer is empty. |
| `Receivers.Receiver.Poll` | crates/snell-runtime/src/session.rs:691-758 | Success only when the plaintext up to the zero chunk, or up to a clean end of input, is all written and the writer shut down once; a decode error or a half record is reported only when everything before it is written, and an I/O error only after a counted failure; waiting only when a peer waited. |
| `Receivers.Receiver.constructor` | crates/snell-runtime/src/session.rs:689-690 | Starts with nothing decoded, at the decoder's state and the bytes already buffered. |
| `Receivers.Receiver.FillBatch` | crates/snell-runtime/src/session.rs:706-755 | Decodes ahead without losing or reordering records; stops at a zero chunk, an error, a full batch or missing input. |
| `Receivers.Receiver.OnRecord` | crates/snell-runtime/src/session.rs:730-745 | A record joins the batch with its plaintext intact; a zero chunk ends decoding, at once or behind the batch. |
| `Receivers.Receiver.OnError` | crates/snell-runtime/src/session.rs:746-753 | A decode error waits behind the records decoded before it. |
| `Receivers.Receiver.Deliver` | crates/snell-runtime/src/session.rs:698-702 | Writing and consuming the batch leaves the undecoded bytes as they were. |
| `Receivers.PollReadInto` | crates/snell-runtime/src/bufio.rs:39-66 | Appends exactly the bytes that arrived; nothing read means the end of input; with room to spare it fails only by I/O or memory. |
| `Streams.YieldsStatus` | crates/snell-runtime/src/session.rs:708-753 | How one decode step changes what a stream has yielded and will yield, for each of its three outcomes. |
| `Batches.EncodeBatch.Push` | crates/snell-runtime/src/session.rs:582-592 | The batch then also sends the pushed record in wire order, joined to its neighbour or not. |
| `Batches.EncodeBatch.PollWrite` | crates/snell-runtime/src/session.rs:600-621 | For any sizes the writer takes, what goes out is the batch's emission from where it was to where it is. |
| `Batches.FillBatch` | crates/snell-runtime/src/session.rs:560-592 | Any records, lengths and splits: the batch takes records while it has an entry for the next one, unsplit neighbours sharing theirs, and emits each record taken from its split on, then up to it, in turn. |
| `Batches.Unwritten.Push` | crates/snell-runtime/src/session.rs:644-653 | The gathered slices are the offered bytes past those already written, one slot per part at most. |
| `Batches.Unwritten.PollWrite` | crates/snell-runtime/src/session.rs:656-671 | Writes a prefix of what is left; reports 0 only when nothing is left. |
| `Batches.JoinEmits` | crates/snell-runtime/src/session.rs:582-589 | Letting an unsplit entry run on over an unsplit record adds exactly that record's bytes. |
| `DecodeBatches.DecodeBatch.PollWrite` | crates/snell-runtime/src/session.rs:792-810 | The plaintext of the batch goes out in order from where it was to where it is. |
| `DecodeBatches.DecodeBatch.Consume` | crates/snell-runtime/src/session.rs:814-835 | Consumes all records in decode order, leaves what is behind them, and reports the end or the error kept back. |
| `DecodeBatches.PlainKept` | crates/snell-protocol/src/codec/record.rs:12-17 | Decoding further does not touch plaintext already handed out. |
| `Lifecycles.Run` | crates/snell-protocol/src/buffer.rs:294-391 | Any script of sends in four ways of filling, faults, overruns, cancels and leaks: each operation seals exactly the record, padding included, that a pure machine says or none; the buffer gains exactly those records, the encoder stands behind them, nonces are used in order, and a poisoned encoder or one with a leaked reservation adds nothing. |
| `Lifecycles.Attempt` | crates/snell-protocol/src/buffer.rs:337-391 | One operation against that machine: a send seals just if it is admitted, fits, claims only what was put in that way and meets no fault; otherwise bytes and encoder are as they were, window refresh, poison and leaks apart. |
| `Traces.NoTrace` | crates/snell-protocol/src/buffer.rs:383-391 | Striking every operation that sealed nothing from a script leaves the very same records, if no datagram is sealed while a struck stream request has the window changed; and the very same encoder, if none still has. |
| `Traces.TracelessExactly` | crates/snell-protocol/src/buffer.rs:383-391 | That condition is exact: over any script with a clock that does not go back, the encoders with and without the struck operations stay indistinguishable to stream records throughout if and only if it holds. |
| `Traces.EveryCodecTraceless` | crates/snell-protocol/src/codec/v6/shaped.rs:137-179 | For each codec: always on v4 and unshaped encoders, whatever the clock does, and exactly under that condition on shaped ones. |
| `Traces.RunBoth` | crates/snell-protocol/src/buffer.rs:294-391 | Two encoders of any codec at the same stage, one running a script and one the script without what comes to nothing, end in the same state over the very same bytes. |
| `Traces.EveryPolicyResettable` | crates/snell-protocol/src/codec/v6/shaped.rs:65-83 | For every codec, asking twice is asking once, later; a window that asking has changed is not changed again before a record is sealed; sealing tells a changed window from the one it was; and only shaped windows ever change when asked. |
| `Traces.DatagramTrace` | crates/snell-protocol/src/codec/v6/shaped.rs:65-83 | One step: a datagram leaves a shaped window that depends on a stream request dropped before it exactly when that request changed the window; and it changes it exactly on a new encoder or after an idle gap, unless the window is at its initial size. |
| `Traces.TraceShows` | crates/snell-protocol/src/codec/v6/shaped.rs:152-155 | The failing script, on a new shaped encoder and without a gap: a dropped stream request, a datagram, a stream record; the records with and without the dropped request are equal exactly if the profile gives the two windows the same budget. |
| `Traces.SomeProfileShows` | crates/snell-protocol/src/codec/v6/profile/mod.rs:417-438 | There is a derived profile that does not. |
| `Encoders.NonceUsedOnce` | crates/snell-protocol/src/crypto/nonce.rs:15-23 | Two seals share a nonce exactly when their positions agree modulo 2^96. |
| `Encoders.Encoder.Reserve` | crates/snell-protocol/src/codec/v6/shaped.rs:145-179 | Holds room for the whole record behind the live bytes, or changes nothing and says why; refused while one is outstanding or after poisoning. |
| `Encoders.Encoder.Finish` | crates/snell-protocol/src/codec/v4/mod.rs:165-180 | Appends one stored record and advances by one record, or restores the bytes in front of it and poisons exactly when a nonce was used. |
| `Encoders.Encoder.Seal` | crates/snell-protocol/src/buffer.rs:337-346 | Seals the written payload, or cancels when too much is claimed or too little was written. |
| `Encoders.Encoder.SealInit` | crates/snell-protocol/src/buffer.rs:352-361 | The same for bytes left in the raw slot. |
| `Encoders.Encoder.Drop` | crates/snell-protocol/src/buffer.rs:383-391 | A dropped reservation leaves live bytes, nonce, sequence and salt flag as before. |
| `Encoders.Encoder.SealParts` | crates/snell-protocol/src/codec/v6/shaped.rs:86-135 | Header, padding and payload as the wire form defines them; which fault fails which record, and when the nonce has moved. |
| `Encoders.Encoder.constructor` | crates/snell-protocol/src/codec/v4/mod.rs:55-74 | Starts ready at nonce 0, sequence 0, salt unsent. |
| `Encoders.FillCopied` | crates/snell-protocol/src/buffer.rs:318-346 | Copying a payload in and sealing it gives its record exactly when no fault strikes. |
| `Encoders.FillRead` | crates/snell-protocol/src/buffer.rs:327-361 | Reading the same bytes into the raw slot gives the same record in the same cases, whatever the slot held. |
| `Encoders.RecordFits` | crates/snell-protocol/src/buffer.rs:123-137 | A sealed record never outgrows its reservation, and a reservation never the wire cap. |
| `Encoders.StoredRotates` | crates/snell-protocol/src/codec/v6/shaped.rs:85-135 | Sending a stored record from its split on, then up to it, is its wire form. |
| `Policies.EveryPolicySound` | crates/snell-protocol/src/lib.rs:131-143 | Every codec's plan and format meet all laws of the record layer, for every profile, padding and window. |
| `Policies.PolicyRoomy` | crates/snell-protocol/src/codec/v4/chunk.rs:45-54 | Stream records always have room for a byte, except exactly when a v4 padding of 1405 or more fills the first segment; then exactly the first record has none. |
| `Policies.EveryCodecRoundTrips` | crates/snell-protocol/src/codec/v4/mod.rs:233-284 | Whole runs round trip for each codec with only the cipher's two functions left abstract. |
| `Policies.SessionKeysValid` | crates/snell-protocol/src/crypto/aead.rs:26-34 | Session keys of any codec meet the laws the record layer relies on. |
| `Streams.RunRoundTrip` | crates/snell-protocol/src/codec/v6/shaped.rs:287-348 | Any run of sealed records decodes to exactly its payloads and kinds, in lock step at the end, whatever follows. |
| `Streams.WireParses` | crates/snell-protocol/src/codec/v4/mod.rs:233-284 | One record parses to its payload and kind, uses exactly its bytes, and leaves the decoder at the encoder's next nonce, sequence and salt flag. |
| `Schedules.Caller.Run` | crates/snell-protocol/src/codec/record.rs:76-131 | Any interleaving of arrivals, decodes and in-order consumption over one buffer: the records handed out are a prefix of the one-shot parse, each stays readable until consumed, errors agree, and a decoder that waits with everything arrived has handed out all of them. |
| `Schedules.Caller.Decode` | crates/snell-protocol/src/codec/record.rs:91-122 | A wait asks for more than is buffered, no more than fits once the outstanding records are consumed, and never past the end of the next record, however many records are outstanding. |
| `Schedules.Caller.Consume` | crates/snell-protocol/src/codec/record.rs:124-130 | Consuming the oldest record leaves the others readable, shifted by its length, and the bytes still to be decoded as they were. |
| `Schedules.Caller.Read` | crates/snell-protocol/src/codec/record.rs:12-17 | The plaintext of any outstanding record can be read where it was handed out, less what was consumed since. |
| `Schedules.AsksWithin` | crates/snell-protocol/src/codec/record.rs:91-103 | The length asked for is above what is there and at most the record that comes, whatever comes. |
| `Streams.ParseResumes` | crates/snell-protocol/src/codec/v6/shaped.rs:287-348 | More input leaves a decided parse alone; an undecided one resumes and never asked past the record's end. |
| `Records.Parse` | crates/snell-protocol/src/codec/v6/unshaped.rs:167-222 | A parsed record lies within the input and the buffer limit; a wait asks for more than is there and no more than the limit. |
| `Records.WireLen` | crates/snell-protocol/src/codec/header.rs:34-68 | The lengths of every part of a sealed record. |
| `Decoders.Decoder.Decode` | crates/snell-protocol/src/codec/v6/shaped.rs:288-348 | In place, behind records already handed out, it answers what the parse there comes to, and touches no byte in front of or behind the record. |
| `Decoders.Decoder.Consume` | crates/snell-protocol/src/codec/record.rs:124-130 | Drops a handed-out record and leaves the bytes ahead; refuses more than was handed out. |
| `Decoders.Decoder.OpenInPlace` | crates/snell-protocol/src/codec/v6/shaped.rs:327-342 | Mixing back and opening in place gives the payload and changes only the body. |
| `Decoders.Decoder.constructor` | crates/snell-protocol/src/codec/v4/mod.rs:216-225 | Starts where an encoder starts, before its salt. |
| `Codecs.V4WellFormed` | crates/snell-protocol/src/codec/v4/mod.rs:76-109 | The v4 layout's salt, mix and header laws. |
| `Codecs.UnshapedWellFormed` | crates/snell-protocol/src/codec/v6/unshaped.rs:45-63 | The unshaped layout's laws. |
| `Codecs.ShapedWellFormed` | crates/snell-protocol/src/codec/v6/shaped.rs:86-135 | The shaped layout's laws, for every profile in range. |
| `Headers.HeaderRoundTrip` | crates/snell-protocol/src/codec/header.rs:88-121 | Parsing a built header returns its lengths; v4 refuses exactly those above its limit. |
| `Cipher.OpenSeal` | crates/snell-protocol/src/crypto/aead.rs:35-64 | Opening under the same key, nonce and associated data returns what was sealed. |
| `Cipher.SealOpen` | crates/snell-protocol/src/crypto/aead.rs:49-64 | What opens is the seal of what it opens to. |
| `Cipher.GcmLawful` | crates/snell-protocol/src/crypto/aead.rs:35-64 | Any keystream and tag make a lawful suite. |
| `Nonces.NonceReuse` | crates/snell-protocol/src/crypto/nonce.rs:15-23 | The i-th and j-th nonces are equal exactly when i and j agree modulo 2^96. |
| `Nonces.SuccCounts` | crates/snell-protocol/src/crypto/nonce.rs:15-23 | An increment adds one to the little-endian value and wraps at the top. |
| `Nonces.Increment` | crates/snell-protocol/src/crypto/nonce.rs:15-23 | The carry loop in place is that successor. |
| `Buffers.Buffer.SpareCapacity` | crates/snell-protocol/src/buffer.rs:96-116 | Enough writable bytes or the exact reason; live bytes kept; nothing moves when it already fits or fails. |
| `Buffers.Buffer.ReserveRecord` | crates/snell-protocol/src/buffer.rs:131-137 | Room for the whole record at a fixed index, its fixed part zeroed, or nothing changed. |
| `Buffers.Buffer.ExtendFromSlice` | crates/snell-protocol/src/buffer.rs:140-149 | Appends the bytes or changes nothing; within held room nothing moves. |
| `Buffers.Buffer.SetRecordEnd` | crates/snell-protocol/src/buffer.rs:168-177 | Truncates or zero-extends the last record to the given end. |
| `Buffers.Buffer.ZeroExtendTo` | crates/snell-protocol/src/buffer.rs:160-165 | Zero-commits up to an index and touches nothing committed. |
| `Buffers.Buffer.Commit` | crates/snell-protocol/src/buffer.rs:206-217 | Commits spare bytes as they are, or refuses past the writable tail. |
| `Buffers.Buffer.Truncate` | crates/snell-protocol/src/buffer.rs:226-234 | Cuts the storage at an index between start and end, or refuses. |
| `Buffers.Buffer.Consume` | crates/snell-protocol/src/buffer.rs:237-250 | Drops exactly the first bytes, or refuses more than are live. |
| `Buffers.Buffer.Compact` | crates/snell-protocol/src/buffer.rs:253-265 | Moves the live bytes to the front and keeps them. |
| `Buffers.Buffer.ReplaceStorage` | crates/snell-protocol/src/buffer.rs:41-54 | Exchanges the allocation and keeps exactly the live bytes, or refuses a smaller one. |
| `Buffers.Buffer.TakeEmptyStorage` | crates/snell-protocol/src/buffer.rs:57-63 | Gives the storage up only when nothing is live. |
| `Windows.V4Growth` | crates/snell-protocol/src/codec/v4/chunk.rs:6-62 | For any reserve times, the v4 budget is its base plus 1421 for each record since the last idle gap, up to 16383; the base pays for salt and padding only before the first gap. |
| `Windows.ShapedGrowth` | crates/snell-protocol/src/codec/v6/shaped.rs:65-73 | For any reserve and seal times, the shaped window is its initial size plus a step for each record since the last idle gap, up to its maximum. |
| `Windows.BudgetPositive` | crates/snell-protocol/src/codec/v6/shaped.rs:65-83 | When a budget is zero, that it never exceeds the format's limit, and the shaped budget's range and first-record cap. |
| `Windows.PayloadCapacity` | crates/snell-protocol/src/codec/mod.rs:31-46 | A capacity holds the prefix and stays within the limit; the only refusal is for size. |
| `Profile.Derive` | crates/snell-protocol/src/codec/v6/profile/mod.rs:170-311 | Every profile derived from any keyed function is in range. |
| `Profile.WriteTargetLen` | crates/snell-protocol/src/codec/v6/profile/mod.rs:449-496 | The search ends at a target at least the current length, at most 2256 when searched; its overflow return is never taken. |
| `Profile.FinalPaddingLen` | crates/snell-protocol/src/codec/v6/profile/mod.rs:377-415 | Padding never exceeds the profile's maximum or the reserve. |
| `Profile.ShapedRecordFits` | crates/snell-protocol/src/lib.rs:131-143 | A whole shaped record, and its reservation, fit the wire cap. |
| `Profile.ChunkLimit` | crates/snell-protocol/src/codec/v6/profile/mod.rs:417-438 | Shaped chunk limits stay between 64 and the profile's maximum. |
| `Mixing.RoundsAreOneExchange` | crates/snell-protocol/src/codec/v6/profile/mod.rs:602-643 | All rounds together are one exchange on the indices an odd number of rounds picks. |
| `Mixing.MixUndoes` | crates/snell-protocol/src/codec/v6/profile/mod.rs:602-643 | Mixing twice restores padding and payload, for every profile, sequence and pair of lengths. |
| `Mixing.MixPaddingPayload` | crates/snell-protocol/src/codec/v6/profile/mod.rs:602-635 | The in-place loops are those rounds. |
| `Mixing.SwapStrided` | crates/snell-protocol/src/codec/v6/profile/mod.rs:637-643 | One strided pass swaps exactly the indices on the stride. |
| `Mixing.SwapEvenIndices` | crates/snell-protocol/src/codec/v4/padding.rs:21-38 | The masked swap of 64-bit words, in either byte order, and the tail loop together swap exactly the even indices. |
| `Mixing.SwapMasked` | crates/snell-protocol/src/codec/v4/padding.rs:28-34 | Exclusive or of the masked difference into two words exchanges exactly the masked bytes. |
| `Words.XorByLanes` | crates/snell-protocol/src/codec/v4/padding.rs:31-33 | An exclusive or of whole numbers is one of each byte alone. |
| `Words.AndByLanes` | crates/snell-protocol/src/codec/v4/padding.rs:31 | And so is a conjunction. |
| `Words.OnesByLanes` | crates/snell-protocol/src/codec/v4/padding.rs:8-10 | The set bits of a number are those of its bytes. |
| `Words.NativeRoundTrip` | crates/snell-protocol/src/codec/v4/padding.rs:29-33 | Bytes read as a word and written back are the same, in either byte order. |
| `Mixing.ExchangeUndoes` | crates/snell-protocol/src/codec/v4/padding.rs:18-38 | An index-aligned exchange is its own inverse. |
| `Salts.ShufflePerm` | crates/snell-protocol/src/codec/v6/salt.rs:27-40 | The shuffle yields a permutation, for every namespace and round count. |
| `Salts.ExtractHidden` | crates/snell-protocol/src/codec/v6/salt.rs:48-75 | Extracting returns the salt that was written. |
| `Salts.HiddenAt` | crates/snell-protocol/src/codec/v6/salt.rs:64-75 | Writing the salt changes only the chosen positions. |
| `Salts.WriteSalt` | crates/snell-protocol/src/codec/v6/salt.rs:64-75 | The loop in place hides the salt as specified. |
| `Salts.ExtractSalt` | crates/snell-protocol/src/codec/v6/salt.rs:55-62 | The loop recovers it as specified. |
| `PaddingBits.FillPaddingBits` | crates/snell-protocol/src/codec/v4/padding.rs:77-113 | Leaves exactly the target number of set bits, in both branches, for every length and entropy. |
| `PaddingBits.BitRng.Pick` | crates/snell-protocol/src/codec/v4/padding.rs:123-138 | A pick is at most the maximum and comes from below the zone. |
| `PaddingBits.ZoneDivides` | crates/snell-protocol/src/codec/v4/padding.rs:123-138 | The zone is a multiple of the span. |
| `PaddingBits.CountOnes` | crates/snell-protocol/src/codec/v4/padding.rs:4-15 | Counting words and then bytes gives the bit count over the length rounded down to a multiple of four. |
| `Generators.FillOfficial` | crates/snell-protocol/src/codec/v6/profile/mod.rs:367-375 | Whichever generator runs, each byte is what the per-byte rule says. |
| `Generators.Generator0` | crates/snell-protocol/src/codec/v6/profile/mod.rs:506-534 | The blocked table lookup is the per-byte rule, and every byte comes out with the record's number of set bits. |
| `Generators.BuildTable` | crates/snell-protocol/src/codec/v6/profile/mod.rs:649-666 | The shared table holds the rule's byte for every target, position and byte. |
| `Generators.Rule0Exact` | crates/snell-protocol/src/codec/v6/profile/mod.rs:693-715 | That rule gives every byte exactly the target number of set bits. |
| `Generators.TransformByte` | crates/snell-protocol/src/codec/v6/profile/mod.rs:693-715 | The bit loop is that rule. |
| `Generators.Generator1` | crates/snell-protocol/src/codec/v6/profile/mod.rs:536-556 | Generator 1 in place is its per-byte rule. |
| `Generators.RemainderExact` | crates/snell-protocol/src/codec/v6/profile/mod.rs:672-691 | The reciprocal is the true remainder, with no 32-bit overflow. |
| `Generators.Generator2` | crates/snell-protocol/src/codec/v6/profile/mod.rs:558-567 | Generator 2 in place is its per-byte rule. |
| `Generators.PackDigits` | crates/snell-protocol/src/codec/v6/profile/mod.rs:563-565 | Shifts, masks and a disjunction on wrapping bytes give the two digits as residues. |
| `Generators.Generator3` | crates/snell-protocol/src/codec/v6/profile/mod.rs:569-599 | The run-and-repeat form is the per-byte rule for every length. |
| `Pools.Pool.Interleave` | crates/snell-runtime/src/buffer.rs:49-200 | Over any interleaving of the atomic steps of any leases: the cache stays bounded and its blocks empty, no allocation is in two places, a granted request has its room, a lease without a shard holds nothing, live bytes change only as their holder uses or closes a lease, and whenever no step is in flight the counter is the sum of leased capacities. |
| `Pools.Pool.Settle` | crates/snell-runtime/src/buffer.rs:120-157 | From any state, leases that only go on with what they are doing all finish within a stated number of steps, in any order, with their live bytes as they were. |
| `Pools.Pool.Shutdown` | crates/snell-runtime/src/buffer.rs:193-200 | Once every lease is dropped and done, nothing is leased. |
| `Pools.Pool.Step` | crates/snell-runtime/src/buffer.rs:49-200 | What each step does to its lease, and that it touches no other. |
| `Pools.Pool.Advance` | crates/snell-runtime/src/buffer.rs:79-157 | A lease in the middle of something comes strictly closer to its end and keeps its live bytes. |
| `Pools.Pool.Request` | crates/snell-runtime/src/buffer.rs:120-129 | Refused past the maximum, answered at once when there is room, or looked for from the lease's shard on. |
| `Pools.Pool.Pop` | crates/snell-runtime/src/buffer.rs:86-91 | One pop of the scan: the block is taken if it fits, held to be put back if not, and an emptied queue ends the look at it. |
| `Pools.Pool.PushBack` | crates/snell-runtime/src/buffer.rs:92 | An undersized block goes back to the end of its queue, unless returns have filled its place: then it is dropped. |
| `Pools.Pool.TakeSuitable` | crates/snell-runtime/src/buffer.rs:79-96 | Undisturbed, the scan takes a block that fits and loses no other, or there is none in the cache and the cache is as it was. |
| `Pools.Pool.ScanQueue` | crates/snell-runtime/src/buffer.rs:81-93 | Undisturbed, the look at one queue takes the first block that fits and rotates the ones before it, or leaves the queue as it was. |
| `Pools.Pool.Allocate` | crates/snell-runtime/src/buffer.rs:132-143 | A new block of the smallest class that will do, or the exact reason why not, with the lease as it was. |
| `Pools.Pool.Swap` | crates/snell-runtime/src/buffer.rs:147-150 | Growth copies exactly the live bytes into the new block and clears the old one. |
| `Pools.Pool.Discard` | crates/snell-runtime/src/buffer.rs:151-156 | The replaced block comes off the counter and is not cached. |
| `Pools.Pool.Cache` | crates/snell-runtime/src/buffer.rs:98-106 | A returned block is cleared and cached if it is not too large and its queue has room. |
| `Pools.Pool.ReleaseEmpty` | crates/snell-runtime/src/buffer.rs:163-169 | Storage and shard are given up just when nothing is live. |
| `Pools.Pool.Drop` | crates/snell-runtime/src/buffer.rs:193-200 | A dropped lease holds nothing and its storage is on its way back. |
| `Pools.Pool.Get` | crates/snell-runtime/src/buffer.rs:55-69 | A new lease is empty, takes the next shard in turn, and leaves the others as they were. |
| `Pools.Pool.Draw` | crates/snell-runtime/src/buffer.rs:57 | The new lease takes the oldest block of its shard, if there is one. |
| `Pools.ClassFor` | crates/snell-runtime/src/buffer.rs:133-137 | The smallest size class that holds the request, exactly when one does. |
| `Pools.QuietTotal` | crates/snell-runtime/src/buffer.rs:50-53 | With no step in flight the debts are the capacities. |
| `Pools.ExclusiveUpdates` | crates/snell-runtime/src/buffer.rs:20-27 | Moving blocks between a lease and the queues, none appearing, keeps every allocation in one place. |
| `Pools.Pool.Ensure` | crates/snell-runtime/src/buffer.rs:120-157 | A request to the pool and the lease's own steps, with any steps of other leases in between, give its user exactly what `Leases.Ensure` promises; only a refused allocation makes it an I/O error. |
| `Leases.Ensure` | crates/snell-runtime/src/buffer.rs:120-157 | A lease as its user sees it: room for the request and the same live bytes, or nothing changed, for a request past the maximum or the largest class, or after a counted allocation failure. |
| `Replay.ReplayCache.Insert` | crates/snell-runtime/src/replay.rs:41-64 | With times that never go back, a salt is rejected exactly when it is among the last accepted up to the capacity and younger than the lifetime. |
| `Replay.ReplayCache.Expire` | crates/snell-runtime/src/replay.rs:47-53 | Leaves exactly the queue's salts within their lifetime, indexed. |
| `Socks5.ReadMessage` | crates/snell-runtime/src/client/socks.rs:15-61 | Whatever the peer sends, the read loop's outcome is the one-shot parse of all of it; a message is read to its last byte and not past it, and the fixed buffer is never too small. |
| `Socks5.MessageRoundTrip` | crates/snell-protocol/src/socks5.rs:194-220 | Requests and replies round trip whatever follows, and every proper prefix asks for more, by no more than the message. |
| `Socks5.GreetingRoundTrip` | crates/snell-protocol/src/socks5.rs:150-180 | The same for greetings. |
| `Socks5.GreetingRoundTripExactly` | crates/snell-protocol/src/socks5.rs:170-180 | A greeting round trips exactly when it has at most 255 methods. |
| `Socks5.MessagesSteadfast` | crates/snell-protocol/src/socks5.rs:259-342 | For any bytes, more input never changes a decided parse, and an undecided one never asks past the message. |
| `Socks5.UdpRoundTrip` | crates/snell-protocol/src/socks5.rs:222-256 | Datagram headers and payload round trip. |
| `Socks5.EncodeThreeAddr` | crates/snell-protocol/src/socks5.rs:279-319 | Writes exactly the message at the front of the buffer, or nothing and the exact reason. |

## Left out

- AES-128-GCM, Argon2id, BLAKE2b and the bit mixing of the keyed functions: arbitrary functions here.
- The floating-point choice of a padding bit target in `fill_v4_padding`: any target within the padding is covered.
- PaddingBits.BitRng.Pick: its rejection loop ends only if the entropy does not stay above the zone for ever; the model draws from a finite supply and reports an entropy error when it runs out.
- Pools.Pool.Interleave: the atomic operations are taken in one order all threads see, and the counters do not wrap at the word size.
- Relay.RelaySession: the receiver runs over what the sender has written once the sender has stopped, for whatever reason; a receiver that runs beside the sender sees that output as a stream that stalls, which its polls already allow.
- Writers.WritePlainRecords: waits are bounded by a parameter, so that every finite schedule is covered.
- Replay.ReplayCache.Insert: one atomic step with times that never go back; the code reads the clock before it takes the lock.
- Three encoder and three decoder types become one of each over a format and a plan; installing a key derived elsewhere and the salt accessors of the decoders are not part of this model.
- The 32-bit offsets of batch entries: session buffers are far below that limit.
- Protocol detection over a shared prefix, the Snell control messages, handshake reassembly and the early-payload drain are not part of this model.
- Sockets, timeouts, DNS, dialing, configuration, logging, the reuse pool and UDP sessions.
- The command and reply code enumerations of SOCKS5: the model keeps the code byte.
