# Models of the protocol cores that NoteWithFireStore vendors

The app compiles two C and C++ libraries into itself whose correctness everything else rests on: nanopb, the
Protocol Buffers codec, and BoringSSL, the TLS and DTLS stack. This project models five of their cores and proves
what they are for. `dafny verify dfyconfig.toml` checks all of it.

- **nanopb wire codec** (`Pb*`). `PbFormat` gives the wire format over byte sequences, driven by descriptors with
  submessages, unions, packed arrays and required fields. `PbEncoder` and `PbDecoder` are the code's own loops over
  streams with a cursor, and each is proved to do exactly what the format says, failures included. On the format:
  decoding undoes encoding, decoding is compositional, sizing agrees with writing.
- **DTLS handshake transport and records** (`Dtls*`, `AeadNonce`). Fragmentation under an MTU, the reassembly bitmask
  and the ring of partly assembled messages, retransmission with rollback, the anti-replay window, sequence numbers of
  two epochs, nonces. The network drops, duplicates and reorders (RFC 6347).
- **TLS output path** (`TlsBuffer`, `TlsOutput`). Whatever prefix the transport takes, whenever it fails, the bytes
  that went out, the write buffer and the rest of the flight are together what was sealed, in order.
- **Handshake machines up to TLS 1.2** (`Handshake*`, `CipherChoice`, `ConstantTime`). Safety of each machine against
  any peer; the two composed over ordered channels never fail, never deadlock and finish; the cipher choice is
  optimal; the branch-free RSA unpadding equals the branching one (RFC 5246, section 7.4.7.1).
- **Reference counts** (`Refcount`). The compare-and-swap loops refine the counter under a lock.

Code that works step by step is modelled by classes and methods with the code's own fields and loops, each proved
against a function that says what it computes; the theorems are about these functions. Cryptography is an oracle; the
transport, the allocator, callbacks and the scheduler are nondeterministic.

## What the proofs turned up

- The 32-bit varint reader does not limit the length: zero groups may go on past ten bytes, where the 64-bit reader
  stops. `PbVarint.ReadersAgree` has the exact condition, `PbVarint.OverlongVarint` an input. Its bit position is a
  uint_fast8_t, modelled as eight bits: after 37 bytes it has wrapped and groups are ORed into the low bits again
  (`PbVarint.PositionWraps`).
- The 32-bit reader's sign-extension rule looks at each byte on its own, so besides 32-bit and sign-extended values it
  takes others; `PbVarint.Varint32Accepts` says exactly which, `PbVarint.LaxVarint` gives one.
- A message type without fields: its descriptor's terminator answers to tag 0 and decoding it fails (`PbCompose.UnknownFieldIgnored`,
  `PbCompose.FieldZeroOfEmpty`).
- The DTLS filter at `d1_both.cc:380-385` lets message `read_seq + 7` through, one more than the ring has room for; the
  check at 267-271 then ends the connection. `DtlsRuns.GenuineFatal` says when exactly, `DtlsRuns.TooFarAhead` shows it.
- `SSLBuffer` keeps its offset on 16 bits but grants requests up to 65535 behind an alignment of up to 7: consuming can
  then wrap the offset. A wrap to an empty buffer is harmless, so the exact bound is 65529 (`TlsBuffer.RightIffAtMost`);
  `TlsBuffer.OffsetWraps` takes the buffer past it. The conservation theorems hold as long as no larger request was made;
  `TlsOutput.Output.DoWrite` has the bound on flight, record and overhead that guarantees this.
- If sealing fails in the middle of a packet, send_flight has already advanced past messages it did not send. The
  position is then right if and only if the message that the failing packet starts with fails by itself: it has no
  key, is not whole, finds no room for a byte, is refused by the AEAD under the next number, or that number is the last
  (`DtlsSend.Sender.SendFlight`, for MTUs up to what a record can hold). `DtlsStall.SealFailsInPacket` is a flight
  where it is wrong, and `DtlsStall.RetransmitRecovers` the way out of it.
- When the sequence number overflows it has wrapped to zero before the failure is reported (`DtlsSeal.SequenceUpdate`).
  A use repeats an earlier one if and only if that has happened in its epoch (`DtlsSeal.RepeatsIffWrapped`).
- ssl3_write_app_data forgets how far it had come (`wnum`) when it is called with a length that has shrunk between
  retries. `TlsOutput.Output.WriteOther` says exactly when the original write can still be resumed,
  `TlsOutput.Output.ShrunkRetry` what happens when it is tried all the same, and `TlsOutput.SealedTwice` shows it from a
  new connection on.
- ssl3_flush_flight reports success without a flight even if the write buffer holds the bytes of one, which happens
  when sealing fails after do_ssl3_write has moved it there. `TlsOutput.Output.FlushFlight` has the exact condition,
  `TlsOutput.FlushedTooSoon` shows it.

## Model

| member | source | states |
|---|---|---|
| PbRoundTrip.MessageRoundTrip | NoteWithFireStore/Pods/nanopb/pb_decode.c:901-1063 | Round trip at every nesting depth: encoding a message that its schema can carry never fails, and decoding those bytes into a freshly initialised struct succeeds, uses all of them and gives back exactly that message |
| PbEndToEnd.ThroughBuffer | NoteWithFireStore/Pods/nanopb/pb_decode.c:901-1063 | The same through the code of both: encoding into a buffer succeeds exactly if the message fits, and decoding what was written there gives the message back |
| PbEncoder.Encode | NoteWithFireStore/Pods/nanopb/pb_encode.c:494-516 | Succeeds exactly if the message has an encoding and it fits; appends exactly those bytes, touches nothing before them or past the limit, and counts the same number on a sizing stream |
| PbDecoder.Decode | NoteWithFireStore/Pods/nanopb/pb_decode.c:1051-1063 | On any input: terminates, succeeds exactly if the wire format accepts the input on top of the defaults, and leaves precisely the message it denotes in the struct and the rest in the stream |
| PbCompose.DecodeConcat | NoteWithFireStore/Pods/nanopb/pb_decode.c:919-997 | If a, without a zero tag, decodes and b then decodes on top of the result, a ++ b decodes to the same message |
| PbCompose.UnknownFieldIgnored | NoteWithFireStore/Pods/nanopb/pb_decode.c:933-962 | A well-formed field whose tag is not in the schema, inserted at a field boundary, changes neither the outcome nor the message; the one exception is tag 0 in a message type without fields, which always fails |
| PbCompose.FieldZeroOfEmpty | NoteWithFireStore/Pods/nanopb/pb_decode.c:933-962 | The exception at work: a message without fields decodes from no bytes, and fails on a well-formed field with tag 0 |
| PbEncoder.GetEncodedSize | NoteWithFireStore/Pods/nanopb/pb_encode.c:533-542 | Fails exactly if the message has no encoding; otherwise the size is that of the bytes that would be written |
| PbEncoder.EncodeSubmessage | NoteWithFireStore/Pods/nanopb/pb_encode.c:682-730 | The counted size is written, then exactly that many bytes; the two passes never disagree, so the submessage is never refused for a changed size |
| PbEncoder.WriteSubmessage | NoteWithFireStore/Pods/nanopb/pb_encode.c:702-729 | The second pass through a substream limited to the counted size always succeeds and uses up the limit |
| PbFieldIter.FieldIter.Find | NoteWithFireStore/Pods/nanopb/pb_common.c:78-95 | From any position: finds a tag exactly if a linear search does, with distinct tags the same field, and then has the data offset and required index of a linear walk; otherwise it is back where it was |
| PbFieldIter.CheckRequired | NoteWithFireStore/Pods/nanopb/pb_decode.c:1016-1046 | The mask test accepts exactly if each of the first 64 required fields was met |
| PbVarint.Varint64RoundTrip | NoteWithFireStore/Pods/nanopb/pb_decode.c:250-270 | Every 64-bit value takes at most ten bytes and is read back, whatever follows |
| PbVarint.Varint32RoundTrip | NoteWithFireStore/Pods/nanopb/pb_decode.c:182-242 | The 32-bit reader returns every 32-bit value from its encoding |
| PbVarint.ReadersAgree | NoteWithFireStore/Pods/nanopb/pb_decode.c:182-270 | Whenever the 32-bit reader succeeds, the 64-bit one does exactly if the first unflagged byte is among the first ten, and then both stop at the same byte and agree modulo 2^32 |
| PbVarint.OverlongVarint | NoteWithFireStore/Pods/nanopb/pb_decode.c:199-232 | A twelve-byte varint that the 32-bit reader accepts and the 64-bit reader refuses: the 32-bit reader does not count its bytes |
| PbVarint.PositionWraps | NoteWithFireStore/Pods/nanopb/pb_decode.c:192-236 | After 37 flagged zero bytes the 8-bit position has wrapped to 3, and a byte 1 there makes the value 8 |
| PbVarint.Varint32Accepts | NoteWithFireStore/Pods/nanopb/pb_decode.c:182-242 | Exactly which 64-bit values the 32-bit reader takes from their encoding: those that fit 32 bits, and those with bits 63 and 31 set whose whole groups between bits 35 and 62 are each all ones or all zeros |
| PbVarint.SignExtended | NoteWithFireStore/Pods/nanopb/pb_decode.c:212-225 | Every negative 32-bit value is taken in its encoding sign-extended to 64 bits, as its 32-bit pattern |
| PbVarint.LaxVarint | NoteWithFireStore/Pods/nanopb/pb_decode.c:212-225 | A value that is neither a 32-bit one nor sign-extended, and is taken |
| PbVarint.ZigZagRoundTrip | NoteWithFireStore/Pods/nanopb/pb_decode.c:1240-1252 | Zigzag and its inverse are mutually inverse on all signed and all unsigned 64-bit values |
| PbVarint.ZigZagOfNegative | NoteWithFireStore/Pods/nanopb/pb_encode.c:596-605 | The shift-and-complement form computes 2n for n >= 0 and -2n-1 below |
| PbStream.IStream.Read | NoteWithFireStore/Pods/nanopb/pb_decode.c:100-132 | Delivers exactly count bytes and moves past them, or nothing; the end of the stream stays where it is |
| PbStream.IStream.ReadByte | NoteWithFireStore/Pods/nanopb/pb_decode.c:136-152 | One byte, or a failure at the end of the stream |
| PbStream.OStream.Write | NoteWithFireStore/Pods/nanopb/pb_encode.c:101-119 | All or nothing: appends the data if it fits under the limit, else changes no byte; counts alone without a buffer |
| PbStream.Steps | NoteWithFireStore/Pods/nanopb/pb_encode.c:101-119 | Two steps that each append what they should together append the concatenation, within the same limit |
| PbDecoder.DecodeVarint32Eof | NoteWithFireStore/Pods/nanopb/pb_decode.c:182-242 | Exactly the values and failures of the 32-bit wire reading; eof exactly on an empty stream |
| PbDecoder.DecodeVarint32 | NoteWithFireStore/Pods/nanopb/pb_decode.c:244-247 | Exactly the values and failures of the 32-bit wire reading, end of stream included |
| PbDecoder.DecodeVarint | NoteWithFireStore/Pods/nanopb/pb_decode.c:250-270 | ORing the shifted groups into 64 bits gives the value of the groups modulo 2^64, read from the same bytes |
| PbDecoder.DecodeTag | NoteWithFireStore/Pods/nanopb/pb_decode.c:293-314 | Splits tag and wire type; a zero tag is an end of message, told apart from a malformed tag by eof |
| PbDecoder.SkipVarint | NoteWithFireStore/Pods/nanopb/pb_decode.c:273-282 | Passes over a varint of any length |
| PbDecoder.SkipString | NoteWithFireStore/Pods/nanopb/pb_decode.c:284-291 | Passes over a length prefix and that many bytes, or fails |
| PbDecoder.SkipField | NoteWithFireStore/Pods/nanopb/pb_decode.c:316-326 | Passes over the payload of a field of each wire type, and fails on unknown wire types |
| PbDecoder.MakeStringSubstream | NoteWithFireStore/Pods/nanopb/pb_decode.c:367-380 | The substream holds exactly the announced bytes, what is left to the parent is exactly what follows them, and it fails if fewer are there |
| PbDecoder.CloseStringSubstream | NoteWithFireStore/Pods/nanopb/pb_decode.c:382-395 | The parent goes on where the substream stopped |
| PbDecoder.DecodeNum | NoteWithFireStore/Pods/nanopb/pb_decode.c:1289-1372 | Varint, unsigned and zigzag fields of each width: the value that fits, or an overflow error |
| PbDecoder.DecodeFixed | NoteWithFireStore/Pods/nanopb/pb_decode.c:1254-1286 | Four or eight little-endian bytes |
| PbDecoder.DecodeBlob | NoteWithFireStore/Pods/nanopb/pb_decode.c:1391-1461 | Byte and string fields: length limits, NUL terminator, fixed-length bytes |
| PbDecoder.DecodeValue | NoteWithFireStore/Pods/nanopb/pb_decode.c:401-475 | Each field type is decoded as the wire format says, a submessage on top of what the field holds |
| PbDecoder.DecodeSubmessage | NoteWithFireStore/Pods/nanopb/pb_decode.c:1463-1485 | Array entries start from defaults, other submessages are merged; the parent ends up behind the length announced |
| PbDecoder.DecodePackedArray | NoteWithFireStore/Pods/nanopb/pb_decode.c:415-446 | Entries are appended until the payload is used up; it fails on an overfull array |
| PbDecoder.DecodeStaticField | NoteWithFireStore/Pods/nanopb/pb_decode.c:401-475 | What arrives for a field replaces, extends or merges into its own slot and no other |
| PbDecoder.DecodeEntry | NoteWithFireStore/Pods/nanopb/pb_decode.c:940-997 | An unknown field is skipped, a known one decoded; a required one is marked as seen |
| PbDecoder.DecodeNoinit | NoteWithFireStore/Pods/nanopb/pb_decode.c:901-1049 | The field loop on any input: terminates, and agrees with the wire format in outcome, message and remaining bytes, required fields included |
| PbDecoder.FieldDefault | NoteWithFireStore/Pods/nanopb/pb_decode.c:812-882 | What a field holds in a fresh struct, by type and rule |
| PbDecoder.SetToDefaults | NoteWithFireStore/Pods/nanopb/pb_decode.c:884-895 | Every member ends up at the default of its field, union members included |
| PbFormat.FindFieldAt | NoteWithFireStore/Pods/nanopb/pb_common.c:78-95 | With distinct tags a linear search finds each field under its own tag |
| PbSchema.SlotOfDistinct | NoteWithFireStore/Pods/nanopb/pb_common.c:20-76 | Only members of the same union share storage |
| PbSchema.DefaultSlotsAt | NoteWithFireStore/Pods/nanopb/pb_decode.c:884-895 | Every field finds its own default in a fresh struct |
| PbFieldIter.FieldIter.Next | NoteWithFireStore/Pods/nanopb/pb_common.c:20-76 | Steps to the next field with its offset and required index, and reports wrapping round |
| PbFieldIter.MarkSeen | NoteWithFireStore/Pods/nanopb/pb_decode.c:985-993 | Sets the bit of that required field and no other, and none past 64 |
| PbFieldIter.WordFull | NoteWithFireStore/Pods/nanopb/pb_decode.c:1027-1045 | A mask word equals all ones, or all ones shifted right, exactly if every field it stands for was seen |
| PbFieldIter.MetByIndices | NoteWithFireStore/Pods/nanopb/pb_decode.c:1006-1046 | The required fields are met exactly if all their indices below 64 were seen |
| PbEncoder.EncodeVarint | NoteWithFireStore/Pods/nanopb/pb_encode.c:574-594 | The loop emits the groups of seven bits, least significant first, all but the last flagged |
| PbEncoder.EncodeFixed32 | NoteWithFireStore/Pods/nanopb/pb_encode.c:607-616 | Four little-endian bytes |
| PbEncoder.EncodeFixed64 | NoteWithFireStore/Pods/nanopb/pb_encode.c:619-632 | Eight little-endian bytes |
| PbEncoder.EncodeTagForField | NoteWithFireStore/Pods/nanopb/pb_encode.c:641-672 | The wire type that belongs to the field type, with the field number |
| PbEncoder.EncodeNum | NoteWithFireStore/Pods/nanopb/pb_encode.c:734-791 | Integers of each width, with sign extension or zigzag; fails on an unknown width |
| PbEncoder.CStringLength | NoteWithFireStore/Pods/nanopb/pb_encode.c:846-852 | The bytes before the first NUL, at most the size of the buffer |
| PbEncoder.EncodeValue | NoteWithFireStore/Pods/nanopb/pb_encode.c:734-868 | Each field type in its own encoding |
| PbEncoder.PackedSize | NoteWithFireStore/Pods/nanopb/pb_encode.c:145-165 | The size of a packed payload, computed for fixed-width entries and counted for the others, is the size of what is then written |
| PbEncoder.EncodePackedArray | NoteWithFireStore/Pods/nanopb/pb_encode.c:135-187 | The payload written has the announced length |
| PbEncoder.EncodeArray | NoteWithFireStore/Pods/nanopb/pb_encode.c:126-211 | Packed or one tag per entry; more entries than the array holds are an error; nothing for an empty array |
| PbEncoder.CheckDefault | NoteWithFireStore/Pods/nanopb/pb_encode.c:215-303 | A proto3 field counts as absent exactly if it is zero, recursively for submessages |
| PbEncoder.EncodeBasicField | NoteWithFireStore/Pods/nanopb/pb_encode.c:307-392 | By rule: required always, optional if present, singular if not zero, union member if selected |
| PbRoundTrip.ValueRoundTrip | NoteWithFireStore/Pods/nanopb/pb_decode.c:401-475 | Any value that fits its field is read back, whatever follows; a submessage on top of its defaults |
| PbRoundTrip.PackedRoundTrip | NoteWithFireStore/Pods/nanopb/pb_encode.c:135-187 | A packed array is read back entry by entry |
| PbRoundTrip.FieldStep | NoteWithFireStore/Pods/nanopb/pb_decode.c:940-997 | Reading the bytes of one field fills in its slot and leaves the loop in front of the next field |
| PbRoundTrip.LoopRoundTrip | NoteWithFireStore/Pods/nanopb/pb_decode.c:919-997 | Reading the bytes of all fields from i on fills in exactly the present ones |
| PbRoundTrip.AbsentIsDefault | NoteWithFireStore/Pods/nanopb/pb_encode.c:215-303 | What is not put on the wire is what the decoder fills in by itself |
| PbRoundTrip.NumRoundTrip | NoteWithFireStore/Pods/nanopb/pb_decode.c:1289-1372 | Integers of every width and signedness survive encoding and decoding |
| PbRoundTrip.TagRoundTrip | NoteWithFireStore/Pods/nanopb/pb_decode.c:293-314 | Every field number up to 2^29-1 and wire type is read back |
| PbRoundTrip.BlobRoundTrip | NoteWithFireStore/Pods/nanopb/pb_decode.c:1391-1461 | Length-prefixed bytes are read back |
| PbCompose.LoopConcat | NoteWithFireStore/Pods/nanopb/pb_decode.c:919-997 | Where the loop stands after a is where it goes on with b |
| PbCompose.SeenIsCarried | NoteWithFireStore/Pods/nanopb/pb_decode.c:985-993 | What was seen before does not influence the struct and stays seen |
| DtlsRuns.ReadyIffCovered | NoteWithFireStore/Pods/BoringSSL-GRPC/ssl/d1_both.cc:297-424 | After any delivery of genuine fragments, dropped, repeated, reordered and cut in any way, the next message is reported complete exactly if what arrived covers its body, and then body and type are those sent |
| DtlsEndToEnd.CompletePassSuffices | NoteWithFireStore/Pods/BoringSSL-GRPC/ssl/d1_both.cc:644-845 | If every record of one complete pass of the sender over the flight that carries part of the expected message arrives at some time, in any order, the message is complete and is the one sent |
| DtlsEndToEnd.EmittedGenuine | NoteWithFireStore/Pods/BoringSSL-GRPC/ssl/d1_both.cc:644-734 | Every handshake record a flight emits carries a piece of a message sent, at its right offset, whatever the MTUs and wherever writing was resumed |
| DtlsEndToEnd.FlightCovers | NoteWithFireStore/Pods/BoringSSL-GRPC/ssl/d1_both.cc:644-780 | Fragments leave no gap: every byte before the current position was in some record |
| DtlsEndToEnd.FlightMentions | NoteWithFireStore/Pods/BoringSSL-GRPC/ssl/d1_both.cc:644-780 | A message written past is carried by at least one record, even an empty one |
| DtlsEndToEnd.AdvanceCarries | NoteWithFireStore/Pods/BoringSSL-GRPC/ssl/d1_both.cc:688-733 | The next record from a message is its piece from the current offset on |
| DtlsRuns.RingReachable | NoteWithFireStore/Pods/BoringSSL-GRPC/ssl/d1_both.cc:265-295 | In every reachable state the occupied slot i holds a message numbered i modulo 7 within the window, so the assertion on the slot never fires |
| DtlsRuns.InOrderExactlyOnce | NoteWithFireStore/Pods/BoringSSL-GRPC/ssl/d1_both.cc:408-438 | Messages 0, 1, 2, ... are handed up, each once, in this order and only when complete |
| DtlsRuns.HandedUpAsSent | NoteWithFireStore/Pods/BoringSSL-GRPC/ssl/d1_both.cc:297-438 | Every message handed up has the type and body of the one sent under its number |
| DtlsRuns.Reassembly | NoteWithFireStore/Pods/BoringSSL-GRPC/ssl/d1_both.cc:351-406 | The ring holds of every message in its window exactly the bytes heard of it, as sent |
| DtlsRuns.GenuineFatal | NoteWithFireStore/Pods/BoringSSL-GRPC/ssl/d1_both.cc:362-389 | A genuine fragment ends the connection exactly if its message is too long, or another than the expected one in the encrypted epoch, or 7 messages ahead, where the filter lets it through to the check behind; each with its own alert |
| DtlsRuns.TooFarAhead | NoteWithFireStore/Pods/BoringSSL-GRPC/ssl/d1_both.cc:380-389 | The concrete case: message 7 is fatal before anything was received, message 8 is ignored |
| DtlsRuns.ArriveFaithful | NoteWithFireStore/Pods/BoringSSL-GRPC/ssl/d1_both.cc:265-295 | A genuine fragment within the window is never refused |
| DtlsRuns.HeardBeyond | NoteWithFireStore/Pods/BoringSSL-GRPC/ssl/d1_both.cc:376-385 | Nothing is kept of messages past the window |
| DtlsReceive.Receiver.GetIncomingMessage | NoteWithFireStore/Pods/BoringSSL-GRPC/ssl/d1_both.cc:265-295 | The slot of the message, new if it is the first heard of it; refused if too far ahead or in conflict with earlier fragments, the ring then unchanged |
| DtlsReceive.Receiver.DeliverFragment | NoteWithFireStore/Pods/BoringSSL-GRPC/ssl/d1_both.cc:362-402 | One fragment does to the ring what the step function says: refused, ignored or merged |
| DtlsReceive.Receiver.DeliverRecord | NoteWithFireStore/Pods/BoringSSL-GRPC/ssl/d1_both.cc:350-405 | All fragments of a record in order, with the alert of the first that fails |
| DtlsReceive.Receiver.GetMessage | NoteWithFireStore/Pods/BoringSSL-GRPC/ssl/d1_both.cc:408-424 | The next message exactly if it is complete |
| DtlsReceive.Receiver.NextMessage | NoteWithFireStore/Pods/BoringSSL-GRPC/ssl/d1_both.cc:426-438 | Frees the slot and moves the window on |
| DtlsReceive.Receiver.HasUnprocessed | NoteWithFireStore/Pods/BoringSSL-GRPC/ssl/d1_both.cc:440-457 | Whether anything but the current message is held |
| DtlsReceive.DeliverKeepsRing | NoteWithFireStore/Pods/BoringSSL-GRPC/ssl/d1_both.cc:265-295 | Every delivery keeps slot numbers congruent and in the window |
| DtlsReceive.AcceptKeepsRing | NoteWithFireStore/Pods/BoringSSL-GRPC/ssl/d1_both.cc:211-251 | A complete message is never taken back by a later fragment |
| DtlsReceive.PopKeepsRing | NoteWithFireStore/Pods/BoringSSL-GRPC/ssl/d1_both.cc:426-438 | The message handed up is the expected one, and dropping it keeps the ring |
| DtlsFragment.HmFragment.Mark | NoteWithFireStore/Pods/BoringSSL-GRPC/ssl/d1_both.cc:211-251 | The mask then stands for the old positions and start to end, no bit at or past the length is set, and it is released exactly when the whole body is covered |
| DtlsFragment.SetBits | NoteWithFireStore/Pods/BoringSSL-GRPC/ssl/d1_both.cc:219-232 | Sets exactly the bits from start to end across byte boundaries |
| DtlsFragment.AllBitsSet | NoteWithFireStore/Pods/BoringSSL-GRPC/ssl/d1_both.cc:234-250 | Detects exactly the full mask, the last partial byte included |
| DtlsFragment.OrIntoByte | NoteWithFireStore/Pods/BoringSSL-GRPC/ssl/d1_both.cc:203-232 | ORing a bit range into a byte adds just those positions |
| DtlsFragment.BitRangeBits | NoteWithFireStore/Pods/BoringSSL-GRPC/ssl/d1_both.cc:203-205 | The shifted mask has exactly the bits from start up to end |
| DtlsFragment.ByteIs | NoteWithFireStore/Pods/BoringSSL-GRPC/ssl/d1_both.cc:234-250 | A byte equals the mask of its low n bits exactly if those n positions are held |
| DtlsFragment.HmFragment.constructor | NoteWithFireStore/Pods/BoringSSL-GRPC/ssl/d1_both.cc:152-199 | A new message has its header filled in, no byte marked, and no mask if it is empty |
| DtlsFragment.HmFragment.Receive | NoteWithFireStore/Pods/BoringSSL-GRPC/ssl/d1_both.cc:393-402 | Copies a piece into place and marks it, unless the message is already complete |
| DtlsFragment.ParseSerialized | NoteWithFireStore/Pods/BoringSSL-GRPC/ssl/d1_both.cc:459-473 | Parsing a serialised fragment gives it back, whatever follows |
| DtlsFragment.SerializeParsed | NoteWithFireStore/Pods/BoringSSL-GRPC/ssl/d1_both.cc:459-473 | Whatever parses is the serialisation of what was parsed |
| DtlsSend.Sender.SendFlight | NoteWithFireStore/Pods/BoringSSL-GRPC/ssl/d1_both.cc:782-827 | Terminates; each packet the transport took is at most the MTU, and together they lead from the old position to a place from which the records of an unfinished packet lead to the new position; a refused packet is rolled back; sent means all of it; it fails only on shutdown, if a record cannot be sealed, or if the MTU has no room for any of the next message. After a failure the position is where the transport has been brought if and only if the message there fails by itself: no key, not whole, no room for a byte, refused by the AEAD under the number that is next, or that number the last |
| DtlsSend.Sender.SendPackets | NoteWithFireStore/Pods/BoringSSL-GRPC/ssl/d1_both.cc:797-820 | The loop: packets taken, position and unsent records fit together after every round; the transport alone can block it |
| DtlsSend.Sender.SendPacket | NoteWithFireStore/Pods/BoringSSL-GRPC/ssl/d1_both.cc:798-819 | One packet: taken and the position moves over exactly its records; refused and it is where it was; not finished and it is past the records that were sealed for it |
| DtlsSend.RightIffNothingUnsent | NoteWithFireStore/Pods/BoringSSL-GRPC/ssl/d1_both.cc:745-819 | After a failed packet the position is where the transport has been brought if and only if no record had been sealed for it; SendFlight has this as a condition on the message the packet starts with |
| DtlsStall.SealFailsInPacket | NoteWithFireStore/Pods/BoringSSL-GRPC/ssl/d1_both.cc:739-780 | A flight that shows it: the AEAD seals the ChangeCipherSpec but not the Finished behind it; nothing went out, and the position is past the ChangeCipherSpec |
| DtlsStall.RetransmitRecovers | NoteWithFireStore/Pods/BoringSSL-GRPC/ssl/d1_both.cc:836-845 | From there a retransmission with a working AEAD and transport puts the whole flight on the wire |
| DtlsStall.OneUnsent | NoteWithFireStore/Pods/BoringSSL-GRPC/ssl/d1_both.cc:745-768 | When the AEAD refuses one epoch, a failed flight that begins in the epoch before has sealed one record and sent none |
| DtlsSend.Sender.SealNextPacket | NoteWithFireStore/Pods/BoringSSL-GRPC/ssl/d1_both.cc:739-780 | On success at least one record, and no room for one more byte of the next message; never over the limit; fails only if a record cannot be sealed or nothing fits; in every case the records lead exactly from the old position to the new one, and there are none exactly if the first message fails by itself |
| DtlsSend.Sender.SealNextMessage | NoteWithFireStore/Pods/BoringSSL-GRPC/ssl/d1_both.cc:644-734 | The piece from the current offset, in the epoch of its message, and so long that nothing more fits behind it; no progress exactly where not even one byte fits; up to the length a record can have it makes no record exactly if the message has no key, is not whole, finds no room, is refused by the AEAD under the next number, or that number is the last |
| DtlsSend.Sender.SealAs | NoteWithFireStore/Pods/BoringSSL-GRPC/ssl/d1_both.cc:669-726 | The record sealed is of the epoch asked for, takes the next number of that epoch and is longer than its payload by at most the overhead; refused exactly by the AEAD or by a counter at its end, as long as the length fits its field |
| DtlsSend.Sender.FlushFlight | NoteWithFireStore/Pods/BoringSSL-GRPC/ssl/d1_both.cc:829-834 | As send_flight, failures included, with the flight marked complete |
| DtlsSend.Sender.Retransmit | NoteWithFireStore/Pods/BoringSSL-GRPC/ssl/d1_both.cc:836-845 | As send_flight from the start of the flight, wherever an earlier call left the position |
| DtlsSend.Sender.AddOutgoing | NoteWithFireStore/Pods/BoringSSL-GRPC/ssl/d1_both.cc:555-594 | Appends to the flight, or begins a new one after a complete one; at most 7 messages |
| DtlsSend.Sender.BuildMessage | NoteWithFireStore/Pods/BoringSSL-GRPC/ssl/d1_both.cc:511-537 | A message serialised as one whole fragment |
| DtlsSend.FixUpHeader | NoteWithFireStore/Pods/BoringSSL-GRPC/ssl/d1_both.cc:525-537 | Copying the fragment length over the total length makes the header of a whole message |
| DtlsSend.Sender.UpdateMtu | NoteWithFireStore/Pods/BoringSSL-GRPC/ssl/d1_both.cc:615-632 | The MTU ends up at least the minimum and a good one is kept |
| DtlsSend.FollowConcat | NoteWithFireStore/Pods/BoringSSL-GRPC/ssl/d1_both.cc:739-827 | Packets that follow one another carry the flight on from one to the next |
| DtlsReplay.ReplayWindow.ShouldDiscard | NoteWithFireStore/Pods/BoringSSL-GRPC/ssl/dtls_record.cc:140-150 | Discards exactly what was recorded in this epoch and what is 64 or more behind the newest |
| DtlsReplay.ReplayWindow.Record | NoteWithFireStore/Pods/BoringSSL-GRPC/ssl/dtls_record.cc:155-175 | Records that number and no other, and never lets the newest go back |
| DtlsReplay.WindowMoves | NoteWithFireStore/Pods/BoringSSL-GRPC/ssl/dtls_record.cc:161-168 | Sliding the map on 64 bits keeps what the window still reaches, also for shifts of 64 and more |
| DtlsReplay.SetInWindow | NoteWithFireStore/Pods/BoringSSL-GRPC/ssl/dtls_record.cc:170-174 | Setting bit max - s records s |
| DtlsReplay.RecordReader.OpenRecord | NoteWithFireStore/Pods/BoringSSL-GRPC/ssl/dtls_record.cc:177-272 | A record is opened exactly if it is acceptable, of this epoch, not accepted before, and every number accepted in the epoch is less than 64 ahead of it; otherwise the accepted numbers and the window stay as they were |
| DtlsReplay.RecordReader.SetReadState | NoteWithFireStore/Pods/BoringSSL-GRPC/ssl/dtls_method.cc:81-95 | A new epoch with an empty window whose newest number is zero |
| DtlsReplay.ToU64BE | NoteWithFireStore/Pods/BoringSSL-GRPC/ssl/dtls_record.cc:128-136 | The eight bytes as one big-endian number |
| DtlsSeal.NoNonceReuse | NoteWithFireStore/Pods/BoringSSL-GRPC/ssl/dtls_record.cc:294-351 | Over any run of seals, retransmissions and epoch changes no AEAD context sees a nonce twice before the counter of an epoch has wrapped, in every non-random nonce mode |
| DtlsSeal.NoReuse | NoteWithFireStore/Pods/BoringSSL-GRPC/ssl/dtls_record.cc:303-337 | Over any such run a pair of epoch and number is used a second time only after that epoch has used 2^48-1, so not within the first 2^48 uses |
| DtlsSeal.WrapRepeats | NoteWithFireStore/Pods/BoringSSL-GRPC/ssl/tls_record.cc:154-163 | That bound is met: after 2^48-1 the next use in the epoch is of a number used before |
| DtlsSeal.RepeatsIffWrapped | NoteWithFireStore/Pods/BoringSSL-GRPC/ssl/dtls_record.cc:303-337 | At any point of any run, for either epoch: a use repeats an earlier one if and only if the last number of its epoch was used before it |
| DtlsSeal.RunKeepsGood | NoteWithFireStore/Pods/BoringSSL-GRPC/ssl/dtls_record.cc:303-337 | After any run each counter is ahead of what was used in its epoch, unless that has wrapped, and no number is greater than the count of uses before it |
| DtlsSeal.UseFresh | NoteWithFireStore/Pods/BoringSSL-GRPC/ssl/dtls_record.cc:303-337 | Using the value of a counter that is ahead repeats nothing |
| DtlsSeal.UseKeepsAhead | NoteWithFireStore/Pods/BoringSSL-GRPC/ssl/dtls_record.cc:303-337 | Stepping the counter that was used keeps those of both epochs ahead |
| DtlsSeal.EndIsFar | NoteWithFireStore/Pods/BoringSSL-GRPC/ssl/dtls_record.cc:324-337 | No counter comes to its end within 2^48-1 events |
| DtlsSeal.RecordWriter.SealRecord | NoteWithFireStore/Pods/BoringSSL-GRPC/ssl/dtls_record.cc:294-351 | Succeeds exactly if the AEAD does, the record fits and the counter is not at its end; then reports the record under the old counter of its epoch. The counter steps exactly when the AEAD was used, the one of the other epoch never |
| DtlsSeal.RecordWriter.SetWriteState | NoteWithFireStore/Pods/BoringSSL-GRPC/ssl/dtls_method.cc:97-107 | The old key and counter become those of the previous epoch; the new one starts at zero; recorded as a change of epoch |
| DtlsSeal.SequenceUpdate | NoteWithFireStore/Pods/BoringSSL-GRPC/ssl/tls_record.cc:154-163 | The carry loop adds one to a big-endian number; fails exactly on overflow, having wrapped to zero |
| DtlsSeal.SeqNumInjective | NoteWithFireStore/Pods/BoringSSL-GRPC/ssl/dtls_record.cc:316-322 | Epoch and number together determine the sequence number |
| AeadNonce.NonceInjective | NoteWithFireStore/Pods/BoringSSL-GRPC/ssl/ssl_aead_ctx.cc:326-369 | Different variable parts make different nonces in every mode |
| AeadNonce.AssembleNonce | NoteWithFireStore/Pods/BoringSSL-GRPC/ssl/ssl_aead_ctx.cc:326-361 | Fixed part or padding, variable part and XOR in place give the nonce of the mode |
| AeadNonce.OpenSealed | NoteWithFireStore/Pods/BoringSSL-GRPC/ssl/ssl_aead_ctx.cc:225-405 | Open undoes Seal under the same header in every mode |
| AeadNonce.Seal | NoteWithFireStore/Pods/BoringSSL-GRPC/ssl/ssl_aead_ctx.cc:379-405 | Explicit nonce, then ciphertext, under the assembled nonce and additional data |
| AeadNonce.Open | NoteWithFireStore/Pods/BoringSSL-GRPC/ssl/ssl_aead_ctx.cc:225-294 | Splits off the explicit nonce and opens under the same nonce; short input is refused |
| AeadNonce.AdditionalDataBinds | NoteWithFireStore/Pods/BoringSSL-GRPC/ssl/ssl_aead_ctx.cc:203-223 | Additional data determines sequence number and type |
| AeadNonce.Create | NoteWithFireStore/Pods/BoringSSL-GRPC/ssl/ssl_aead_ctx.cc:57-149 | The mode flags of each kind of suite, and the sizes at which creation fails |
| TlsOutput.Output.WriteAppData | NoteWithFireStore/Pods/BoringSSL-GRPC/ssl/s3_pkt.cc:129-200 | A call seals the input from where wnum and the pending write say the write in progress stands, and nothing else. For a caller that comes back with the same input, the application data sealed is therefore the input, each byte once and in order, over any failures in between. An input shorter than wnum is refused and wnum forgotten |
| TlsOutput.Output.WriteFrom | NoteWithFireStore/Pods/BoringSSL-GRPC/ssl/s3_pkt.cc:162-199 | The loop: of the input exactly what lies between the old and the new place is sealed, and the pending write counts as sealed |
| TlsOutput.Output.WriteOther | NoteWithFireStore/Pods/BoringSSL-GRPC/ssl/s3_pkt.cc:144-157 | After a failed call with another input the original write resumes exactly if the connection was shut down, or wnum was not beyond the input and what was sealed meanwhile is the same in both; for a beginning of the original, exactly if that is not shorter than wnum |
| TlsOutput.Output.ShrunkRetry | NoteWithFireStore/Pods/BoringSSL-GRPC/ssl/s3_pkt.cc:144-187 | A shrunk retry and then the original: when that succeeds, the bytes wnum had counted are sealed a second time |
| TlsOutput.SealedTwice | NoteWithFireStore/Pods/BoringSSL-GRPC/ssl/s3_pkt.cc:129-200 | Reached from a new connection, for every input of two bytes or more: the transport blocks on the second record, an empty write is refused, the input is written again and succeeds, and its second byte has been sealed twice |
| TlsOutput.ContinuesAfter | NoteWithFireStore/Pods/BoringSSL-GRPC/ssl/s3_pkt.cc:183-198 | Sealing a stretch of one input continues another exactly if the two agree on it |
| TlsOutput.Output.DoWrite | NoteWithFireStore/Pods/BoringSSL-GRPC/ssl/s3_pkt.cc:221-289 | Finishes the pending write or seals one record behind what is left of the flight; conservation holds after every outcome, as long as flight, record and overhead come to at most 65529 bytes |
| TlsOutput.Output.WritePending | NoteWithFireStore/Pods/BoringSSL-GRPC/ssl/s3_pkt.cc:202-218 | Reports exactly the plaintext of the pending write once all of it is out, and refuses a different retry |
| TlsOutput.Output.WriteChunk | NoteWithFireStore/Pods/BoringSSL-GRPC/ssl/s3_pkt.cc:177-198 | One record of the input: sealed now or found sealed from an earlier call, never both |
| TlsOutput.Output.MakeRoom | NoteWithFireStore/Pods/BoringSSL-GRPC/ssl/s3_pkt.cc:237-266 | Room in the buffer for the rest of the flight, which is then there, and for the record; on failure the flight is untouched |
| TlsOutput.Output.BufferRecord | NoteWithFireStore/Pods/BoringSSL-GRPC/ssl/s3_pkt.cc:258-273 | The rest of the flight goes in front of the new record; if the record cannot be sealed it is there alone, or still in the flight |
| TlsOutput.Output.AddRecordToFlight | NoteWithFireStore/Pods/BoringSSL-GRPC/ssl/s3_both.cc:135-165 | One record sealed at the end of the flight, or nothing changed |
| TlsOutput.Output.AddMessage | NoteWithFireStore/Pods/BoringSSL-GRPC/ssl/s3_both.cc:184-205 | A message is split into records of at most the fragment size, whose plaintexts are together the message |
| TlsOutput.Output.FlushFlight | NoteWithFireStore/Pods/BoringSSL-GRPC/ssl/s3_both.cc:231-279 | When it succeeds, what the transport took is everything sealed if and only if there was a flight or the write buffer was empty; without a flight it succeeds and writes nothing. What was taken is never taken back |
| TlsOutput.FlushedTooSoon | NoteWithFireStore/Pods/BoringSSL-GRPC/ssl/s3_pkt.cc:237-273 | A write in the middle of a flight whose record the AEAD refuses leaves the rest of the flight in the write buffer; flushing the flight then reports success, and nothing of it has gone out |
| TlsOutput.Output.WriteFlight | NoteWithFireStore/Pods/BoringSSL-GRPC/ssl/s3_both.cc:257-269 | Writes from the offset on, any prefix at a time |
| TlsOutput.Output.FlushBuffer | NoteWithFireStore/Pods/BoringSSL-GRPC/ssl/ssl_buffer.cc:239-252 | Consumes exactly what the transport took, and clears the buffer when it is empty |
| TlsOutput.TakeBuffered | NoteWithFireStore/Pods/BoringSSL-GRPC/ssl/ssl_buffer.cc:239-252 | Taking a prefix of the buffer conserves wire, buffer and flight |
| TlsOutput.TakeFlight | NoteWithFireStore/Pods/BoringSSL-GRPC/ssl/s3_both.cc:257-269 | Taking a prefix of the flight conserves them once the buffer is empty |
| TlsOutput.NextChunk | NoteWithFireStore/Pods/BoringSSL-GRPC/ssl/s3_pkt.cc:162-199 | Sealing the next piece extends what was sealed of the input by just that piece |
| TlsBuffer.SSLBuffer.EnsureCap | NoteWithFireStore/Pods/BoringSSL-GRPC/ssl/ssl_buffer.cc:47-81 | Keeps the contents, grants exactly requests up to 65535, and says where the buffer then lies and when the offset may later wrap |
| TlsBuffer.SSLBuffer.Append | NoteWithFireStore/Pods/BoringSSL-GRPC/ssl/ssl_buffer.cc:83-88 | What is written into the remaining space becomes the end of the contents |
| TlsBuffer.SSLBuffer.Consume | NoteWithFireStore/Pods/BoringSSL-GRPC/ssl/ssl_buffer.cc:90-97 | Drops a prefix whenever the 16-bit offset does not wrap or nothing is left; in every case says where the contents are then read from |
| TlsBuffer.SSLBuffer.DiscardConsumed | NoteWithFireStore/Pods/BoringSSL-GRPC/ssl/ssl_buffer.cc:99-103 | An empty buffer is released, else nothing changes |
| TlsBuffer.RightIffAtMost | NoteWithFireStore/Pods/BoringSSL-GRPC/ssl/ssl_buffer.cc:47-97 | Whatever the memory held: for every placement, filling and consumption a granted request gives out the right bytes exactly if it is at most 65529 |
| TlsBuffer.FillAndConsume | NoteWithFireStore/Pods/BoringSSL-GRPC/ssl/ssl_buffer.cc:83-97 | What an empty buffer gives out after Append and Consume, wherever it lies and whether or not the offset wraps |
| TlsBuffer.OffsetWraps | NoteWithFireStore/Pods/BoringSSL-GRPC/ssl/ssl_buffer.cc:47-97 | The least such request on the buffer itself: 65530 bytes are granted and filled, 65529 consumed, and the buffer gives out a byte that was never appended |
| HandshakeCompose.HandshakeCompletes | NoteWithFireStore/Pods/BoringSSL-GRPC/ssl/handshake.cc:491-628 | Any client and server, any choice of the server, full or resumed, over ordered channels, under any schedule and with callbacks late as often as they like: after 2439 rounds in each of which each side has, at some time, two turns of its own in a row with prompt answers, both are done, agree, and nothing is under way |
| HandshakeCompose.CompletesOncePrompt | NoteWithFireStore/Pods/BoringSSL-GRPC/ssl/handshake.cc:491-628 | The same if, after any run with late callbacks, every turn is prompt: then one turn of each side a round is enough, for 2461 rounds |
| HandshakeCompose.OnePromptTurnIsNotEnough | NoteWithFireStore/Pods/BoringSSL-GRPC/ssl/handshake.cc:561-586 | Why two in a row: settling a late callback is a turn of its own. From a state with the ClientHello read, rounds in which each side has one prompt turn, but the server also a late one before it, change nothing, however many there are |
| HandshakeCompose.AskingIsReached | NoteWithFireStore/Pods/BoringSSL-GRPC/ssl/handshake.cc:491-628 | That state is reached in seven turns from the start, whatever the configuration |
| HandshakeCompose.TwicePromptProgresses | NoteWithFireStore/Pods/BoringSSL-GRPC/ssl/handshake.cc:491-628 | A side that is neither done nor waiting for an empty channel brings the end nearer once two of its turns in a row are prompt, whatever the other side does in between |
| HandshakeCompose.NeverFails | NoteWithFireStore/Pods/BoringSSL-GRPC/ssl/handshake.cc:491-628 | With every check passing and callbacks however slow, neither side ever meets an unexpected message or fails |
| HandshakeCompose.NoDeadlock | NoteWithFireStore/Pods/BoringSSL-GRPC/ssl/handshake.cc:491-628 | Unless both are done, one side is neither done nor waiting for an empty channel |
| HandshakeCompose.TurnKeepsInv | NoteWithFireStore/Pods/BoringSSL-GRPC/ssl/handshake.cc:491-628 | Every turn keeps what is under way equal to the script between the two places, and comes nearer to the end unless its side is idle or a callback is late or being asked again |
| HandshakeCompose.RunKeepsInv | NoteWithFireStore/Pods/BoringSSL-GRPC/ssl/handshake.cc:491-628 | The invariant over whole runs |
| HandshakeCompose.BetweenTaken | NoteWithFireStore/Pods/BoringSSL-GRPC/ssl/handshake.cc:508-547 | Taking the next item leaves exactly the rest under way |
| HandshakeCompose.BetweenSent | NoteWithFireStore/Pods/BoringSSL-GRPC/ssl/handshake.cc:501-506 | Sending extends what is under way by just that |
| HandshakeCompose.PortResolves | NoteWithFireStore/Pods/BoringSSL-GRPC/ssl/handshake.cc:491-581 | Settling any wait keeps a side in order and comes nearer to the end, or nothing has arrived |
| HandshakeCompose.DoneAgrees | NoteWithFireStore/Pods/BoringSSL-GRPC/ssl/handshake.cc:621-625 | When both are done they hold the same parameters and nothing is under way |
| HandshakeRefused.NeverDone | NoteWithFireStore/Pods/BoringSSL-GRPC/ssl/handshake_server.cc:1010-1029 | A client without a certificate never gets a server that demands one to its end, however long they run: the condition of HandshakeCompletes cannot be dropped |
| HandshakeClientScript.StepFollows | NoteWithFireStore/Pods/BoringSSL-GRPC/ssl/handshake_client.cc:1707-1784 | Every step of a client that succeeds sends or takes exactly the items of the transcript at its place |
| HandshakeServerScript.StepFollows | NoteWithFireStore/Pods/BoringSSL-GRPC/ssl/handshake_server.cc:1539-1616 | Every step of a server that succeeds sends or takes exactly the items of the transcript at its place |
| HandshakeClient.DoneIsSafe | NoteWithFireStore/Pods/BoringSSL-GRPC/ssl/handshake_client.cc:871-1071 | However the peer behaves, a client is done only after ChangeCipherSpec was processed and then the Finished matched; with a certificate cipher only after the certificate was verified and the ServerKeyExchange signature checked |
| HandshakeServer.DoneIsSafe | NoteWithFireStore/Pods/BoringSSL-GRPC/ssl/handshake_server.cc:1269-1461 | However the peer behaves, a server is done only after ChangeCipherSpec and then the Finished; a client certificate was verified and its key proved; a required one was presented |
| HandshakeClient.StepKeepsInv | NoteWithFireStore/Pods/BoringSSL-GRPC/ssl/handshake_client.cc:1707-1784 | Every step climbs a rank that depends on resumption, or stays to wait or fail, so the loop terminates and no state is entered twice |
| HandshakeServer.StepKeepsInv | NoteWithFireStore/Pods/BoringSSL-GRPC/ssl/handshake_server.cc:1539-1616 | Every step climbs a rank that depends on resumption, or stays to wait or fail, so the loop terminates and no state is entered twice |
| HandshakeClient.StepClimbs | NoteWithFireStore/Pods/BoringSSL-GRPC/ssl/handshake_client.cc:385-1705 | A client that changes has climbed |
| HandshakeServer.StepClimbs | NoteWithFireStore/Pods/BoringSSL-GRPC/ssl/handshake_server.cc:426-1537 | A server that changes has climbed |
| HandshakeClient.RunKeepsInv | NoteWithFireStore/Pods/BoringSSL-GRPC/ssl/handshake_client.cc:385-1705 | What holds of a client after any run |
| HandshakeServer.RunKeepsInv | NoteWithFireStore/Pods/BoringSSL-GRPC/ssl/handshake_server.cc:426-1537 | What holds of a server after any run |
| HandshakeClient.ReadServerKeyExchangeMoves | NoteWithFireStore/Pods/BoringSSL-GRPC/ssl/handshake_client.cc:891-1071 | A ServerKeyExchange is accepted only signed with a certificate cipher, and can be missing only without an ephemeral one |
| HandshakeClient.VerifyServerCertificateMoves | NoteWithFireStore/Pods/BoringSSL-GRPC/ssl/handshake_client.cc:871-889 | Passed only with the certificate verified |
| HandshakeClient.ReadServerFinishedMoves | NoteWithFireStore/Pods/BoringSSL-GRPC/ssl/handshake.cc:380-429 | Passed only on a matching Finished |
| HandshakeServer.ReadClientCertificateVerifyMoves | NoteWithFireStore/Pods/BoringSSL-GRPC/ssl/handshake_server.cc:1269-1363 | Passed by a client with a key only on a good signature |
| HandshakeServer.ReadClientFinishedMoves | NoteWithFireStore/Pods/BoringSSL-GRPC/ssl/handshake.cc:380-429 | Passed only on a matching Finished |
| Handshake.FactsMean | NoteWithFireStore/Pods/BoringSSL-GRPC/ssl/handshake.cc:380-429 | What the facts say of a log of events: the read cipher, and the Finished after it |
| HandshakeClientLoop.Connection.Handshake | NoteWithFireStore/Pods/BoringSSL-GRPC/ssl/handshake_client.cc:1707-1789 | The loop terminates, takes received messages in order, and returns ok only in state_done with all that safety asks for |
| HandshakeServerLoop.Connection.Handshake | NoteWithFireStore/Pods/BoringSSL-GRPC/ssl/handshake_server.cc:1539-1621 | The loop terminates, takes received messages in order, and returns ok only in state_done with all that safety asks for |
| HandshakeClientLoop.Connection.RunHandshake | NoteWithFireStore/Pods/BoringSSL-GRPC/ssl/handshake.cc:491-628 | Terminates; 1 without an early return means a safe, complete handshake; nothing of the flight is lost or sent twice |
| HandshakeServerLoop.Connection.RunHandshake | NoteWithFireStore/Pods/BoringSSL-GRPC/ssl/handshake.cc:491-628 | Terminates; 1 without an early return means a safe, complete handshake; nothing of the flight is lost or sent twice |
| HandshakeTransport.Transport.Settle | NoteWithFireStore/Pods/BoringSSL-GRPC/ssl/handshake.cc:491-602 | Which wait leads on, is tried again or returns, and what is read or flushed by it; what it settles it settles as the step of the composed system does |
| CipherChoice.ChooseCipher | NoteWithFireStore/Pods/BoringSSL-GRPC/ssl/handshake_server.cc:357-424 | Nothing exactly if no shared cipher is compatible; else a cipher of the first group that has one, earliest in the other list |
| CipherChoice.ChooseBy | NoteWithFireStore/Pods/BoringSSL-GRPC/ssl/handshake_server.cc:368-424 | With the order of preference chosen by the option: whether a cipher is found does not depend on the option, only on whether a usable one is in both lists; by the preference of the client it is the first such in its list, by that of the server the best by groups |
| CipherChoice.Find | NoteWithFireStore/Pods/BoringSSL-GRPC/ssl/handshake_server.cc:401 | Where a cipher first stands in a list, if anywhere |
| CipherChoice.BestInGroup | NoteWithFireStore/Pods/BoringSSL-GRPC/ssl/handshake_server.cc:402-419 | At the end of a group the least index so far is the best choice of all |
| ConstantTime.ComparisonsExact | NoteWithFireStore/Pods/BoringSSL-GRPC/crypto/internal.h:242-334 | Less-than, at-least, is-zero and equality give all ones exactly when they hold, else zero, on all 64-bit words |
| ConstantTime.LtExact | NoteWithFireStore/Pods/BoringSSL-GRPC/crypto/internal.h:248-282 | The less-than formula is exact on all words, equal and unequal top bits included |
| ConstantTime.SelectExact | NoteWithFireStore/Pods/BoringSSL-GRPC/crypto/internal.h:348-355 | Selection by such a mask is a conditional |
| ConstantTime.SelectByteExact | NoteWithFireStore/Pods/BoringSSL-GRPC/crypto/internal.h:357-362 | Selection of bytes by such a mask is a conditional |
| ConstantTime.PaddingMask | NoteWithFireStore/Pods/BoringSSL-GRPC/ssl/handshake_server.cc:1160-1172 | The accumulated mask is all ones exactly for a good block |
| ConstantTime.UnpadPremaster | NoteWithFireStore/Pods/BoringSSL-GRPC/ssl/handshake_server.cc:1142-1178 | The premaster becomes the message exactly if the block is 00 02, nonzero padding, 00 and then the client version; else it stays wholly random; only the length shows |
| ConstantTime.GoodBlockIsPadding | NoteWithFireStore/Pods/BoringSSL-GRPC/ssl/handshake_server.cc:1149-1172 | The position-by-position check is PKCS 1 unpadding followed by the version check |
| Refcount.RefinesLocked | NoteWithFireStore/Pods/BoringSSL-GRPC/crypto/refcount_c11.c:37-65 | Under any interleaving and any spurious failures the completed operations are a run of the locked counter with the same results |
| Refcount.ExactlyOneZero | NoteWithFireStore/Pods/BoringSSL-GRPC/crypto/refcount_c11.c:37-65 | Among threads that may hand references to one another and drop only what they hold: below saturation the count is initial plus increments minus decrements, none aborts, and exactly the last decrement returned one |
| Refcount.StaysSaturated | NoteWithFireStore/Pods/BoringSSL-GRPC/crypto/refcount_c11.c:40-46 | Once saturated the count never changes |
| Refcount.StepRefines | NoteWithFireStore/Pods/BoringSSL-GRPC/crypto/refcount_c11.c:37-65 | Every atomic step is one of the locked counter or none |
| Refcount.StepCounts | NoteWithFireStore/Pods/BoringSSL-GRPC/crypto/refcount_c11.c:49-65 | Among threads that drop only what they hold, the counter keeps counting the references until it saturates |
| Refcount.LockedCount.Inc | NoteWithFireStore/Pods/BoringSSL-GRPC/crypto/refcount_lock.c:29-35 | Adds one below saturation |
| Refcount.LockedCount.DecAndTestZero | NoteWithFireStore/Pods/BoringSSL-GRPC/crypto/refcount_lock.c:37-51 | Takes one off below saturation and reports zero |

## Left out

- DtlsSend.Sender.SendFlight: allocating the packet buffer is taken to succeed; in the code a failure there returns with nothing changed but the MTU.
- DtlsSend.Sender.SealNextPacket: for limits past the length a record can have, whether a record fits its length field depends on the tag the AEAD makes; the exact condition for failing at once is stated up to that limit.
- TlsOutput.Output.WriteAppData: alerts waiting to be dispatched, the handshake that a first write may start, early data and TLS 1.3 key updates are not modelled; `Resumes` is what a caller keeps that retries with the same buffer and length.
- TlsBuffer.SSLBuffer.EnsureCap: the memory address is a parameter; allocation may fail.
- PbDecoder.DecodeNoinit: distinct tags and well-formed descriptors are required; the struct after a failed decode is unspecified, as in the code.
- PbDecoder.DecodeSubmessage: nested structs are values copied in and out of a slot, not memory written in place.
- PbEncoder.EncodeVarint: the ten-byte buffer is a sequence; that any 64-bit value fits it is Varint64RoundTrip.
- DtlsSeal.NoNonceReuse: epochs are taken to stay below 2^16; the code does not guard against their wrapping.
- DtlsReceive.Receiver.NextMessage: handshake_read_seq is taken not to wrap on 16 bits.
- HandshakeCompose.HandshakeCompletes: the machines are the step functions; each side's records are delivered whole and in order, and the ServerHello carries all that both sides must agree on.
- HandshakeClientLoop.Connection.RunHandshake: after a refused record the transport may still be asked again; the sticky shutdown state is not modelled.
- HandshakeClient.StepKeepsInv: the do_ functions are modelled on values, with all their checks other than message type, certificate, signatures and Finished folded into one answer of the environment; where the code fails after having taken a message, the model fails before.
- HandshakeServer.StepKeepsInv: as for the client.
- CipherChoice.ChooseCipher: the lists are given; parsing the client's list and the hardware-dependent default order are not modelled.
- ConstantTime.ComparisonsExact: words are those of 64-bit targets; on the others crypto_word_t has 32 bits.
- ConstantTime.UnpadPremaster: constant time itself is not a property of the model; RSA is an oracle.
- AeadNonce.Seal: in-place operation, buffer aliasing and scattered output are not modelled; record headers are abstract on sealing.
- Refcount.ExactlyOneZero: lock-freedom and fairness are not modelled, and atomics are sequentially consistent.
- nanopb callbacks, extensions, fixed-count arrays, pointer fields, custom streams, delimited and null-terminated variants, and size_t overflow.
- TLS 1.3, SSL 3.0, early data, renegotiation, V2ClientHello, Channel ID contents, session storage, extension parsing.
- The read side of TLS records, alert dispatch, DTLS timers, which become arbitrary retransmissions, and datagram I/O beyond accept or refuse.
- Real cryptography, key derivation and the transcript hash.
- The application's own Swift code, which has no invariants worth proving.
