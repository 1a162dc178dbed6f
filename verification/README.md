# Verified models of the vendored protocol code

The application in this repository is user interface and Firebase calls; the logic that has to be
right on every input is in the C and C++ libraries it carries under `ATT/Pods`.  This project models
the hard parts of those libraries in Dafny and proves what they are for.

- `nanopb/` models the Protocol Buffers codec: descriptors, the circular field iterator, the table of
  field encoders and decoders, nested messages encoded in two passes, packed arrays, oneofs, proto3
  default elision and the required-field words.  `Encoding` and `Decoding` say what the bytes are;
  `Encoder` and `Decoder` are the streams and loops that work in place, proved to do just that;
  `RoundTrip`, `Folding`, `Packing`, `Elision` and `VarintLaws` hold the laws between the two.
- `dtls/` models DTLS record numbers and the replay window, reassembly through a bitmask, the ring of
  seven incoming messages, and flights cut into fragments and datagrams.  `Ciphers` says under which
  keys a flight goes out and when it does.  `Delivery` puts a sender, a network that loses, repeats and
  reorders, and a receiver together.
- `tls/` models the TLS write path with its two queues, the stream of handshake messages, and the
  client and server handshake machines of TLS 1.0 to 1.2.  `Script` says which messages a handshake
  has under which terms; `ClientWalk` and `ServerWalk` show that each machine follows it from any
  state; `Agreement` runs both together.  `ClientHandshake` and `ServerHandshake` are the objects with
  one method per state, and `Conversation` lets the two talk until both are done.  `CipherChoice` is
  the server's choice of a cipher.
- `session/` models DER as the byte-string library reads and writes it, and the serialized SSL session.
- `crypto/` models the reference count, under a lock and with compare-and-swap loops.
- `common/` holds bits as numbers, big-endian words, the results of parsers and the protocol's numbers.

Classes keep the fields of the original objects and change them in place; each method states its
whole effect by a function of the old state, and the laws are proved about those functions.  Buffers
whose bytes are changed in place are arrays; queues and growing strings are sequences that are
reassigned.

Choices where the code and an idealized reading differ; the model does what the code does:

- A fragment whose number is seven above the expected one passes the first window test of
  `dtls1_open_handshake` and is then an error, not ignored (`Incoming`).
- The 32-bit varint decoder accepts high groups that are all zeros or all ones; on canonical input its
  exact range is `VarintLaws.DecodeVarint32InvertsEncode`.
- Inside a struct that a proto3 message holds, an array without a count of its own is read as if its
  first four bytes were one: `Elision.FirstEntriesDecide` and `Elision.FirstLengthDecides` are the exact
  conditions under which it is left out, `Elision.PairLostExactly` a family of structs of which
  everything is lost.  The round trip is about descriptors without such an array in that place.
- The offset of the TLS write buffer has 16 bits.  `Buffers.FlushConserves` says exactly which buffers
  every transport takes unharmed, and `Buffers.FilledBufferLosesBytes` goes through the code to one that
  is not.  The write path asks of each record it really seals that its capacity is refused, is there
  already, or stays within 65536 bytes from where the allocated memory is entered.
- When sealing fails behind another record of the same datagram, the datagram is dropped and the position
  in the flight is not taken back: `Flight.SentWithAHole` is an input on which a flight is then reported
  sent with a message missing, and `Flight.CoversExactly` and `Flight.FlightPartitioned` are the exact
  condition.  `Ciphers.RetriesCover` says what to check before the first call so that it never happens.
- A zero-length ticket or early ALPN is written out but read back as none; `Session.LosesNothing` says
  exactly which sessions are kept whole.
- A preference list whose last group is not ended hides ciphers: `CipherChoice.NoneExactly` says when.
- What follows the time and timeout integers inside their elements is not looked at when parsing.

## Model

| member | source | states |
|---|---|---|
| `VarintLaws.DecodeVarintInvertsEncode` | ATT/Pods/nanopb/pb_decode.c:250-270 | for every 64-bit value, decoding its encoding yields the value, consumes exactly the encoding, and the encoding has 1 to 10 bytes |
| `VarintLaws.EncodeVarintIsShortest` | ATT/Pods/nanopb/pb_encode.c:574-594 | no byte string that decodes to a 64-bit value is shorter than the value's encoding |
| `VarintLaws.DecodeVarint32OfEncoded` | ATT/Pods/nanopb/pb_decode.c:182-242 | on a canonical encoding the 32-bit decoder accepts exactly the values whose high groups are uniform, and then yields the value modulo 2^32 |
| `VarintLaws.DecodeVarint32InvertsEncode` | ATT/Pods/nanopb/pb_decode.c:182-247 | on canonical encodings: v itself below 2^32, v - (2^64 - 2^32) from 2^64 - 2^31 on, failure from 2^32 to 2^63 |
| `VarintLaws.ZigZagBijective` | ATT/Pods/nanopb/pb_decode.c:1240-1252 | zigzag and its inverse undo each other on all signed and all unsigned 64-bit values |
| `VarintLaws.LittleEndianInverse` | ATT/Pods/nanopb/pb_decode.c:1254-1286 | a fixed-width little-endian word reads back as the value written |
| `VarintLaws.DecodeTagInvertsEncode` | ATT/Pods/nanopb/pb_decode.c:293-314 | a field tag reads back as the wire type and number written, for every number below 2^29 |
| `VarintLaws.TakeDelimitedInverse` | ATT/Pods/nanopb/pb_decode.c:367-380 | a length-delimited string reads back whole, with what follows it left over |
| `Descriptor.FindTagUnique` | ATT/Pods/nanopb/pb_common.c:78-95 | with distinct tags a field is the only one found under its tag |
| `Descriptor.SharedSlotIsUnion` | ATT/Pods/nanopb/pb_common.c:49-76 | two fields share storage only inside one oneof union |
| `FieldIterator.SameAddressIffSameSlot` | ATT/Pods/nanopb/pb_common.c:20-76 | the pointer arithmetic of the iterator gives two fields the same address exactly when they share a union |
| `FieldIterator.NextMatchIsFindTag` | ATT/Pods/nanopb/pb_common.c:78-95 | the circular search from any position finds the field with the tag wherever it is, or nothing |
| `FieldIterator.FieldIter.constructor` | ATT/Pods/nanopb/pb_common.c:8-18 | the iterator starts at the first field with the addresses and required index of that position |
| `FieldIterator.FieldIter.Next` | ATT/Pods/nanopb/pb_common.c:20-76 | moves to the next field, wrapping to the first; data address, size address and required index stay functions of the position |
| `FieldIterator.FieldIter.Find` | ATT/Pods/nanopb/pb_common.c:78-95 | terminates from any position; succeeds exactly when a field that is no extension has the tag, stands on it, and otherwise is back where it started |
| `RequiredWords.Note` | ATT/Pods/nanopb/pb_decode.c:988-994 | setting a bit in the two 32-bit words adds exactly that index to the set of required fields seen |
| `RequiredWords.AllNoted` | ATT/Pods/nanopb/pb_decode.c:1026-1046 | the word comparison passes exactly when each of the first n required fields, n at most 64, has been seen |
| `RequiredFields.AcceptedExactly` | ATT/Pods/nanopb/pb_decode.c:988-1046 | a message whose fields all decode is accepted exactly when no fixed-count array was cut short and every required field among the first sixty-four turned up on the wire |
| `RequiredFields.RunNotes` | ATT/Pods/nanopb/pb_decode.c:988-994 | what is noted as seen is exactly the required fields whose tags the decoder met |
| `Encoder.OStream.Write` | ATT/Pods/nanopb/pb_encode.c:101-120 | writes all the bytes or fails exactly when they exceed the limit, counts them, and touches nothing else of the buffer; a sizing stream only counts |
| `Encoder.OStream.BufWrite` | ATT/Pods/nanopb/pb_encode.c:72-82 | copies the bytes to the write position and advances it |
| `Encoder.PutVarint` | ATT/Pods/nanopb/pb_encode.c:574-594 | puts exactly the varint of the value, built in a local buffer |
| `Encoder.PutSvarint` | ATT/Pods/nanopb/pb_encode.c:596-605 | puts the varint of the zigzag number |
| `Encoder.PutFixed` | ATT/Pods/nanopb/pb_encode.c:607-632 | puts the little-endian word of the value |
| `Encoder.PutTag` | ATT/Pods/nanopb/pb_encode.c:635-672 | puts the tag of a wire type and field number |
| `Encoder.PutString` | ATT/Pods/nanopb/pb_encode.c:674-680 | puts a length and the bytes |
| `Elision.LeftOutIsDefault` | ATT/Pods/nanopb/pb_encode.c:215-303 | what the encoder leaves out of a proto3 message is lost on nobody: when a well-formed field counts as default, whatever default the decoder leaves for it is the value it had, at every depth |
| `Elision.FirstEntriesDecide` | ATT/Pods/nanopb/pb_encode.c:225-229 | of an array without a count of its own the first four bytes are taken for one: numbers of any width, strings and fixed-length bytes that fill four bytes count as default exactly when the entries that begin there are zero as far as they lie there |
| `Elision.FirstLengthDecides` | ATT/Pods/nanopb/pb_encode.c:225-229 | an array of byte strings without a count counts as default exactly when the first of them is empty |
| `Elision.PairLostExactly` | ATT/Pods/nanopb/pb_encode.c:225-229 | such a struct of two numbers is written as nothing at all exactly when the first is zero, whatever the second, which is then lost |
| `Encoder.PutValue` | ATT/Pods/nanopb/pb_encode.c:734-868 | puts the value of each type as the type's encoder does, or fails as it does |
| `Encoder.PutSubmessage` | ATT/Pods/nanopb/pb_encode.c:682-730 | puts length and body after a sizing pass; the second pass never disagrees with the first, so the size-changed error is unreachable, at every depth |
| `Encoder.PutArray` | ATT/Pods/nanopb/pb_encode.c:126-211 | puts a repeated field packed or tag by tag, packed size found first, and refuses a count above the array size |
| `Encoder.PutField` | ATT/Pods/nanopb/pb_encode.c:307-392 | puts a field of each kind: required, optional, proto3 singular, repeated, oneof by selector |
| `Encoder.Encode` | ATT/Pods/nanopb/pb_encode.c:494-516 | puts exactly the encoding of the message, field after field, or fails exactly when it does not fit |
| `Encoder.GetEncodedSize` | ATT/Pods/nanopb/pb_encode.c:533-542 | the size is the number of bytes encoding really takes |
| `Encoder.EncodeIntoBuffer` | ATT/Pods/nanopb/pb_encode.c:84-119 | encoding into N bytes succeeds exactly when the size is at most N, and no byte past those written changes |
| `Decoder.IStream.constructor` | ATT/Pods/nanopb/pb_decode.c:154-176 | a stream over a buffer stands before all of its bytes |
| `Decoder.IStream.Read` | ATT/Pods/nanopb/pb_decode.c:85-132 | takes the bytes off the front, or fails exactly when there are fewer |
| `Decoder.IStream.DecodeVarint` | ATT/Pods/nanopb/pb_decode.c:250-270 | reads a varint byte by byte as its specification does, failing past 64 bits |
| `Decoder.IStream.DecodeVarint32` | ATT/Pods/nanopb/pb_decode.c:182-247 | reads a 32-bit varint as its specification does, lax high groups included |
| `Decoder.IStream.DecodeTag` | ATT/Pods/nanopb/pb_decode.c:293-314 | reads a tag, tells the end of the stream from an error, and stops at a zero tag |
| `Decoder.IStream.SkipField` | ATT/Pods/nanopb/pb_decode.c:316-326 | skips exactly one value of a wire type |
| `Decoder.IStream.MakeSubstream` | ATT/Pods/nanopb/pb_decode.c:367-380 | a substream holds exactly the delimited bytes and the parent what follows |
| `Decoder.IStream.CloseSubstream` | ATT/Pods/nanopb/pb_decode.c:382-395 | skips what the substream left, so the parent goes on behind it |
| `Decoder.FieldSetToDefault` | ATT/Pods/nanopb/pb_decode.c:812-882 | sets one field to its default: initializer, zero, zero count, or a submessage's own defaults |
| `Decoder.MessageSetToDefaults` | ATT/Pods/nanopb/pb_decode.c:884-895 | sets every field to its default in place |
| `Decoder.GetInteger` | ATT/Pods/nanopb/pb_decode.c:1289-1372 | decodes the integer types with the casts of their storage width, failing where a cast loses the value |
| `Decoder.GetFixed` | ATT/Pods/nanopb/pb_decode.c:1374-1389 | decodes the fixed-width words |
| `Decoder.GetString` | ATT/Pods/nanopb/pb_decode.c:1428-1461 | decodes a string with its terminator, failing where it does not fit |
| `Decoder.GetBytes` | ATT/Pods/nanopb/pb_decode.c:1391-1426 | decodes bytes with their count, failing where they do not fit |
| `Decoder.GetSubmessage` | ATT/Pods/nanopb/pb_decode.c:1463-1485 | decodes a nested message, array elements first set to defaults |
| `Decoder.ReleaseUnionField` | ATT/Pods/nanopb/pb_decode.c:1104-1128 | refuses a union whose selector names no field |
| `Decoder.GetPacked` | ATT/Pods/nanopb/pb_decode.c:425-443 | fills the array from a packed chunk until it or the array is at its end |
| `Decoder.GetRepeated` | ATT/Pods/nanopb/pb_decode.c:419-459 | a repeated field takes a packed chunk or one value, and fails when the array is full |
| `Decoder.GetSingular` | ATT/Pods/nanopb/pb_decode.c:409-417 | a required or optional field takes one value and notes its presence |
| `Decoder.DecodeStaticField` | ATT/Pods/nanopb/pb_decode.c:401-475 | decodes one field into its slot as the specification does |
| `Decoder.DecodeOneField` | ATT/Pods/nanopb/pb_decode.c:919-997 | finds the field of a tag and decodes it, notes it as seen, or skips the unknown |
| `Decoder.CheckComplete` | ATT/Pods/nanopb/pb_decode.c:999-1046 | fails exactly on an incomplete fixed-count array or a required field that was not seen |
| `Decoder.DecodeNoinit` | ATT/Pods/nanopb/pb_decode.c:901-1049 | decodes the whole stream onto the struct exactly as the specification folds over its fields |
| `Decoder.Decode` | ATT/Pods/nanopb/pb_decode.c:1051-1063 | defaults first, then the fields of the stream |
| `RoundTrip.SetDefaultsDefaults` | ATT/Pods/nanopb/pb_decode.c:812-895 | whatever the struct held, every field is at its default afterwards, at every depth |
| `RoundTrip.CastsLoseNothing` | ATT/Pods/nanopb/pb_decode.c:1289-1372 | a value of the storage width passes the decoder's casts unchanged |
| `RoundTrip.ValueSurvives` | ATT/Pods/nanopb/pb_decode.c:1289-1508 | any good value of any type, decoded from its encoding, is the same value |
| `RoundTrip.DecodeInvertsEncode` | ATT/Pods/nanopb/pb_decode.c:901-1063 | for every well-formed descriptor and good message, decoding the encoding into any struct succeeds, consumes all of it and rebuilds every present field, absent ones at their defaults |
| `Folding.RunConcat` | ATT/Pods/nanopb/pb_decode.c:919-997 | decoding a then b field by field is decoding a ++ b, when a ends between fields |
| `Folding.DecodeConcat` | ATT/Pods/nanopb/pb_decode.c:919-997 | without required or fixed-count fields, decoding a ++ b is decoding b onto the result of a |
| `Folding.UnknownFieldIgnored` | ATT/Pods/nanopb/pb_decode.c:316-326 | a well-formed unknown field between two fields changes no state |
| `Folding.UnknownFieldsChangeNothing` | ATT/Pods/nanopb/pb_decode.c:316-326 | so the decoded message is the one without it |
| `Folding.DecodePackedConcat` | ATT/Pods/nanopb/pb_decode.c:419-443 | a packed array in two chunks fills the array as in one |
| `Packing.PackingIrrelevant` | ATT/Pods/nanopb/pb_decode.c:419-459 | however a repeated scalar's values are cut into packed chunks and single tags, the decoder ends in the same state |
| `ReplayWindow.WindowIsSet` | ATT/Pods/BoringSSL-GRPC/ssl/dtls_record.cc:140-175 | after any recordings a number is turned away exactly when it was recorded or lies 64 or more below the highest (section 4.1.2.6 of RFC 6347) |
| `ReplayWindow.Bitmap.Discards` | ATT/Pods/BoringSSL-GRPC/ssl/dtls_record.cc:140-153 | the bit test on the 64-bit word is that decision, and changes nothing |
| `ReplayWindow.Bitmap.Note` | ATT/Pods/BoringSSL-GRPC/ssl/dtls_record.cc:155-175 | shifting and setting the word records the number |
| `Records.RecordReader.Open` | ATT/Pods/BoringSSL-GRPC/ssl/dtls_record.cc:177-259 | opens a record in the code's order of checks; one that fails to open, is old or malformed leaves the window alone |
| `Records.RecordReader.SetCipher` | ATT/Pods/BoringSSL-GRPC/ssl/dtls_method.cc:81-95 | a new read cipher starts the next epoch with an empty window |
| `Records.UnacceptedChangesNothing` | ATT/Pods/BoringSSL-GRPC/ssl/dtls_record.cc:177-259 | a packet that is not accepted, be it old, malformed or one that fails to open, changes nothing |
| `Records.NoRecordAcceptedTwice` | ATT/Pods/BoringSSL-GRPC/ssl/dtls_record.cc:177-259 | over any packets and cipher changes no (epoch, sequence) is accepted twice |
| `Records.AcceptedExactlyIfNew` | ATT/Pods/BoringSSL-GRPC/ssl/dtls_record.cc:225-259 | after any run a record of the epoch that opens is accepted exactly when its number is new and not 64 or more below an accepted one |
| `Records.RecordWriter.Seal` | ATT/Pods/BoringSSL-GRPC/ssl/dtls_record.cc:294-351 | seals with the number of the epoch asked for and advances that counter, or fails on no room, a sealing failure or a wraparound |
| `Records.RecordWriter.SetCipher` | ATT/Pods/BoringSSL-GRPC/ssl/dtls_method.cc:97-107 | a new write cipher keeps the old epoch's cipher and counter for retransmission and restarts the current one |
| `Records.NoNumberUsedTwice` | ATT/Pods/BoringSSL-GRPC/ssl/dtls_record.cc:294-351 | over any seals in both epochs and cipher changes no (epoch, sequence) is used twice before a wraparound is reported |
| `Records.OpenInvertsSeal` | ATT/Pods/BoringSSL-GRPC/ssl/dtls_record.cc:177-351 | what a writer sealed reaches a reader whose cipher of that epoch opens what it seals exactly when the reader is in the epoch, its version matches, and the number is new; then as the same type and plaintext, under the number it was sealed with |
| `Fragments.ParseFragmentInverse` | ATT/Pods/BoringSSL-GRPC/ssl/d1_both.cc:459-473 | a fragment header and body read back as written (section 4.2.2 of RFC 6347) |
| `Reassembly.ReceivedExactly` | ATT/Pods/BoringSSL-GRPC/ssl/d1_both.cc:182-251 | after any in-range fragments exactly the covered bytes are received, and the message is complete exactly when they cover it |
| `Reassembly.AnyOrderRebuilds` | ATT/Pods/BoringSSL-GRPC/ssl/d1_both.cc:387-402 | slices of one message in any order, overlapping or repeated, complete to exactly that message |
| `Reassembly.BitRangeBits` | ATT/Pods/BoringSSL-GRPC/ssl/d1_both.cc:203-205 | the byte of a bit range has exactly the bits of the range |
| `Reassembly.HmFragment.constructor` | ATT/Pods/BoringSSL-GRPC/ssl/d1_both.cc:152-199 | a new fragment has nothing received, and is complete at once when empty |
| `Reassembly.HmFragment.MarkRange` | ATT/Pods/BoringSSL-GRPC/ssl/d1_both.cc:211-234 | first byte, whole bytes and last byte of the mask together mark exactly the range, all indices in bounds |
| `Reassembly.HmFragment.MaskFull` | ATT/Pods/BoringSSL-GRPC/ssl/d1_both.cc:236-247 | the scan finds the mask full exactly when every byte of the message is marked |
| `Reassembly.HmFragment.Mark` | ATT/Pods/BoringSSL-GRPC/ssl/d1_both.cc:211-251 | marks a range and drops the mask exactly when the message is complete |
| `Reassembly.HmFragment.Absorb` | ATT/Pods/BoringSSL-GRPC/ssl/d1_both.cc:387-402 | copies a fragment in and marks it, changing nothing of a complete message |
| `Incoming.Receiver.GetIncoming` | ATT/Pods/BoringSSL-GRPC/ssl/d1_both.cc:265-295 | finds or makes the ring entry of a message, and fails outside the window or on a header mismatch; sequence = read + 7 is such an error |
| `Incoming.Receiver.TakeFragment` | ATT/Pods/BoringSSL-GRPC/ssl/d1_both.cc:350-404 | one fragment: bounds, epoch and sequence checks, then the ring entry absorbs it; old ones are ignored, far ones dropped |
| `Incoming.Receiver.TakeFragments` | ATT/Pods/BoringSSL-GRPC/ssl/d1_both.cc:346-404 | a record's fragments one after the other until one is an error |
| `Incoming.Receiver.Open` | ATT/Pods/BoringSSL-GRPC/ssl/d1_both.cc:297-406 | a handshake record, a ChangeCipherSpec or another type, handled, ignored or refused as the code does |
| `Incoming.Receiver.GetMessage` | ATT/Pods/BoringSSL-GRPC/ssl/d1_both.cc:408-424 | the current message when it is complete, and nothing otherwise |
| `Incoming.Receiver.NextMessage` | ATT/Pods/BoringSSL-GRPC/ssl/d1_both.cc:426-438 | frees the current entry and moves the read sequence on by one |
| `Incoming.Receiver.HasUnprocessedData` | ATT/Pods/BoringSSL-GRPC/ssl/d1_both.cc:440-457 | true exactly when a ring entry is in use or a cipher change waits |
| `Flight.Sender.AddOutgoing` | ATT/Pods/BoringSSL-GRPC/ssl/d1_both.cc:555-594 | queues a message or cipher change, dropping a completed flight first and refusing a full one |
| `Flight.Sender.SealNext` | ATT/Pods/BoringSSL-GRPC/ssl/d1_both.cc:644-737 | seals the next fragment that fits, or reports no room or failure |
| `Flight.Sender.SealPacket` | ATT/Pods/BoringSSL-GRPC/ssl/d1_both.cc:739-780 | fills one datagram with as many records as fit the MTU |
| `Flight.Sender.Send` | ATT/Pods/BoringSSL-GRPC/ssl/d1_both.cc:782-827 | sends datagram after datagram; a failed write rewinds to the datagram's start |
| `Flight.SealNextIsNext` | ATT/Pods/BoringSSL-GRPC/ssl/d1_both.cc:644-737 | a sealed record carries the next bytes of the flight from the position, and moves it past exactly those |
| `Flight.SendFlightCovers` | ATT/Pods/BoringSSL-GRPC/ssl/d1_both.cc:782-827 | whatever a call returns, its datagrams each fit the MTU and carry the flight on from its position without gap or overlap, to where the call stops but for records lost behind a failure to seal; success means the end of the flight |
| `Flight.SendAgainCovers` | ATT/Pods/BoringSSL-GRPC/ssl/d1_both.cc:782-845 | any number of calls one after the other, whatever they returned: each call's datagrams fit its MTU, and messages written are those the accepted records complete and those lost |
| `Flight.CoversExactly` | ATT/Pods/BoringSSL-GRPC/ssl/d1_both.cc:739-845 | the accepted records carry the flight exactly to where the calls left it if and only if none was lost, that is, no call failed to seal behind another record of the same datagram |
| `Flight.FlightPartitioned` | ATT/Pods/BoringSSL-GRPC/ssl/d1_both.cc:693-827 | when the flight is reported sent, the accepted fragments are those of the whole flight in order if and only if none was lost; then they are the bodies of its messages, contiguous and whole |
| `Flight.SentWithAHole` | ATT/Pods/BoringSSL-GRPC/ssl/d1_both.cc:693-827 | an input where one is lost: the counter ends behind the first record of a datagram, and two queued cipher changes are reported sent with one record |
| `Ciphers.FlightSealed` | ATT/Pods/BoringSSL-GRPC/ssl/dtls_record.cc:294-351 | every record a call gets accepted was sealed by the cipher of its own epoch, retransmissions of the last epoch included |
| `Ciphers.RetriesCover` | ATT/Pods/BoringSSL-GRPC/ssl/d1_both.cc:782-845 | what can be checked before the first call: ciphers that seal, an MTU with room for one byte in each call and counters that last for as many flights; then whatever writes and flushes fail, what was accepted is the flight in order and whole as far as it got, and all of it when it is reported sent |
| `Ciphers.SentInTheEnd` | ATT/Pods/BoringSSL-GRPC/ssl/d1_both.cc:782-845 | under the same conditions, however often it failed before, a call in which the transport takes everything completes the flight |
| `Ciphers.FlightGetsSent` | ATT/Pods/BoringSSL-GRPC/ssl/d1_both.cc:644-827 | with an MTU that has room for one byte, ciphers that seal and expand by no more than they say, counters that last and a transport that takes each datagram, a call sends the flight to its end, whole and in order |
| `Delivery.RunKeeps` | ATT/Pods/BoringSSL-GRPC/ssl/d1_both.cc:265-845 | over any run of sender, lossy network and receiver, failed calls included, all on the wire are fragments of sent messages under the cipher of their epoch, and every ring entry agrees with a sent message |
| `Delivery.DeliveredInOrder` | ATT/Pods/BoringSSL-GRPC/ssl/d1_both.cc:265-295 | if the receiver's cipher of each epoch opens what the sender's sealed, the messages taken are a prefix of the messages sent: none skipped, repeated or mixed, whatever is lost, duplicated or reordered and whatever calls fail |
| `Delivery.NextMessageArrives` | ATT/Pods/BoringSSL-GRPC/ssl/d1_both.cc:350-438 | whatever else arrives, in whatever order, once the fragments that opened cover the next message it can be taken, and it is the one sent |
| `Delivery.NoneBreaks` | ATT/Pods/BoringSSL-GRPC/ssl/d1_both.cc:297-406 | records of the next message, new or repeated, open or not, are never an error |
| `Buffers.SslBuffer.EnsureCap` | ATT/Pods/BoringSSL-GRPC/ssl/ssl_buffer.cc:47-81 | makes room and keeps the contents, or fails above 65535; new memory is entered at the offset that aligns what follows the header |
| `Buffers.SslBuffer.Append` | ATT/Pods/BoringSSL-GRPC/ssl/ssl_buffer.cc:83-88 | new bytes stand behind the contents |
| `Buffers.SslBuffer.Consume` | ATT/Pods/BoringSSL-GRPC/ssl/ssl_buffer.cc:90-97 | the consumed bytes leave the front, unless the 16-bit offset wraps around with some left |
| `Buffers.WriteBufferFlush` | ATT/Pods/BoringSSL-GRPC/ssl/ssl_buffer.cc:239-252 | for any buffer and any short or failed writes, what the transport took and what is left is what the loop makes of the memory; where offset and size stay within 65536 that is the contents, in order |
| `Buffers.FlushConserves` | ATT/Pods/BoringSSL-GRPC/ssl/ssl_buffer.cc:90-97 | writing out a window of memory leaves the bytes taken and left unchanged, for every memory and every transport, if and only if its offset and size together are at most 65536 |
| `Buffers.FilledBufferLosesBytes` | ATT/Pods/BoringSSL-GRPC/ssl/ssl_buffer.cc:47-97 | EnsureCap and DidWrite reach the other case: in aligned memory, a filled buffer of 65535 bytes at offset 3, and a transport over which bytes are lost |
| `WritePath.TlsWriter.AddRecordToFlight` | ATT/Pods/BoringSSL-GRPC/ssl/s3_both.cc:135-165 | a sealed record joins the flight behind the others; conservation of all bytes is kept |
| `WritePath.TlsWriter.AddMessage` | ATT/Pods/BoringSSL-GRPC/ssl/s3_both.cc:184-205 | a message is cut into records of at most the fragment size, all sealed in order |
| `WritePath.TlsWriter.FlushFlight` | ATT/Pods/BoringSSL-GRPC/ssl/s3_both.cc:231-279 | buffer first, then the flight, then the transport's flush; conservation is kept at every short or failed write, and success leaves nothing |
| `WritePath.TlsWriter.WritePending` | ATT/Pods/BoringSSL-GRPC/ssl/s3_pkt.cc:202-219 | a retry must match the stuck record, and success means it has been written |
| `WritePath.TlsWriter.WriteRecord` | ATT/Pods/BoringSSL-GRPC/ssl/s3_pkt.cc:221-289 | seals a record once, behind the rest of the flight, or goes on writing the one that is stuck |
| `WritePath.TlsWriter.WriteAppData` | ATT/Pods/BoringSSL-GRPC/ssl/s3_pkt.cc:129-200 | retried with the same data, each byte is sealed once: r reported means exactly data[..r], a failure remembers how much is sealed |
| `WritePath.TlsWriter.DispatchAlert` | ATT/Pods/BoringSSL-GRPC/ssl/s3_pkt.cc:405-423 | an alert goes through the same path and disturbs no application data |
| `WritePath.TlsWriter.WriteUntilDone` | ATT/Pods/BoringSSL-GRPC/ssl/s3_pkt.cc:129-200 | for any schedule of failures, a return of r means exactly data[..r] was sealed, in order and once, and the transport has it all |
| `WritePath.TlsWriter.FullySent` | ATT/Pods/BoringSSL-GRPC/ssl/s3_pkt.cc:202-219 | with the write buffer empty the transport has every record but some of the flight's, which carry no application data |
| `HandshakeStream.HandshakeReader.GetMessage` | ATT/Pods/BoringSSL-GRPC/ssl/s3_both.cc:399-439 | the message at the front of the buffer, when all of it is there |
| `HandshakeStream.HandshakeReader.NextMessage` | ATT/Pods/BoringSSL-GRPC/ssl/s3_both.cc:562-583 | removes exactly that message |
| `HandshakeStream.BufferBounded` | ATT/Pods/BoringSSL-GRPC/ssl/s3_both.cc:441-459 | a reader that checks before it takes a record never holds more than one allowed message and one record, and otherwise does what one without the check does |
| `HandshakeStream.RefusedExactly` | ATT/Pods/BoringSSL-GRPC/ssl/s3_both.cc:441-459 | however the stream is cut, more is refused exactly while a whole message waits, or once the header of a message too long is there |
| `HandshakeStream.MessagesInOrder` | ATT/Pods/BoringSSL-GRPC/ssl/s3_both.cc:399-439 | however the stream of messages is cut into records, the messages taken are those sent, in order |
| `ClientMachine.StepKeeps` | ATT/Pods/BoringSSL-GRPC/ssl/handshake_client.cc:1707-1789 | every step of a client, whatever it receives, decreases a measure that knows whether a session is resumed, and keeps the log of cipher changes and Finished right |
| `ClientMachine.DoneMeansFinished` | ATT/Pods/BoringSSL-GRPC/ssl/handshake_client.cc:1457-1672 | a client that is done has checked the server's Finished once after its read cipher changed, and sent its own once after its write cipher did |
| `ServerMachine.StepKeeps` | ATT/Pods/BoringSSL-GRPC/ssl/handshake_server.cc:1539-1621 | the same for the server |
| `ServerMachine.DoneMeansFinished` | ATT/Pods/BoringSSL-GRPC/ssl/handshake_server.cc:1365-1509 | the same for the server |
| `ClientWalk.StepWalks` | ATT/Pods/BoringSSL-GRPC/ssl/handshake_client.cc:535-1672 | from any state, served what the handshake has next, a client step reads or sends exactly the next messages and is no error |
| `ClientWalk.ReadingMeansMessage` | ATT/Pods/BoringSSL-GRPC/ssl/handshake_client.cc:535-1672 | a client that waits has something of the server's coming, of the kind it waits for |
| `ClientWalk.StepSendsHonestly` | ATT/Pods/BoringSSL-GRPC/ssl/handshake_client.cc:1457-1512 | what a client step sends is hashed, and a Finished among it is over the transcript before it and is its only one |
| `ServerWalk.StepWalks` | ATT/Pods/BoringSSL-GRPC/ssl/handshake_server.cc:432-1509 | the same walk for the server |
| `ServerWalk.ReadingMeansMessage` | ATT/Pods/BoringSSL-GRPC/ssl/handshake_server.cc:432-1461 | a server that waits has something of the client's coming |
| `ServerWalk.StepSendsHonestly` | ATT/Pods/BoringSSL-GRPC/ssl/handshake_server.cc:1463-1509 | what a server step sends is hashed, and its one Finished is over the transcript before it |
| `Agreement.ClientStepKeeps` | ATT/Pods/BoringSSL-GRPC/ssl/handshake_client.cc:1707-1789 | a client step keeps the joint invariant: one side is ahead by what is on its way, and both have hashed the same |
| `Agreement.ServerStepKeeps` | ATT/Pods/BoringSSL-GRPC/ssl/handshake_server.cc:1539-1621 | a server step keeps it |
| `Agreement.NeverUnexpected` | ATT/Pods/BoringSSL-GRPC/ssl/handshake.cc:165-174 | in no run of both, full or resumed, under any terms and contents, does a side meet a message it does not expect |
| `Agreement.ClientAgrees` | ATT/Pods/BoringSSL-GRPC/ssl/handshake.cc:380-429 | when the client has a Finished before it, the server computed it over exactly the client's transcript |
| `Agreement.ServerAgrees` | ATT/Pods/BoringSSL-GRPC/ssl/handshake.cc:380-429 | when the server has a Finished before it, the client computed it over exactly the server's transcript |
| `Agreement.RunsComplete` | ATT/Pods/BoringSSL-GRPC/ssl/handshake.cc:491-628 | every run ends within 78 steps; where it can go no further both are done, nothing is unread, transcripts agree, each Finished checked and sent once in the order of the kind of handshake |
| `ClientHandshake.Handshake.RunHandshake` | ATT/Pods/BoringSSL-GRPC/ssl/handshake.cc:491-628 | the loop takes exactly the machine's steps and stops only when done, failed, waiting, unable to flush, or returning early |
| `ServerHandshake.Handshake.RunHandshake` | ATT/Pods/BoringSSL-GRPC/ssl/handshake.cc:491-628 | the same loop for the server |
| `Conversation.Converse` | ATT/Pods/BoringSSL-GRPC/ssl/handshake.cc:491-628 | the two objects, each run on what the other has sent, come to an end in which both are done, nothing is unread, the transcripts agree, and each Finished was checked and sent once in the order of the kind of handshake |
| `CipherChoice.ChooseFrom` | ATT/Pods/BoringSSL-GRPC/ssl/handshake_server.cc:357-424 | the loop over a preference list with groups yields the best shared cipher: earliest group, then earliest in the other side's list; none exactly when no group that ends has a shared one |
| `CipherChoice.ChosenOnce` | ATT/Pods/BoringSSL-GRPC/ssl/internal.h:1860-1889 | that specification determines the choice |
| `CipherChoice.FoundIfShared` | ATT/Pods/BoringSSL-GRPC/ssl/internal.h:1870-1889 | with well-formed group flags a cipher is found exactly when one is shared |
| `CipherChoice.NoneExactly` | ATT/Pods/BoringSSL-GRPC/ssl/handshake_server.cc:376-423 | for any lists none is chosen if and only if every shared cipher lies in a group that does not end |
| `CipherChoice.UnendedGroupHides` | ATT/Pods/BoringSSL-GRPC/ssl/handshake_server.cc:376-423 | for any flags that leave the last group open, a client that offers its last cipher alone is refused though it is shared |
| `CipherChoice.UngroupedIsFirst` | ATT/Pods/BoringSSL-GRPC/ssl/handshake_server.cc:371-379 | without groups the choice is the first shared cipher of the deciding side |
| `CipherChoice.ParseCipherList` | ATT/Pods/BoringSSL-GRPC/ssl/handshake_server.cc:293-319 | the known ciphers of the client's list in order, or failure on a trailing half value |
| `CipherChoice.ChooseCipher` | ATT/Pods/BoringSSL-GRPC/ssl/handshake_server.cc:357-424 | whose preference decides, and nothing for a malformed list |
| `RefCount.LockedCount.IncRef` | ATT/Pods/BoringSSL-GRPC/crypto/refcount_lock.c:29-35 | adds one below the greatest count, and nothing there |
| `RefCount.LockedCount.DecAndTestZero` | ATT/Pods/BoringSSL-GRPC/crypto/refcount_lock.c:37-51 | takes one away below the greatest count and says whether none is left; zero is refused |
| `RefCount.StepKeeps` | ATT/Pods/BoringSSL-GRPC/crypto/refcount_c11.c:37-65 | each atomic step of any thread, spurious failures included, keeps the finished operations explicable as locked ones |
| `RefCount.Linearizable` | ATT/Pods/BoringSSL-GRPC/crypto/refcount_c11.c:37-65 | in any interleaving of any number of threads, the finished operations in the order they took effect are a run of the locked form with the same results and count |
| `RefCount.LoggedWhenFinished` | ATT/Pods/BoringSSL-GRPC/crypto/refcount_c11.c:37-65 | an operation takes effect once, between its call and its return |
| `RefCount.RunCountIsExact` | ATT/Pods/BoringSSL-GRPC/crypto/refcount_c11.c:37-65 | below the greatest value the count is the initial one plus increments minus decrements |
| `RefCount.SaturatedForGood` | ATT/Pods/BoringSSL-GRPC/crypto/refcount_c11.c:41-46 | once the greatest value is reached the count never changes |
| `RefCount.OnlyLastHolderReleases` | ATT/Pods/BoringSSL-GRPC/crypto/refcount_c11.c:49-65 | where only holders count, no decrement aborts, at most one returns one, and after it nobody holds or is using a reference |
| `Der.LengthWritten` | ATT/Pods/BoringSSL-GRPC/crypto/bytestring/cbb.c:199-283 | a DER length reads back as the length (section 8.1.3 of ITU-T X.690) |
| `Der.LengthCanonical` | ATT/Pods/BoringSSL-GRPC/crypto/bytestring/cbs.c:259-321 | nothing but the shortest form is read as a length |
| `Der.IntegerWritten` | ATT/Pods/BoringSSL-GRPC/crypto/bytestring/cbb.c:473-506 | an INTEGER reads back as the 64-bit value |
| `Der.IntegerCanonical` | ATT/Pods/BoringSSL-GRPC/crypto/bytestring/cbs.c:391-426 | and has one form only |
| `Der.ElementRead` | ATT/Pods/BoringSSL-GRPC/crypto/bytestring/cbs.c:350-375 | an element is read back with its tag, its contents, and what follows left over |
| `Der.OptionalRead` | ATT/Pods/BoringSSL-GRPC/crypto/bytestring/cbs.c:444-459 | a context-specific element is read if it is there, and nothing is if what follows has a higher number |
| `ByteStrings.Builder.Close` | ATT/Pods/BoringSSL-GRPC/crypto/bytestring/cbb.c:199-283 | closing an element writes its length in place and moves the contents along, or fails exactly above 0xfffffffe bytes |
| `ByteStrings.Builder.AddInteger` | ATT/Pods/BoringSSL-GRPC/crypto/bytestring/cbb.c:473-506 | skipping leading zeros and padding a high bit writes the INTEGER's bytes |
| `Session.ParseInvertsSerialize` | ATT/Pods/BoringSSL-GRPC/ssl/ssl_asn1.cc:527-757 | for every well-formed session and every combination of optional fields, parsing the serialization consumes it and yields the session without what is meant to be left out |
| `Session.LosesNothing` | ATT/Pods/BoringSSL-GRPC/ssl/ssl_asn1.cc:205-275 | a session is kept whole exactly when there is no certificate beside a digest, no session ID or ticket in ticket form, and no empty ticket or early ALPN |
| `Session.IdentityRead` | ATT/Pods/BoringSSL-GRPC/ssl/ssl_asn1.cc:593-625 | peer certificate, context, verify result, identity, hint and ticket read back; an old host name would be skipped |
| `Session.ProofsRead` | ATT/Pods/BoringSSL-GRPC/ssl/ssl_asn1.cc:627-667 | digest, handshake hash, timestamps, OCSP, extended master secret and group read back |
| `Session.ChainRead` | ATT/Pods/BoringSSL-GRPC/ssl/ssl_asn1.cc:669-719 | the chain is read back element by element, only behind a leaf |
| `Session.TailRead` | ATT/Pods/BoringSSL-GRPC/ssl/ssl_asn1.cc:721-754 | ticket age, side, signature algorithm, early data, timeout and ALPN read back, with their defaults |
| `SessionCodec.ToBytesFull` | ATT/Pods/BoringSSL-GRPC/ssl/ssl_asn1.cc:200-399 | writes exactly the serialized session, and fails exactly where it is too large for a length |
| `SessionCodec.ParseSession` | ATT/Pods/BoringSSL-GRPC/ssl/ssl_asn1.cc:527-757 | reads field by field exactly what the parser's specification yields |

## Left out

nanopb

- Callback fields, extension contents, pointer fields, the old callback style and builds without 64-bit integers: user code or build variants.  Extension fields occur in descriptors and are skipped.
- Wire types that do not fit a field's type: the decoder does not check them, and the laws are about correctly typed fields.
- Storage read at another type: a union member read as another member's type, and the bytes of a struct a value of another shape lies in, read as zeros.
- An array without a count inside a proto3 struct whose entries are structs themselves, or that is shorter than four bytes: the bytes of a nested struct and those behind the array are not laid out, and are taken as zeros where the default check reads them.
- The zeroing of the first bytes of a fixed-count array when it is set to its default, which decoding overwrites.
- Wrap-around of `size_t`, except in the casts of lengths, where it is modelled.
- pb_decode_delimited, pb_encode_delimited and the null-terminated forms: a length before a message, which nested messages already have.

DTLS

- Timers and the query for the path MTU: the MTU is an input of every call.
- Dropping the last flight at the end of the handshake when it had a reply (`dtls1_on_handshake_complete`): the laws hold whether or not it is retransmitted.
- Record protection is a pair of functions for each epoch, of which `Delivery` asks that the one opens what the other sealed; that an attacker cannot seal is not modelled, so what the network presents is what the sender once sent.
- Delivery.DeliveredInOrder: assumes fewer than 65536 messages and no more than 65536 epochs on either side, so that the 16-bit numbers do not wrap; the record laws bound the epochs in the same way.
- Records.NoNumberUsedTwice: holds up to the first reported wraparound of a counter, as the code gives no promise beyond it.

TLS

- WritePath.TlsWriter.WriteAppData: requires of each record it seals that the aligned offset of its memory and its capacity come to at most 65536, as every transport then takes it unharmed; a record that fills less than its capacity might get by with more (`Buffers.FlushConserves` is the exact condition on a filled buffer).
- Early data, SSL 3.0, the V2 ClientHello and renegotiation.
- TLS 1.3, the DTLS cookie exchange, Channel ID and the retries of asynchronous callbacks in the handshake machines.
- The contents of handshake messages: what the hello says is a function of its bytes, and a message that fails to parse is an error the model does not show.  Finished is a function of the transcript and the sender; secrets are not modelled.
- Agreement.RunsComplete: says that a run that cannot go on is complete and bounds its length; that the transport delivers is the assumption.
- Alerts beyond the write path, and the info callback.

The rest

- SSL_SESSION_to_bytes and the NOT RESUMABLE placeholder, X.509 objects behind the certificates (a predicate on the bytes), and BER.
- Allocation failure everywhere: the buffers of the model always grow.
- Memory orders: the reference count's atomic operations are sequentially consistent, as the original's are by default.
- The application's own code, and tables, probes and wrappers of the libraries: nothing hard to prove.
