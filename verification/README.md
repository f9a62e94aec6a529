# Verified models of the DTLS transport, nanopb, the TLS client handshake and the reference counts

The application in this repository rests on three vendored components and one small concurrent one.
This project models them in Dafny and proves what they are for.

* **DTLS handshake transport** (section 4 of RFC 6347): the replay window (`ReplayWindow`), write sequence
  numbers (`RecordSeal`), fragment headers (`Fragments`), reassembly with a bit per byte (`Reassembly`), the ring of
  incoming messages (`Receiver`), queued flights and the pieces they are cut into, with a resumable cursor (`Flight`),
  what a run of the sender does as a function of what it meets (`Sending`), how well it fills its packets (`Cutting`),
  what a refused seal costs (`Losses`), the sending object (`Sender`), sender, network and receiver together
  (`EndToEnd`), and what is said to every record that arrives (`Arrivals`).
* **nanopb**, the Protocol Buffers wire format: scalar encodings (`PbWire`), descriptors, messages and what encoding
  and decoding mean (`PbMessage`), the output streams and the encoder (`PbEncode`), the input streams (`PbInput`), the
  field iterator (`FieldIter`), the decoder with its required-field words (`PbDecode`), the round trip
  (`PbRoundTrip`), encoder and decoder together (`PbCodec`), merging by concatenation (`PbMerge`), also inside
  submessages (`PbNested`), the bytes themselves and readers and writers with other descriptors (`PbFormat`), what else
  can be read (`PbReading`) and what fits (`PbLimits`).
* **The TLS client handshake below TLS 1.3** (section 7.3 of RFC 5246): the message flow as a reference
  (`HandshakeFlow`), the invariant and every kind of step (`ClientHandshake`), where each state leads
  (`HandshakeSteps`), the state methods and both loops (`ClientMachine`), and what the invariant says about whole runs
  (`HandshakeRuns`).
* **Reference counts**: loads and weak compare-exchanges refine critical sections (`Refcount`).

`Words` defines C's operators on unsigned words bit by bit, so that shifts, masks and wrap-around are the source's own.

Where the source works in place there are classes and arrays with loops; each method is proved against a function on
values, and the lemmas are about those functions and about whole runs. Bytes are numbers from 0 to 255.
`PB_FIELD_32BIT` is set for the nanopb target, so sizes and tags have 32 bits. The ring of incoming messages has
`SSL_MAX_HANDSHAKE_FLIGHT` = 7 places. Authenticated encryption is ideal: it may refuse, and otherwise adds at most its
overhead. MACs and signatures of the handshake stand for what they are computed from. What the DTLS handshake hashes of
a message is its single-fragment form (section 4.2.6 of RFC 6347), on both sides: `EndToEnd.SameTranscript`. `Basics`
holds what several modules share.

`dafny verify dfyconfig.toml` checks everything.

## Where the code is not what one might expect

* A fragment exactly one ring size ahead passes the first check (`d1_both.cc:380-382`) and is then refused with an
  error (`d1_both.cc:267-268`); it is modelled as written.
* The read and write epochs are 16-bit numbers that wrap, and an overflowing write counter starts again at zero:
  `ReplayAfterEpochWrap`, `ReuseAfterEpochWrap` and `ReuseAfterOverflow` are the runs in which uniqueness ends.
* The number of the awaited message wraps at 2^16; `LateCopyAfterWrap` is the run in which an old message comes back.
* When sealing fails in the middle of a packet the cursor stays advanced (`d1_both.cc:788-790`); only a failed write
  restores it. The records sealed into that packet before are lost. `LostExactly` says when this happens,
  `NothingLost` when it cannot, and `LossExample` is such a run.
* A message that ends in the middle of a tag is accepted by the decoder, and a zero byte in place of a tag ends it
  early (`pb_decode.c:258-268`). In an empty descriptor tag 0 finds the terminator and fails.
* The encoder shifts tags on 64 bits, the decoder reads them on 32, so tags of 2^29 and more lose their high bits. No
  error is reported: the field is taken for another one (`HighTagOverwrites`) or for the end of the message
  (`HighTagIsLost`). A string that fills its buffer is encoded and then refused (`FullTextIsRefused`), and a submessage
  without a has-flag whose array starts with a zero is left out (`ZeroFirstIsLost`). `MessageBack` says exactly which
  messages come back.
* With exactly 32 required fields the decoder's last shift is by the full width of its word, and from 64 on the check
  reads past its words (`pb_decode.c:946`). This happens for every message of such a descriptor that can be read
  (`WholeMessageUndefined`, `NumbersUndefined`).
* Fields are looked for from where the iterator was left, so concatenating messages merges them only for descriptors
  in which that makes no difference, those with distinct tags for instance: `MergesExactly`.

## Model

| member | source | states |
|---|---|---|
| `ReplayWindow.NoReplay` | iosfinal2018/Pods/BoringSSL/ssl/dtls_record.cc:177-272 | Over every run of arriving records and changes of read keys, as long as fewer than 65536 key changes happened, no sequence field (epoch and number) is accepted twice. |
| `ReplayWindow.WindowIsExact` | iosfinal2018/Pods/BoringSSL/ssl/dtls_record.cc:138-150 | After any run, a number is discarded exactly when it was accepted in the current epoch or lies 64 or more behind the maximum. |
| `ReplayWindow.DiscardMeansSeenOrStale` | iosfinal2018/Pods/BoringSSL/ssl/dtls_record.cc:138-150 | If bit k stands for "max - k was accepted", the discard test means accepted before, or at least 64 behind. |
| `ReplayWindow.RecordRemembers` | iosfinal2018/Pods/BoringSSL/ssl/dtls_record.cc:155-175 | Recording an undiscarded number adds that number to the set the bitmap stands for, and nothing else. |
| `ReplayWindow.SlideRemembers` | iosfinal2018/Pods/BoringSSL/ssl/dtls_record.cc:159-169 | Sliding the window, by less or by more than its width, forgets nothing that is still inside. |
| `ReplayWindow.ReplayAfterEpochWrap` | iosfinal2018/Pods/BoringSSL/ssl/dtls_method.cc:81-95 | The bound is tight: after 65536 key changes the 16-bit epoch is back and a record of epoch 0 is accepted again. |
| `ReplayWindow.ManyKeyChanges` | iosfinal2018/Pods/BoringSSL/ssl/dtls_method.cc:81-95 | n key changes leave the epoch at n modulo 65536 and an empty window. |
| `ReplayWindow.Bitmap.ToU64` | iosfinal2018/Pods/BoringSSL/ssl/dtls_record.cc:128-136 | The byte loop computes the big-endian number of the whole sequence field. |
| `ReplayWindow.Bitmap.Discards` | iosfinal2018/Pods/BoringSSL/ssl/dtls_record.cc:138-150 | The test on the 64-bit word is the test on the set of bits. |
| `ReplayWindow.Bitmap.Mark` | iosfinal2018/Pods/BoringSSL/ssl/dtls_record.cc:155-175 | The shifts and ors on the 64-bit word give the window that the specification records. |
| `ReplayWindow.RecordReader.OpenRecord` | iosfinal2018/Pods/BoringSSL/ssl/dtls_record.cc:177-272 | Opening a record discards or accepts as specified, marks the bitmap only after decryption succeeded and before the record's contents are judged. |
| `ReplayWindow.RecordReader.SetReadState` | iosfinal2018/Pods/BoringSSL/ssl/dtls_method.cc:81-95 | New read keys: next epoch, empty bitmap. |
| `ReplayWindow.DeliveredExactly` | iosfinal2018/Pods/BoringSSL/ssl/dtls_record.cc:177-272 | After any run a record is dropped exactly when its version, epoch or length is wrong, it cannot be decrypted, or its number was seen or is 64 or more behind; every other one is delivered, or refused for its length, or read as an alert. |
| `RecordSeal.NoReuse` | iosfinal2018/Pods/BoringSSL/ssl/dtls_record.cc:294-351 | No two successfully sealed records carry the same epoch and sequence number, over any mix of seals, previous-epoch seals and key changes, unless a 48-bit counter overflowed or 65536 key changes happened. |
| `RecordSeal.NoReuseWithinBounds` | iosfinal2018/Pods/BoringSSL/ssl/dtls_record.cc:294-351 | The same in terms a caller can count beforehand: fewer than 2^48 calls, whatever their results, and fewer than 65536 key changes; no call then overflows. |
| `RecordSeal.ReuseAfterEpochWrap` | iosfinal2018/Pods/BoringSSL/ssl/dtls_method.cc:97-107 | The bound on key changes is tight: after 65536 of them the write epoch is 0 again and, with no overflow anywhere, the pair of the first record is used a second time. |
| `RecordSeal.ReuseAfterOverflow` | iosfinal2018/Pods/BoringSSL/ssl/tls_record.cc:154-163 | The bound on calls is tight: the 2^48th call reports the overflow with the counter back at zero, and the next one seals number 0 a second time. |
| `RecordSeal.IncrementedValue` | iosfinal2018/Pods/BoringSSL/ssl/tls_record.cc:154-163 | The counter as a number grows by one; success is reported exactly when it did not overflow, and on overflow it is zero. |
| `RecordSeal.SequenceUpdate` | iosfinal2018/Pods/BoringSSL/ssl/tls_record.cc:154-163 | The carry loop increments the counter field in place and changes no byte outside it. |
| `RecordSeal.RecordWriter.SealRecord` | iosfinal2018/Pods/BoringSSL/ssl/dtls_record.cc:294-351 | Seals with the current or the previous epoch's counter, and leaves the other one alone; a counter moves on even when the seal fails after it. |
| `RecordSeal.RecordWriter.SetWriteState` | iosfinal2018/Pods/BoringSSL/ssl/dtls_method.cc:97-107 | New write keys: the counter is kept as the previous epoch's and restarts at zero. |
| `RecordSeal.SealedExactly` | iosfinal2018/Pods/BoringSSL/ssl/dtls_record.cc:294-351 | After any run without an overflow a call seals exactly when there is room and the AEAD does, under the epoch asked for, the previous one included, with the next number of that epoch. |
| `Refcount.Refinement` | iosfinal2018/Pods/BoringSSL/crypto/refcount_c11.c:37-65 | Every interleaving of loads and weak compare-exchanges, spurious failures included, is a sequence of critical sections of the locked version with the same results and the same count. |
| `Refcount.StepRefines` | iosfinal2018/Pods/BoringSSL/crypto/refcount_c11.c:37-65 | One load or exchange is one critical section or nothing that can be seen. |
| `Refcount.NeverAborts` | iosfinal2018/Pods/BoringSSL/crypto/refcount_c11.c:49-65 | If threads release only references they hold, no thread reaches abort, and at most one release reports the end. |
| `Refcount.LastReleaseReportsZero` | iosfinal2018/Pods/BoringSSL/crypto/refcount_c11.c:49-65 | A release that completes while not saturated returns 1 exactly when no reference is left. |
| `Refcount.SaturationIsForever` | iosfinal2018/Pods/BoringSSL/crypto/refcount_c11.c:37-65 | From the maximum on the count never changes and no release returns 1. |
| `Refcount.LockedCount.Increment` | iosfinal2018/Pods/BoringSSL/crypto/refcount_lock.c:29-35 | The locked increment: up by one, or stuck at the maximum. |
| `Refcount.LockedCount.DecAndTestZero` | iosfinal2018/Pods/BoringSSL/crypto/refcount_lock.c:37-51 | The locked release: abort at zero, stuck at the maximum, otherwise down by one and told whether zero is reached. |
| `Fragments.HeaderRoundTrip` | iosfinal2018/Pods/BoringSSL/ssl/d1_both.cc:163-180 | The twelve header bytes written are read back to the same header. |
| `Fragments.ParseSerialize` | iosfinal2018/Pods/BoringSSL/ssl/d1_both.cc:459-473 | Parsing a written fragment gives its header, its body and what follows. |
| `Fragments.SerializeParse` | iosfinal2018/Pods/BoringSSL/ssl/d1_both.cc:459-473 | Whatever parses is the bytes of the header and body it parsed to: nothing is dropped. |
| `Fragments.HeaderLayout` | iosfinal2018/Pods/BoringSSL/ssl/d1_both.cc:459-473 | Type, length, sequence number, offset and fragment length are where section 4.2.2 of RFC 6347 puts them, high byte first. |
| `Reassembly.BitRange` | iosfinal2018/Pods/BoringSSL/ssl/d1_both.cc:203-205 | The result has exactly the bits start to end-1. |
| `Reassembly.HmFragment.constructor` | iosfinal2018/Pods/BoringSSL/ssl/d1_both.cc:152-199 | A new slot holds the single-fragment header, room for the body, and a mask with no bit set, or no mask for an empty message. |
| `Reassembly.HmFragment.Mark` | iosfinal2018/Pods/BoringSSL/ssl/d1_both.cc:207-251 | Bit i is set exactly when it was set or start <= i < end; bits past the message stay clear; the mask is freed exactly when every byte is covered. |
| `Reassembly.HmFragment.SetBits` | iosfinal2018/Pods/BoringSSL/ssl/d1_both.cc:226-236 | First byte, whole bytes in between and last byte together set just the bits of the range. |
| `Reassembly.HmFragment.IsComplete` | iosfinal2018/Pods/BoringSSL/ssl/d1_both.cc:238-250 | The completeness test compares every mask byte with what a complete message has there. |
| `Reassembly.CompleteBytes` | iosfinal2018/Pods/BoringSSL/ssl/d1_both.cc:238-250 | That comparison holds exactly when every byte of the message is marked. |
| `Reassembly.HmFragment.Store` | iosfinal2018/Pods/BoringSSL/ssl/d1_both.cc:387-402 | A fragment's bytes go to their place in the buffer, whatever is there already, and its range is marked. |
| `Reassembly.HmFragment.Fill` | iosfinal2018/Pods/BoringSSL/ssl/d1_both.cc:397-400 | Copies the body to its offset behind the header and leaves every other byte. |
| `Reassembly.MarksAddUp` | iosfinal2018/Pods/BoringSSL/ssl/d1_both.cc:207-251 | After any sequence of overlapping, repeated or reordered marks, a byte is marked exactly when some range covered it, and the mask is gone exactly when all are. |
| `Reassembly.CompleteStays` | iosfinal2018/Pods/BoringSSL/ssl/d1_both.cc:211-217 | Marks on a complete message change nothing. |
| `Receiver.LookupOk` | iosfinal2018/Pods/BoringSSL/ssl/d1_both.cc:265-295 | A slot that is found or made sits at seq modulo the ring size and agrees with the fragment's sequence number, type and length: the assertion in the source holds. |
| `Receiver.ReceiveOk` | iosfinal2018/Pods/BoringSSL/ssl/d1_both.cc:362-402 | Receiving a fragment keeps the ring invariant: slot i holds a sequence number congruent to i inside the window. |
| `Receiver.NextMessageOk` | iosfinal2018/Pods/BoringSSL/ssl/d1_both.cc:426-438 | So does consuming the current message, also when the 16-bit number wraps. |
| `Receiver.HandshakeReader.GetIncoming` | iosfinal2018/Pods/BoringSSL/ssl/d1_both.cc:265-295 | Finds, makes or refuses a slot; a message one past the window, which the caller lets through, is refused here. |
| `Receiver.HandshakeReader.ReceiveFragment` | iosfinal2018/Pods/BoringSSL/ssl/d1_both.cc:362-402 | Bounds, stale and far-future messages, then the slot: the ring and the verdict are those of `Receive`, which `Arrivals` says exactly for what a sender sends. |
| `Receiver.HandshakeReader.Store` | iosfinal2018/Pods/BoringSSL/ssl/d1_both.cc:387-402 | Only the fragment's own slot changes. |
| `Receiver.HandshakeReader.OpenHandshake` | iosfinal2018/Pods/BoringSSL/ssl/d1_both.cc:297-406 | Dispatch by content type: unencrypted application data and encrypted ChangeCipherSpecs are errors, encrypted application data is discarded, a proper ChangeCipherSpec is flagged, anything unknown refused; handshake records are read fragment by fragment. |
| `Receiver.HandshakeReader.ReadFragments` | iosfinal2018/Pods/BoringSSL/ssl/d1_both.cc:345-406 | All fragments of a record, in order, until one is refused. |
| `Receiver.OpenRecordOk` | iosfinal2018/Pods/BoringSSL/ssl/d1_both.cc:297-406 | No record of any content type disturbs the ring's invariant, moves the window or changes the epoch, and only an unencrypted ChangeCipherSpec sets the flag. |
| `Receiver.HandshakeReader.OpenChangeCipherSpec` | iosfinal2018/Pods/BoringSSL/ssl/d1_both.cc:475-490 | Uses up the flag of a ChangeCipherSpec; without one the record is opened first, and what is no ChangeCipherSpec is discarded once it was read. |
| `Receiver.HandshakeReader.GetMessage` | iosfinal2018/Pods/BoringSSL/ssl/d1_both.cc:408-424 | Gives the awaited message exactly when it is complete, and leaves it there. |
| `Receiver.HandshakeReader.Next` | iosfinal2018/Pods/BoringSSL/ssl/d1_both.cc:426-432 | Frees the current slot and moves the window by one. |
| `Receiver.HandshakeReader.HasUnprocessedData` | iosfinal2018/Pods/BoringSSL/ssl/d1_both.cc:440-457 | True exactly when a message or ChangeCipherSpec is waiting to be processed. |
| `Receiver.HandshakeReader.SetReadState` | iosfinal2018/Pods/BoringSSL/ssl/dtls_method.cc:81-95 | Refuses new read keys while data is unprocessed; otherwise the epoch moves on. |
| `Receiver.ChangeServesOnce` | iosfinal2018/Pods/BoringSSL/ssl/d1_both.cc:475-490 | A ChangeCipherSpec that came early is kept and serves one wait, whatever record is at hand then; a wait without one is not over. |
| `Arrivals.FragmentVerdict` | iosfinal2018/Pods/BoringSSL/ssl/d1_both.cc:345-402 | The verdict on a fragment of the sender, whatever was received before: an error exactly when its message is too long, when it is not of the next message while the epoch is 1, or when its message is exactly one ring size ahead; no error in any other case. |
| `Arrivals.ArrivalOutcome` | iosfinal2018/Pods/BoringSSL/ssl/d1_both.cc:297-406 | In any run the outcome of every record that arrives in the epoch it was sent in, however often and late. |
| `Arrivals.BeforeKeysNothingFails` | iosfinal2018/Pods/BoringSSL/ssl/d1_both.cc:375-385 | Before keys are in use every record the sender sent succeeds, unless its message is too long or exactly one ring size ahead; a retransmission of what was delivered changes nothing and is no error. |
| `Arrivals.ManyFragments` | iosfinal2018/Pods/BoringSSL/ssl/d1_both.cc:351-406 | A record of any number of fragments none of which is refused: the stale and far ones are passed over, every one behind them that can be taken in is, and the record succeeds. |
| `Arrivals.LeftOverExactly` | iosfinal2018/Pods/BoringSSL/ssl/d1_both.cc:440-457 | After any run something is left over exactly when a ChangeCipherSpec is kept or a fragment was taken in of a message that is neither delivered nor being looked at. |
| `Arrivals.CanDeliver` | iosfinal2018/Pods/BoringSSL/ssl/d1_both.cc:265-438 | From every state of every run the next message can be delivered if its records are on the network, whatever arrived before: the receiver is never stuck. |
| `Flight.DataRoundTrip` | iosfinal2018/Pods/BoringSSL/ssl/d1_both.cc:525-568 | What is kept for a queued message parses back to it, as a single fragment. |
| `Flight.TilesCarry` | iosfinal2018/Pods/BoringSSL/ssl/d1_both.cc:630-720 | Pieces that lead from one cursor to another carry, of each message, exactly the bytes between the two points: no gap and no overlap. |
| `Flight.WholeFlightCarriesAll` | iosfinal2018/Pods/BoringSSL/ssl/d1_both.cc:630-813 | A flight that was sent to its end carried every message's whole body. |
| `Flight.ResumedFlightIsWhole` | iosfinal2018/Pods/BoringSSL/ssl/d1_both.cc:768-820 | So did a flight interrupted by a failed write and resumed. |
| `Flight.AdvanceShrinks` | iosfinal2018/Pods/BoringSSL/ssl/d1_both.cc:630-720 | Every record brings the flight nearer to its end. |
| `Sender.FlightSender.AddOutgoing` | iosfinal2018/Pods/BoringSSL/ssl/d1_both.cc:541-580 | Starts a new flight after a complete one, refuses an eighth message, numbers and hashes messages, in single-fragment form, but not ChangeCipherSpecs. |
| `Sender.FlightSender.AddMessage` | iosfinal2018/Pods/BoringSSL/ssl/d1_both.cc:582-584 | Queues a handshake message under the next sequence number and the current epoch, and adds it to the transcript. |
| `Sender.FlightSender.AddChangeCipherSpec` | iosfinal2018/Pods/BoringSSL/ssl/d1_both.cc:586-588 | Queues a ChangeCipherSpec, which takes no sequence number. |
| `Sender.FlightSender.SealNextMessage` | iosfinal2018/Pods/BoringSSL/ssl/d1_both.cc:630-720 | Fails exactly when the message's epoch is neither the current nor the previous one, or there is room and the seal is refused; makes no progress exactly when the epoch is known and not one byte fits; otherwise seals the next piece, the rest of the message or as much as fits. |
| `Sender.FlightSender.SealPiece` | iosfinal2018/Pods/BoringSSL/ssl/d1_both.cc:664-720 | The same for a handshake fragment; the length of its piece is that of `NextPiece`, which `Cutting.PacketUsesRoom` shows to be the largest that fits. |
| `Sender.FlightSender.SealChange` | iosfinal2018/Pods/BoringSSL/ssl/d1_both.cc:647-662 | The same for a ChangeCipherSpec. |
| `Sender.FlightSender.SealNextPacket` | iosfinal2018/Pods/BoringSSL/ssl/d1_both.cc:725-766 | The packet, the verdict and the cursor are those of `Fill`: consecutive pieces, each the rest of its message or as much as fits, until nothing is left, a message was cut, the next does not fit or a seal fails. |
| `Sender.FlightSender.SendFlight` | iosfinal2018/Pods/BoringSSL/ssl/d1_both.cc:768-813 | For every outcome of seals, writes and flush the run is the one `SendAll` determines down to the last record: packets taken, records lost, the packet blocked, the result and the cursor. |
| `Sender.FlightSender.SendNextPacket` | iosfinal2018/Pods/BoringSSL/ssl/d1_both.cc:784-801 | One packet of that run sealed and written, or the reason why it is over. |
| `Sender.LossExample` | iosfinal2018/Pods/BoringSSL/ssl/d1_both.cc:742-790 | A run of the object that loses a record although the transport takes everything: two messages that fit one packet, the second seal refused; the first record was never written and the cursor stays behind it. |
| `Flight.LostIsNotSentAgain` | iosfinal2018/Pods/BoringSSL/ssl/d1_both.cc:784-813 | Going on after a failure does not make up for the loss: a message's bytes are those sent before, those lost and those sent after, in this order. |
| `Sending.SendIsWhole` | iosfinal2018/Pods/BoringSSL/ssl/d1_both.cc:768-813 | Whatever seals, writes and flush do: the packets taken and the records lost tile the flight from the old cursor to the new one, each packet within the MTU and taken. The result is told by where the run stopped: refused after a shutdown; failed exactly when the next message's keys are gone, the piece opening a packet has no room or a seal is refused; blocked, with the cursor before the packet, when a write fails; sent or unflushed exactly at the flight's end. |
| `Sending.FillPacked` | iosfinal2018/Pods/BoringSSL/ssl/d1_both.cc:725-766 | A packet is consecutive pieces from the cursor to the new one, and within the MTU. |
| `Sending.FillReasoned` | iosfinal2018/Pods/BoringSSL/ssl/d1_both.cc:725-766 | A packet that succeeds is full: the flight is at its end, its last message was cut, or the next piece does not fit what is left. One that fails was stopped by unknown keys, a refused seal, or no room for its very first piece. |
| `Sending.NextPieceOk` | iosfinal2018/Pods/BoringSSL/ssl/d1_both.cc:664-720 | The next piece is legal at the cursor and within what the packet has left, and only a cut message leaves the cursor inside it. |
| `Cutting.PacketUsesRoom` | iosfinal2018/Pods/BoringSSL/ssl/d1_both.cc:630-766 | In a packet that ends inside a message the last piece fits what the records before it left, with header, record header and the most the seal adds, and one byte more would not; in one that ends between messages with more to send, not one byte of the next would fit. |
| `Cutting.PacketsOfMessage` | iosfinal2018/Pods/BoringSSL/ssl/d1_both.cc:683-813 | A message of n bytes alone in its flight, with every record sealed and every packet taken, takes n divided by the largest piece, rounded up, packets, and one if it is empty. |
| `Cutting.FirstPiece` | iosfinal2018/Pods/BoringSSL/ssl/d1_both.cc:683-686 | Each of these packets holds one record: the largest piece there can be, or the rest of the message. |
| `Sending.QueuedKeepsKeys` | iosfinal2018/Pods/BoringSSL/ssl/dtls_method.cc:97-107 | What was queued before a change of keys is sent under its own keys after it, unless the epoch came round, and can no longer be sent after a second change. |
| `Flight.FlightHolds` | iosfinal2018/Pods/BoringSSL/ssl/d1_both.cc:541-580 | A new flight takes seven additions and holds them in order, numbered from the next number on, ChangeCipherSpecs without a number. |
| `Flight.NoEighth` | iosfinal2018/Pods/BoringSSL/ssl/d1_both.cc:549-557 | An eighth is refused and changes nothing. |
| `Losses.LostExactly` | iosfinal2018/Pods/BoringSSL/ssl/d1_both.cc:742-801 | A run loses records exactly when the first refused seal belongs to a record that does not open its packet, as the flight is cut without refusals, and every packet before that one is taken; or when the keys run out inside a packet, likewise. |
| `Losses.NothingLost` | iosfinal2018/Pods/BoringSSL/ssl/d1_both.cc:742-801 | A condition to check beforehand: keys at hand for every message, and no refused seal among as many records as there are messages and bytes left; then nothing is lost. |
| `Losses.SecondRefused` | iosfinal2018/Pods/BoringSSL/ssl/d1_both.cc:742-790 | Two messages of a byte in one packet, the second seal refused, every packet taken: the first record is lost, exactly. |
| `Losses.SecondRefusedAlone` | iosfinal2018/Pods/BoringSSL/ssl/d1_both.cc:742-801 | The same refusal with one message to a packet loses nothing. |
| `Sender.FlightSender.Replied` | iosfinal2018/Pods/BoringSSL/ssl/d1_both.cc:433-437 | A message consumed after the flight was flushed marks the flight as answered. |
| `Sender.FlightSender.OnHandshakeComplete` | iosfinal2018/Pods/BoringSSL/ssl/dtls_method.cc:71-79 | An answered last flight is dropped, an unanswered one is kept; only a flushed flight ever counts as answered. |
| `Sender.FlightSender.FlushFlight` | iosfinal2018/Pods/BoringSSL/ssl/d1_both.cc:815-820 | The same run, and the flight counts as complete. |
| `Sender.FlightSender.Retransmit` | iosfinal2018/Pods/BoringSSL/ssl/d1_both.cc:822-831 | The same run from the start of the flight. |
| `Sender.FlightSender.SetWriteState` | iosfinal2018/Pods/BoringSSL/ssl/dtls_method.cc:97-107 | Messages queued before keep the previous epoch and its overhead. |
| `EndToEnd.DeliveredIsPrefixOfSent` | iosfinal2018/Pods/BoringSSL/ssl/d1_both.cc:265-438 | Over a network that drops, duplicates and reorders fragments, with retransmission and any cutting, as long as fewer than 2^16 messages are sent: what was delivered is at every moment a prefix of what was sent, in order, once each, byte for byte. |
| `EndToEnd.CompleteExactlyWhenCovered` | iosfinal2018/Pods/BoringSSL/ssl/d1_both.cc:255-259 | After any run, with fragments of other messages, fragments refused, deliveries and key changes in between: a message of the window is complete exactly when those of its fragments that were taken in cover every byte of its body; for the next message this is when it can be delivered. |
| `EndToEnd.SameTranscript` | iosfinal2018/Pods/BoringSSL/ssl/d1_both.cc:559-567 | However messages were cut on the way, the receiver's transcript of what was delivered is a prefix of the sender's transcript, and equal to it once all is delivered. |
| `EndToEnd.ProgressAddsUp` | iosfinal2018/Pods/BoringSSL/ssl/d1_both.cc:362-402 | After any run each slot holds what the fragments taken in for its message mark together, and is free when there are none. |
| `EndToEnd.NotAdmitted` | iosfinal2018/Pods/BoringSSL/ssl/d1_both.cc:362-385 | A fragment of the sender's that is too long, outside the window or, once keys are in use, not of the next message leaves the ring as it is. |
| `EndToEnd.Admitted` | iosfinal2018/Pods/BoringSSL/ssl/d1_both.cc:387-402 | Any other marks its range in the slot of its message, and in no other. |
| `EndToEnd.TilesAreSteps` | iosfinal2018/Pods/BoringSSL/ssl/d1_both.cc:630-813 | What the sender writes is what the protocol's cutting steps put on the network. |
| `EndToEnd.LateCopyAfterWrap` | iosfinal2018/Pods/BoringSSL/ssl/d1_both.cc:426-438 | The bound is tight: after 2^16 messages the number wraps and a late copy of message 0 is delivered again. |
| `HandshakeFlow.FinishedOnceEach` | iosfinal2018/Pods/BoringSSL/ssl/handshake_client.cc:1463-1518 | In the complete flow each side has one Finished, after its own and only key change, client first in a full handshake and server first in a resumed one. |
| `HandshakeFlow.KeyExchangeAfterChecks` | iosfinal2018/Pods/BoringSSL/ssl/handshake_client.cc:877-1077 | In a full flow the one ClientKeyExchange comes after the certificate was verified and, when there is one, after the ServerKeyExchange and its signature. |
| `HandshakeRuns.DoneIsComplete` | iosfinal2018/Pods/BoringSSL/ssl/handshake_client.cc:1701-1783 | What leads to the final state is the complete flow of section 7.3 of RFC 5246, for every choice the two sides can make. |
| `HandshakeRuns.DoneMeansFinished` | iosfinal2018/Pods/BoringSSL/ssl/handshake_client.cc:1668-1699 | A finished handshake exchanged exactly the complete flow, with each Finished over the whole transcript before it, and has hashed all of it. |
| `HandshakeRuns.NoKeyExchangeBeforeChecks` | iosfinal2018/Pods/BoringSSL/ssl/handshake_client.cc:1226-1377 | At every moment of a full handshake, errors included, no ClientKeyExchange without a verified certificate and, where the cipher needs one, a server key whose signature was verified. |
| `HandshakeRuns.NoKeyExchangeWhenResumed` | iosfinal2018/Pods/BoringSSL/ssl/handshake_client.cc:1226-1377 | A resumed handshake never sends one, errors included. |
| `HandshakeRuns.NoFinishedBeforeKeys` | iosfinal2018/Pods/BoringSSL/ssl/handshake_client.cc:1463-1518 | At every moment, errors included: no Finished before the keys of its direction changed, no change of keys before its ChangeCipherSpec, and the second Finished only after the first. |
| `HandshakeRuns.UnderwayIsBeginning` | iosfinal2018/Pods/BoringSSL/ssl/handshake_client.cc:1701-1783 | At every moment, errors included, what was exchanged is a beginning of the complete flow. |
| `HandshakeRuns.FinishedCovers` | iosfinal2018/Pods/BoringSSL/ssl/handshake.cc:371-467 | Each Finished covers every message sent and received since the last HelloVerifyRequest, once each and in order. |
| `HandshakeRuns.KeyExchangeMeansGoodPeer` | iosfinal2018/Pods/BoringSSL/ssl/handshake_client.cc:877-1077 | At every moment of a full handshake with a server certificate, errors included: a ClientKeyExchange is sent only if verifying that certificate gave a good result and, where the cipher needs a server key, verifying its signature did. |
| `HandshakeRuns.VerifiedMeansGood` | iosfinal2018/Pods/BoringSSL/ssl/handshake_client.cc:877-1077 | Neither the certificate nor the key counts as verified unless it was found to be good. |
| `HandshakeRuns.CanFinish` | iosfinal2018/Pods/BoringSSL/ssl/handshake_client.cc:1701-1783 | With a server whose certificate and key are good, from every good state there is a path of steps to a finished handshake, each of which the method of its state promises (a requested Certificate and its CertificateVerify sent where the method sends them), for DTLS and TLS, whatever the ServerHello announced and whichever certificate the client has: there is no dead end. |
| `HandshakeRuns.OneOnwards` | iosfinal2018/Pods/BoringSSL/ssl/handshake_client.cc:1701-1783 | Before the end, every good state has such a step, to the state that comes next. |
| `HandshakeRuns.ThroughGrows` | iosfinal2018/Pods/BoringSSL/ssl/handshake_client.cc:1701-1783 | What was exchanged by some state is a beginning of the complete flow. |
| `ClientHandshake.ThroughDecided` | iosfinal2018/Pods/BoringSSL/ssl/handshake_client.cc:1701-1783 | What was exchanged up to a state does not depend on choices that are still to come. |
| `ClientHandshake.Takes` | iosfinal2018/Pods/BoringSSL/ssl/handshake.cc:212-219 | A message that is hashed and consumed, once, leads to the next state with the invariant kept. |
| `ClientHandshake.Skips` | iosfinal2018/Pods/BoringSSL/ssl/handshake_client.cc:777-785 | An optional message that is not there leads on without touching the transcript. |
| `ClientHandshake.Gives` | iosfinal2018/Pods/BoringSSL/ssl/handshake.cc:173-181 | A message that is sent joins the transcript once. |
| `ClientHandshake.SaysHelloAgain` | iosfinal2018/Pods/BoringSSL/ssl/handshake_client.cc:528-570 | A HelloVerifyRequest restarts the transcript, which then holds just the second ClientHello. |
| `ClientHandshake.RequestTaken` | iosfinal2018/Pods/BoringSSL/ssl/handshake_client.cc:552-566 | Where the second ClientHello fails, the HelloVerifyRequest is consumed already, and what was exchanged is still a beginning of the flow. |
| `ClientHandshake.HearsHello` | iosfinal2018/Pods/BoringSSL/ssl/handshake_client.cc:645-765 | The ServerHello settles resumption, starts the hash from what was buffered, and frees the buffer when nothing can be left to sign. |
| `ClientHandshake.TakesKey` | iosfinal2018/Pods/BoringSSL/ssl/handshake_client.cc:897-1077 | The server's key is hashed, its signature verified, and then consumed. |
| `ClientHandshake.Proves` | iosfinal2018/Pods/BoringSSL/ssl/handshake_client.cc:1379-1461 | When the client signs, the buffer is still there and equals the hashed transcript, whatever the retries. |
| `ClientHandshake.Finishes` | iosfinal2018/Pods/BoringSSL/ssl/handshake_client.cc:1463-1518 | ChangeCipherSpec, new keys, optional messages and Finished, in this order, with the MAC over all before it. |
| `ClientHandshake.ChangesReadKeys` | iosfinal2018/Pods/BoringSSL/ssl/handshake_client.cc:1643-1650 | Read keys change only after the server's ChangeCipherSpec was opened. |
| `ClientHandshake.TakesFinished` | iosfinal2018/Pods/BoringSSL/ssl/handshake_client.cc:1652-1666 | After the server's Finished the client's follows in a resumed handshake and the end in a full one. |
| `ClientHandshake.Recertified` | iosfinal2018/Pods/BoringSSL/ssl/handshake_client.cc:1187-1200 | The application may change its certificate while the machine waits, without harm to the transcript. |
| `ClientMachine.Client.DoStartConnect` | iosfinal2018/Pods/BoringSSL/ssl/handshake_client.cc:427-488 | Sends the first ClientHello and waits for it to be flushed. |
| `ClientMachine.Client.DoEnterEarlyData` | iosfinal2018/Pods/BoringSSL/ssl/handshake_client.cc:490-526 | A DTLS client first looks for a HelloVerifyRequest. |
| `ClientMachine.Client.DoReadHelloVerifyRequest` | iosfinal2018/Pods/BoringSSL/ssl/handshake_client.cc:528-570 | Consumes a HelloVerifyRequest and starts over, or leaves the message for the next state. |
| `ClientMachine.Client.AnswerHelloVerifyRequest` | iosfinal2018/Pods/BoringSSL/ssl/handshake_client.cc:552-569 | Consumes the request, and then starts the transcript over and sends the second ClientHello, or fails after the request is gone. |
| `ClientMachine.Client.DoReadServerHello` | iosfinal2018/Pods/BoringSSL/ssl/handshake_client.cc:572-765 | Waits for and checks the ServerHello. |
| `ClientMachine.Client.AcceptServerHello` | iosfinal2018/Pods/BoringSSL/ssl/handshake_client.cc:645-765 | Resumes or starts a session, goes on accordingly and remembers what was announced. |
| `ClientMachine.Client.DoReadServerCertificate` | iosfinal2018/Pods/BoringSSL/ssl/handshake_client.cc:777-825 | Reads the certificate when the cipher has one. |
| `ClientMachine.Client.DoReadCertificateStatus` | iosfinal2018/Pods/BoringSSL/ssl/handshake_client.cc:827-875 | Reads the status if announced and sent. |
| `ClientMachine.Client.DoVerifyServerCertificate` | iosfinal2018/Pods/BoringSSL/ssl/handshake_client.cc:877-895 | Goes on only if the certificate is good and fails only if it is not; may be asked again later; otherwise nothing changes. |
| `ClientMachine.Client.DoReadServerKeyExchange` | iosfinal2018/Pods/BoringSSL/ssl/handshake_client.cc:897-1077 | Requires the server's key when the cipher does, and a good signature when there is a certificate; without one nothing is logged. |
| `ClientMachine.Client.DoReadCertificateRequest` | iosfinal2018/Pods/BoringSSL/ssl/handshake_client.cc:1079-1149 | Reads a request if there is one; otherwise frees the buffer. |
| `ClientMachine.Client.DoReadServerHelloDone` | iosfinal2018/Pods/BoringSSL/ssl/handshake_client.cc:1151-1173 | Ends the server's flight. |
| `ClientMachine.Client.DoSendClientCertificate` | iosfinal2018/Pods/BoringSSL/ssl/handshake_client.cc:1175-1221 | Answers a request; the callback may ask to be called again, and nothing is sent twice. |
| `ClientMachine.Client.DoSendClientKeyExchange` | iosfinal2018/Pods/BoringSSL/ssl/handshake_client.cc:1226-1377 | Sends the ClientKeyExchange. |
| `ClientMachine.Client.DoSendClientCertificateVerify` | iosfinal2018/Pods/BoringSSL/ssl/handshake_client.cc:1379-1461 | Signs the transcript, or comes back when the key is ready; nothing is sent twice. |
| `ClientMachine.Client.DoSendClientFinished` | iosfinal2018/Pods/BoringSSL/ssl/handshake_client.cc:1463-1518 | Waits for the Channel ID before anything that cannot be repeated, then finishes. |
| `ClientMachine.Client.DoFinishFlight` | iosfinal2018/Pods/BoringSSL/ssl/handshake_client.cc:1532-1558 | Goes to the end in a resumed handshake and to the server's part in a full one, perhaps returning early first. |
| `ClientMachine.Client.DoReadSessionTicket` | iosfinal2018/Pods/BoringSSL/ssl/handshake_client.cc:1560-1641 | Reads a ticket when one is expected, and then waits for the ChangeCipherSpec. |
| `ClientMachine.Client.DoProcessChangeCipherSpec` | iosfinal2018/Pods/BoringSSL/ssl/handshake_client.cc:1643-1650 | Runs only when the ChangeCipherSpec was opened; refused while messages under the old keys are left over, so the server's Finished arrives after the change. |
| `ClientMachine.Client.DoReadServerFinished` | iosfinal2018/Pods/BoringSSL/ssl/handshake_client.cc:1652-1666 | Verifies the server's Finished and goes on. |
| `ClientMachine.Client.DoFinishClientHandshake` | iosfinal2018/Pods/BoringSSL/ssl/handshake_client.cc:1668-1699 | Ends the handshake. |
| `ClientMachine.Client.RunStates` | iosfinal2018/Pods/BoringSSL/ssl/handshake_client.cc:1701-1783 | Every call comes to an end; it keeps the invariant, after an error too what was exchanged is a beginning of the flow, and it loses and repeats no message that arrived. It comes nearer to the end unless it has to be tried again, asks for a message only in a state that reads one and when none is at hand, for a flush only after a flight, and fails only when something inside it does or for what it refuses. |
| `ClientMachine.Client.AlwaysInOrder` | iosfinal2018/Pods/BoringSSL/ssl/handshake_client.cc:1226-1518 | For every client the public methods can lead to, failed ones included: the key exchange follows its checks and happens only if both came out well, and each Finished follows its key change. |
| `ClientMachine.Client.GetFinished` | iosfinal2018/Pods/BoringSSL/ssl/handshake.cc:371-420 | Accepts exactly the MAC of the transcript before the message. |
| `ClientMachine.Client.RunHandshake` | iosfinal2018/Pods/BoringSSL/ssl/handshake.cc:482-614 | Over any transport a call is a series of turns, each from where the one before left things: an answer is asked for, a record to be skipped is followed by the next answer, and after a success the machine runs. -1 without an error and without a question to the application is returned only when all answers were used or the last one used was that the transport is blocked. 1 without an early return means a finished handshake; after an error nothing is ever run again and nothing changes. |
| `ClientMachine.OnlyTransportStops` | iosfinal2018/Pods/BoringSSL/ssl/handshake.cc:482-614 | Such a call used no more answers than there are, none before the last said blocked, and it stops for the transport only when it has to. |
| `ClientMachine.AnsweredCallsEnd` | iosfinal2018/Pods/BoringSSL/ssl/handshake.cc:482-614 | Against a transport that succeeds each time, with a message for each read, a call is over within forty answers: done, failed, or with a question to the application. When nothing fails inside the client it is done or returns early, unless the server sent a message the flow does not have there, a bad certificate, key or Finished, or left messages over at its key change. |
| `ClientMachine.CallKeeps` | iosfinal2018/Pods/BoringSSL/ssl/handshake.cc:482-614 | A call loses nothing of what was exchanged or arrived. |
| `ClientMachine.Client.TakeTurn` | iosfinal2018/Pods/BoringSSL/ssl/handshake.cc:486-608 | One turn: waits for the transport if that is asked for and runs the machine when it succeeded, or stops because the transport does. |
| `ClientMachine.Client.Await` | iosfinal2018/Pods/BoringSSL/ssl/handshake.cc:491-531 | Uses one answer, or stops because there is none or it is that the transport is blocked. |
| `ClientMachine.Client.Conclude` | iosfinal2018/Pods/BoringSSL/ssl/handshake.cc:487-594 | An error, an early return or a question to the application ends the call with its result, and only these do. |
| `ClientMachine.Client.RunTurns` | iosfinal2018/Pods/BoringSSL/ssl/handshake.cc:482-614 | The loop: every moment of the call comes from the one before by a turn, until the call is over. |
| `ClientMachine.Client.Resolve` | iosfinal2018/Pods/BoringSSL/ssl/handshake.cc:494-531 | What the transport answers: messages that arrived join the queue, also while a DTLS client waits for the ChangeCipherSpec; only that ChangeCipherSpec enters the log. |
| `ClientMachine.Client.Advance` | iosfinal2018/Pods/BoringSSL/ssl/handshake.cc:597-608 | Runs the machine, with all that `RunStates` promises, and keeps its answer; without a wait the handshake is complete. |
| `FieldIter.WalkedIsOffset` | iosfinal2018/Pods/nanopb/pb.h:387-401 | For a descriptor laid out by the offset macros, walking the relative offsets arrives at every field's place in the struct and at its has-flag, count or union tag, across arrays, pointers and unions. |
| `FieldIter.FieldIter.Begin` | iosfinal2018/Pods/nanopb/pb_common.c:8-18 | The walk begins at the first field. |
| `FieldIter.FieldIter.Next` | iosfinal2018/Pods/nanopb/pb_common.c:20-76 | One step keeps both addresses and the count of required fields right, and wraps at the end. |
| `FieldIter.FieldIter.Find` | iosfinal2018/Pods/nanopb/pb_common.c:78-95 | Ends within one lap, succeeds exactly when a non-extension entry has the tag, at the first one from where it started, and otherwise returns to its start. |
| `FieldIter.FieldIter.CountRequired` | iosfinal2018/Pods/nanopb/pb_decode.c:919-934 | The end walk counts all required fields from wherever the iterator is. |
| `PbWire.VarintRoundTrip` | iosfinal2018/Pods/nanopb/pb_decode.c:209-229 | For every 64-bit number decoding undoes encoding, in at most ten bytes, whatever follows. |
| `PbWire.VarintSize` | iosfinal2018/Pods/nanopb/pb_encode.c:494-514 | An encoding takes one byte for every seven bits, and at least one. |
| `PbWire.Varint32RoundTrip` | iosfinal2018/Pods/nanopb/pb_decode.c:173-207 | For every 32-bit number the short decoder undoes the encoder. |
| `PbWire.Varint32IsVarintModulo` | iosfinal2018/Pods/nanopb/pb_decode.c:173-207 | On any input the 32-bit decoder succeeds exactly when the varint ends within five bytes, and then agrees with the 64-bit one modulo 2^32 and leaves the same bytes. |
| `PbWire.ZigzagRoundTrip` | iosfinal2018/Pods/nanopb/pb_encode.c:516-525 | Zigzag maps every signed 64-bit number to a distinct unsigned one, and back. |
| `PbWire.FixedRoundTrip` | iosfinal2018/Pods/nanopb/pb_decode.c:1132-1163 | Fixed-width numbers are read back. |
| `PbWire.TagRoundTrip` | iosfinal2018/Pods/nanopb/pb_decode.c:251-275 | A tag and wire type are read back exactly when the tag is below 2^29 and the two are not both zero. |
| `PbWire.TagReadsAs` | iosfinal2018/Pods/nanopb/pb_decode.c:251-275 | What any 32-bit tag is read back as: its low 29 bits, or the end of the message when these and the wire type are zero. |
| `PbFormat.VarintLayout` | iosfinal2018/Pods/nanopb/pb_encode.c:494-514 | Byte i of a varint has bits 7i to 7i+6 of the number, and its high bit unless it is the last. |
| `PbFormat.FixedLayout` | iosfinal2018/Pods/nanopb/pb_encode.c:527-551 | Byte i of a fixed-width number has bits 8i to 8i+7. |
| `PbFormat.FieldsInOrder` | iosfinal2018/Pods/nanopb/pb_encode.c:451-473 | Fields are written in the order of the descriptor, each independently of the others. |
| `PbFormat.ReadWider` | iosfinal2018/Pods/nanopb/pb_encode.c:652-706 | What any signed, unsigned or zigzag field of 1, 2, 4 or 8 bytes writes is read by the 64-bit decoder as the same number; a negative signed one takes ten bytes. |
| `PbFormat.ReadShort` | iosfinal2018/Pods/nanopb/pb_decode.c:1165-1200 | A negative number of up to 32 bits that another writer has cut to 32 bits is still read as itself by a field of up to 32 bits. |
| `PbFormat.SkipBack` | iosfinal2018/Pods/nanopb/pb_decode.c:277-287 | Passing over a field of the wire type of what was written passes over exactly what was written, for every kind of value, 32-bit and 64-bit ones included. |
| `PbFormat.UnknownRecord` | iosfinal2018/Pods/nanopb/pb_decode.c:876-906 | A record with a tag the descriptor does not have, of any wire type, leaves no trace. |
| `PbFormat.UnknownField` | iosfinal2018/Pods/nanopb/pb_decode.c:876-906 | Nor does anything that a field outside the descriptor wrote. |
| `PbFormat.OldReader` | iosfinal2018/Pods/nanopb/pb_decode.c:852-953 | A reader whose descriptor has only some of the fields gets exactly those of the message, and nothing is left unread. |
| `PbFormat.OldWriter` | iosfinal2018/Pods/nanopb/pb_encode.c:451-473 | A writer whose descriptor lacks some fields writes what one that has them writes while they are unset. |
| `PbFormat.KnownNumbers` | iosfinal2018/Pods/nanopb/pb_encode.c:494-557 | Bytes known from the format's documentation: 1, 150 and 300 as varints, tags of each wire type, a fixed-width 1. |
| `PbFormat.KnownZigzags` | iosfinal2018/Pods/nanopb/pb_encode.c:516-525 | 0, -1, 1 and -2 are written as 0, 1, 2 and 3. |
| `PbFormat.KnownArray` | iosfinal2018/Pods/nanopb/pb_encode.c:116-201 | The packed array of 3, 270 and 86942 under tag 4 is 22 06 03 8E 02 9E A7 05. |
| `PbReading.LastWins` | iosfinal2018/Pods/nanopb/pb_decode.c:356-429 | A single field that comes again replaces what was there, whatever that was. |
| `PbReading.PackedOrNot` | iosfinal2018/Pods/nanopb/pb_decode.c:356-412 | An array of numbers is read the same whether it comes packed or entry by entry, behind what it holds already. |
| `PbReading.AbsentIsDeclared` | iosfinal2018/Pods/nanopb/pb_decode.c:763-846 | Whatever the data and the descriptor: after decoding over the defaults an optional field is there, or it is what the descriptor declares, its own default value or zero, and in a submessage the same for each field. |
| `PbReading.CutValueFails` | iosfinal2018/Pods/nanopb/pb_decode.c:1132-1379 | A value that breaks off is refused: no proper beginning of what is read as a value of any kind reads as one. |
| `PbReading.CutTagEnds` | iosfinal2018/Pods/nanopb/pb_decode.c:251-264 | A message that stops within a tag is read as if it had stopped before it. |
| `PbReading.ZeroEnds` | iosfinal2018/Pods/nanopb/pb_decode.c:266-270 | A zero byte in place of a tag ends the message well, and what follows stays unread. |
| `PbNested.StartsFromThere` | iosfinal2018/Pods/nanopb/pb_decode.c:1334-1356 | A single submessage is decoded over what is there. |
| `PbNested.EntryStartsAnew` | iosfinal2018/Pods/nanopb/pb_decode.c:1346-1349 | A submessage that is an array entry is decoded over its defaults, behind the entries there are. |
| `PbNested.MemberStartsAnew` | iosfinal2018/Pods/nanopb/pb_decode.c:415-424 | So is one that is a member of a oneof, also if it was the current member before. |
| `PbNested.TwoParts` | iosfinal2018/Pods/nanopb/pb_decode.c:1334-1356 | A single submessage that comes as a delimited a and then a delimited b is stored as if a followed by b had come, if a is whole fields and no field of it is found that would not be found from the start, and nothing is required or b can be read after a. |
| `PbNested.PartsAddUp` | iosfinal2018/Pods/nanopb/pb_decode.c:1334-1356 | The same at any depth: parts wrapped in submessages on a path of single submessage fields read as one. |
| `PbNested.TwoPartsExample` | iosfinal2018/Pods/nanopb/pb_decode.c:1346-1351 | 0A 02 08 05 0A 02 10 06 is {1: 5, 2: 6}. |
| `PbLimits.FieldsEncode` | iosfinal2018/Pods/nanopb/pb_encode.c:116-201 | The encoder refuses a message exactly when somewhere in it, in what would be written, an array has more entries or a byte array more bytes than its field has room for. |
| `PbLimits.MessageFits` | iosfinal2018/Pods/nanopb/pb_decode.c:852-953 | What was decoded fits the descriptor at any depth: arrays within their maximum, numbers within their size, bytes and strings within their room. |
| `PbRoundTrip.MessageBack` | iosfinal2018/Pods/nanopb/pb_decode.c:852-917 | For every descriptor with distinct tags and any nesting: decoding what was encoded, over the defaults, gives the same message exactly when, in it and in its submessages, every tag written is below 2^29, every string written has room for its NUL, and every submessage left out as zero is blank; then nothing is left unread. |
| `PbRoundTrip.HighTagIsLost` | iosfinal2018/Pods/nanopb/pb_decode.c:266-270 | A number with tag 2^29 is encoded without an error, and decoding ends at its tag without an error and without the number. |
| `PbRoundTrip.HighTagOverwrites` | iosfinal2018/Pods/nanopb/pb_decode.c:272 | A number whose tag is 2^29 above another field's is decoded into that other field. |
| `PbRoundTrip.NeverRead` | iosfinal2018/Pods/nanopb/pb_decode.c:865-917 | Whatever the data, a field with a tag of 2^29 or more is never stored, never counted as seen and never becomes the current member of its union. |
| `PbRoundTrip.ScalarBack` | iosfinal2018/Pods/nanopb/pb_encode.c:652-776 | Every kind of value but a submessage comes back, over any previous contents; only a string that fills its buffer is refused. |
| `PbRoundTrip.FullTextIsRefused` | iosfinal2018/Pods/nanopb/pb_decode.c:1299-1332 | A string that fills its buffer without a NUL is encoded whole, without an error, and what was encoded is refused. |
| `PbRoundTrip.ZeroIsSame` | iosfinal2018/Pods/nanopb/pb_encode.c:203-263 | A value left out as zero is what its absence is read as, exactly when no optional field in it is there, no array has an entry and no default is other than zero. |
| `PbRoundTrip.ZeroFirstIsLost` | iosfinal2018/Pods/nanopb/pb_encode.c:225-257 | An implicit submessage whose array starts with a zero is not written: the entries behind it are lost without an error. |
| `PbRoundTrip.ValueBack` | iosfinal2018/Pods/nanopb/pb_encode.c:600-776 | Every value leaves nothing over but what follows it, and comes back exactly when all of it can be read. |
| `PbRoundTrip.FieldBack` | iosfinal2018/Pods/nanopb/pb_encode.c:271-349 | What a field wrote brings the decoder from one field to the next, or stops it because the field holds a submessage that cannot be read. |
| `PbRoundTrip.PackedBack` | iosfinal2018/Pods/nanopb/pb_encode.c:116-201 | A packed array comes back entry by entry. |
| `PbCodec.EncodeThenDecode` | iosfinal2018/Pods/nanopb/pb_encode.c:74-109 | The two objects together: encoding into a buffer fails exactly when the message cannot be encoded or does not fit. Decoding what was written is undefined only for a number of required fields that the last check is not made for; otherwise it gives the same message exactly when all of it can be read, with the buffer used up. |
| `PbCodec.WholeMessageUndefined` | iosfinal2018/Pods/nanopb/pb_decode.c:936-949 | With 32 required fields, or 64 and more, decoding is undefined for every message that can be read; with any other number for none. |
| `PbCodec.NumbersUndefined` | iosfinal2018/Pods/nanopb/pb_decode.c:936-949 | A descriptor of n required 32-bit numbers: every message of it is encoded, and decoding that is undefined exactly when n is 32 or at least 64. |
| `PbMerge.ConcatenationIsMerge` | iosfinal2018/Pods/nanopb/pb_decode.c:852-917 | Decoding a then b into the same message is decoding a followed by b, if a is whole fields and no field is found that would not be found from the start; always when nothing is required, and with required fields whenever the second decode succeeds. |
| `PbMerge.RequiredSeenInEither` | iosfinal2018/Pods/nanopb/pb_decode.c:919-949 | With required fields, a followed by b is accepted exactly when b parses: a required field may come in either part. |
| `PbMerge.LoopContinues` | iosfinal2018/Pods/nanopb/pb_decode.c:865-917 | The loop goes on into b from exactly the state a left. |
| `PbMerge.LoopAlike` | iosfinal2018/Pods/nanopb/pb_common.c:78-95 | For such descriptors the result does not depend on where finding a field has left the iterator. |
| `PbMerge.DistinctIsUnambiguous` | iosfinal2018/Pods/nanopb/pb_common.c:78-95 | Descriptors with distinct tags are such. |
| `PbMerge.AmbiguousDiffers` | iosfinal2018/Pods/nanopb/pb_common.c:78-95 | In every other descriptor, whatever its fields are and hold: records that can be read into the fields concerned, and change them, are stored differently when they come in one message and in two. |
| `PbMerge.MergesExactly` | iosfinal2018/Pods/nanopb/pb_decode.c:852-917 | For messages of optional numbers: concatenating merges for all inputs exactly when no field is found that would not be found from the start. |
| `PbMerge.RepeatedTagsDepend` | iosfinal2018/Pods/nanopb/pb_common.c:78-95 | A concrete descriptor with a repeated tag, and its input. |
| `PbEncode.VarintBytes` | iosfinal2018/Pods/nanopb/pb_encode.c:494-514 | The loop over the ten-byte buffer writes the shortest encoding. |
| `PbEncode.OStream.Write` | iosfinal2018/Pods/nanopb/pb_encode.c:91-109 | Emits the bytes, or counts them, or fails because they do not fit. |
| `PbEncode.OStream.EncodeVarint` | iosfinal2018/Pods/nanopb/pb_encode.c:494-514 | Emits a varint. |
| `PbEncode.OStream.EncodeTag` | iosfinal2018/Pods/nanopb/pb_encode.c:553-557 | Emits a tag. |
| `PbEncode.OStream.EncodeString` | iosfinal2018/Pods/nanopb/pb_encode.c:592-598 | Emits a length and the bytes. |
| `PbEncode.EncodeValueTo` | iosfinal2018/Pods/nanopb/pb_encode.c:652-776 | Emits exactly the encoding of one value, which `PbFormat.ReadWider` shows to be that of the 64-bit number; the same contract holds for counting and for writing. |
| `PbEncode.EncodeSubmessage` | iosfinal2018/Pods/nanopb/pb_encode.c:600-648 | Two passes emit the length and the submessage; the size of the second pass never differs from the first, so that error is never raised. |
| `PbEncode.PackedSize` | iosfinal2018/Pods/nanopb/pb_encode.c:131-157 | The sizing pass of a packed array is the length of what the writing pass emits. |
| `PbEncode.EncodeArrayTo` | iosfinal2018/Pods/nanopb/pb_encode.c:116-201 | Emits a packed or an unpacked array, or fails when it has too many entries. |
| `PbEncode.EncodeFieldTo` | iosfinal2018/Pods/nanopb/pb_encode.c:271-349 | Emits a field according to its rule. |
| `PbEncode.HasZeroValue` | iosfinal2018/Pods/nanopb/pb_encode.c:203-263 | The check for zero looks through a submessage field by field, at each field's value alone and at an array's first entry. |
| `PbEncode.Encode` | iosfinal2018/Pods/nanopb/pb_encode.c:451-473 | Emits the whole message. |
| `PbEncode.GetEncodedSize` | iosfinal2018/Pods/nanopb/pb_encode.c:480-489 | Succeeds exactly when the message can be encoded, with the length of its encoding. |
| `PbEncode.EncodeToBuffer` | iosfinal2018/Pods/nanopb/pb_encode.c:74-109 | Encoding into a buffer succeeds exactly when the message can be encoded and its size fits, and then the buffer holds the encoding. |
| `PbInput.VarintRound` | iosfinal2018/Pods/nanopb/pb_decode.c:197-200 | One round of shift and or adds the next seven bits, cut to the word. |
| `PbInput.IStream.Read` | iosfinal2018/Pods/nanopb/pb_decode.c:91-123 | Reads that many bytes or none; position and limit move together. |
| `PbInput.IStream.ReadByte` | iosfinal2018/Pods/nanopb/pb_decode.c:127-143 | Reads one byte or none. |
| `PbInput.IStream.DecodeVarint32` | iosfinal2018/Pods/nanopb/pb_decode.c:173-207 | The loop succeeds as specified, with that value; a failed attempt has read five bytes or all there are. |
| `PbInput.IStream.DecodeVarint` | iosfinal2018/Pods/nanopb/pb_decode.c:209-229 | The loop succeeds as specified, with that value, cut to 64 bits. |
| `PbInput.IStream.DecodeTag` | iosfinal2018/Pods/nanopb/pb_decode.c:251-275 | Tells a tag, the end of the message and an error apart; a cut-off tag at the end counts as the end. |
| `PbInput.IStream.SkipField` | iosfinal2018/Pods/nanopb/pb_decode.c:277-287 | Passes over exactly the bytes of a field of that wire type. |
| `PbInput.IStream.MakeSubstream` | iosfinal2018/Pods/nanopb/pb_decode.c:322-335 | The substream is the delimited bytes, and the stream's rest begins where it ends. |
| `PbInput.IStream.CloseSubstream` | iosfinal2018/Pods/nanopb/pb_decode.c:337-350 | What was left unread is passed over. |
| `PbDecode.DecodeNoInit` | iosfinal2018/Pods/nanopb/pb_decode.c:852-953 | Decodes over what is there exactly as specified, for any number of required fields: same verdict, same message, same position; it ends for every input, and is undefined exactly when the data ends well, there are 32 required fields or at least 64, and all of them that have a bit were seen. |
| `PbDecode.DecodeFresh` | iosfinal2018/Pods/nanopb/pb_decode.c:955-967 | The same over the defaults. |
| `PbDecode.DecodeRound` | iosfinal2018/Pods/nanopb/pb_decode.c:874-916 | One field: found, skipped or refused. |
| `PbDecode.DecodeFound` | iosfinal2018/Pods/nanopb/pb_decode.c:908-916 | A field that was found is stored, with its bit set when it is required and has one. |
| `PbDecode.DecodeFieldFrom` | iosfinal2018/Pods/nanopb/pb_decode.c:356-429 | A field according to its rule. |
| `PbDecode.DecodePackedFrom` | iosfinal2018/Pods/nanopb/pb_decode.c:375-389 | Packed entries until the data or the room runs out. |
| `PbDecode.DecodeValueFrom` | iosfinal2018/Pods/nanopb/pb_decode.c:1165-1379 | Every kind of value. |
| `PbDecode.DecSubmessage` | iosfinal2018/Pods/nanopb/pb_decode.c:1334-1356 | A submessage in its substream, decoded over what is there unless it is an array entry (`PbNested`), closed again wherever the inner decoder stopped. |
| `PbDecode.DecVarint` | iosfinal2018/Pods/nanopb/pb_decode.c:1165-1200 | Accepts a signed integer exactly when it fits its field. |
| `PbDecode.DecString` | iosfinal2018/Pods/nanopb/pb_decode.c:1299-1332 | Refuses what does not fit with its NUL, also when the size wraps. |
| `PbDecode.SetToDefaults` | iosfinal2018/Pods/nanopb/pb_decode.c:763-846 | Defaults, recursively. |
| `PbDecode.WrapKeeps` | iosfinal2018/Pods/nanopb/pb_decode.c:1180-1199 | A conversion to a narrower integer keeps the value exactly when it fits. |
| `PbDecode.SetBitTracks` | iosfinal2018/Pods/nanopb/pb_decode.c:908-913 | Setting a required field's bit keeps the words and the set of seen fields in step. |
| `PbDecode.AllSeen` | iosfinal2018/Pods/nanopb/pb_decode.c:936-949 | The comparison with whole and partial words of ones asks for all bits below the count; it is undefined exactly when there are 32 required fields or at least 64 and every bit it comes to look at is set. |
| `PbDecode.CheckRequired` | iosfinal2018/Pods/nanopb/pb_decode.c:919-950 | In terms of the fields seen: exactly when the check is undefined, and otherwise whether all required fields were seen. |
| `PbDecode.BitsMeanRequired` | iosfinal2018/Pods/nanopb/pb_decode.c:919-950 | All bits there are for the required fields are set exactly when every field that has one was seen. |
| `PbDecode.FindAgrees` | iosfinal2018/Pods/nanopb/pb_common.c:78-95 | The iterator stops where the specification's search does. |
| `Words.SameBits` | iosfinal2018/Pods/BoringSSL/ssl/dtls_record.cc:138-175 | A machine word is determined by its bits, which is what lets the bit operations of the source be read as sets. |
| `Words.BitTest` | iosfinal2018/Pods/BoringSSL/ssl/dtls_record.cc:146-149 | The test of a word against a shifted one asks for that bit. |
| `Words.BigEndianInjective` | iosfinal2018/Pods/BoringSSL/ssl/dtls_record.cc:128-136 | Sequence fields with equal numbers are equal bytes. |

## Left out

- TLS 1.3 (`do_tls13`) and early data: the called code is a protocol of its own; a ServerHello that selects TLS 1.3 is an error in the model.
- Parsing of hello, certificate, key exchange and ticket bodies, extensions, signing and key derivation: their outcomes are arbitrary. What verifying the server's certificate and the signature of its key gives is a constant of the client (`peer`).
- The steps of the client handshake update one record of the handshake's fields instead of fields of an object; the queue, the wait state and the flags beside it are fields.
- Info callbacks, the session cache, renegotiation bookkeeping after the handshake and the SSL 3.0 alert in place of a Certificate: not part of the transcript.
- ClientMachine.Client.RunHandshake: a transport that fails, and one that is closed, both count as blocked; the call's result is -1 for either, where the source tells 0 from -1.
- Liveness of the client handshake is conditional: a transport that never answers, an application that never has an answer or a server that sends no message keeps it waiting (`AnsweredCallsEnd` says what follows when they do answer).
- Authenticated encryption, record headers on the wire and version checks of the record layer: ideal or a condition of the call.
- DTLS timers, MTU discovery (`dtls1_update_mtu`) and the BIO layer: the MTU is a constant of the sender, a write or flush succeeds or fails.
- The contents of a freshly allocated message buffer: zeros in the model, arbitrary in the source, and never read before they are written.
- EndToEnd.SameTranscript: both sides are taken to hash every message; that a HelloVerifyRequest starts the transcript over is part of `ClientHandshake` only. The hash itself never fails, and messages are added only during a handshake (`d1_both.cc:562-563`).
- Memory allocation failures and error strings.
- nanopb callbacks, extensions, pointer fields, `PB_ENABLE_MALLOC` and custom stream callbacks: foreign code, or disabled in this build.
- PbEncode.EncodeFieldTo: a submessage without a has-flag may have no oneof in it; the zero check (`pb_encode.c:225-244`) would read the memory that its members share. For an array without entries the check reads what is left in its first place; the model takes that to be zero.
- PbRoundTrip.MessageBack: an implicit field of fixed-length bytes or with a submessage is required to have a tag below 2^29; with all bytes zero, or every field at its default, it would be the same as its default even where it is not read back. Oneofs in implicit submessages are left out as in `EncodeFieldTo`.
- PbCodec.EncodeThenDecode: the same.
- PbDecode.DecodeNoInit: the descriptor may have any number of required fields, but those of its submessages not 32, nor 64 and more: a check that is undefined inside would leave the rest of the message undefined too.
- PbDecode.DecodeFresh: the same.
- The decoder's destination is a message value, not memory: what a failed decode leaves behind, and aliasing of the union members of a oneof, are not modelled.
- Contents of an absent oneof member or optional field are not compared by the round trip, nor are bytes after a string's NUL.
- `size_t` overflow of the output stream's counters: sizes are unbounded.
- Wire types are not checked by the source's field decoders except for arrays; the model does the same.
- Swift code, Firebase functions and Alamofire: user interface and wrappers without deep invariants.
- ReplayWindow.NoReplay: holds up to 65536 key changes, after which the epoch wraps and a counterexample is given; a run beyond the wrap may or may not see a replay.
- RecordSeal.NoReuse: stops at the first overflow of a 48-bit counter or the wrap of the 16-bit epoch, for the same reason.
- EndToEnd.DeliveredIsPrefixOfSent: needs fewer than 2^16 messages, for the same reason.
