# DOS IME bridge: a verified model

A PC-98 resident program (TSR) and a Windows bridge exchange packets over a serial line. The user types on the Windows
side; the bridge sends the text in one TEXT packet (or a single key, or a close request), and the TSR puts the words into
the BIOS keyboard queue, from which the DOS application reads them. This project models that path and proves what it
keeps: from the bits of the CRC to the words that reach the application.

The hooks of the resident program run with interrupts off, so one hook entry is one step of the model. The receiver's
bytes, the transmitter's readiness, the state of the modifier and Space keys, losses on the two lines and everything the
user and the application do are inputs that the theorems quantify over.

| file | what it holds |
|---|---|
| `Bytes`, `Crc`, `CheckValue`, `FlippedBits`, `Codec` | 16-bit words, the CRC, its check value and its error-detection theorems, packets |
| `StreamDecoding`, `Framing`, `HostReading` | the three receivers: Python, resident C, C# |
| `CircularBuffer`, `IrqCapture`, `KeyEncoding`, `BiosKeyboard` | the interrupt's byte ring, key words and the BIOS keyboard queue |
| `Worker` | the resident worker as a state machine on values |
| `Resident` | the same worker as the program it is: fields updated in place, buffers and loops, proved to compute `Worker` |
| `SessionLife` | what opens a session, what closes it and what it takes, told by packets and observable state |
| `WorkerInvariants`, `ByteFlow`, `Traces`, `SessionLog`, `ResponseTimeout`, `Progress` | what holds over every run of the worker |
| `Keystrokes`, `KeyboardRuns`, `WireToApplication` | keystroke conservation, from accepted packets to what the application reads |
| `HostSession`, `BridgeHistory` | the bridge's session, and what it answers and sends told by its history |
| `Agreement`, `MistakenAcks`, `StaleInput` | agreement of the two parties, and where it ends |
| `SerialConfig`, `SettingsFile` | the chunked reader of `IME98.CFG`, and what every such file means |

Results that the repository's documentation does not lead one to expect:

* `docs/protocol.md:3-4` says receivers resynchronise on the next valid magic. Of the three only the Python decoder does
  (`StreamDecoding.ScanIsGreedy`). The resident framer (`dos/pc98/foreground.c:188-215`) gives every magic pair it meets
  the bytes its header announces, and hands over those claims and nothing else (`Framing.ClaimsAreHandedOver`,
  `Framing.EveryStreamIsClaimed`): a stray header can swallow the valid packet behind it
  (`Framing.StrayHeaderSwallows`). The bridge (`host/ImeDosBridge/BridgeForm.cs:549-555`) consumes the byte after a lone
  `I`, whatever it is. After any gap it reads the packet behind it exactly when this walk over the gap finds no magic
  and holds no `I` at its end (`HostReading.FindsPacketIff`); for a gap without a magic pair that means an even number
  of `I` at its end (`HostReading.FindsAfterCleanGap`). All three find the same packets when no gap holds a magic pair
  and every gap ends in an even number of `I` (`HostReading.ReadersAgree`).
* A length field from 65526 to 65533 makes the 16-bit sum at `dos/pc98/foreground.c:203` wrap to 0..7. Nothing is
  overrun, but the framer is held until its buffer is full (`Framing.WrappedHeaderHolds`); `Framing.Resynchronises` gives
  the exact bound. With 65534 and 65535 the sums are 8 and 9: the frame completes with its header or one byte later, too
  short to be accepted.
* `docs/protocol.md:70` says a sender waits for the matching acknowledgement. The bridge takes any acknowledgement for
  its last request (`host/ImeDosBridge/BridgeForm.cs:439-450`). Over every run in which messages are less than 65536
  sequence steps old that is nevertheless right, as long as no OPEN goes out while input is staged
  (`Agreement.TwoPartyAgreement`). Once one does, the bridge can always be misled: a continuation without any further
  irregularity ends with the bridge waiting for a new request while the next packet it reads acknowledges an older one
  (`MistakenAcks.OpenOverInputMisleads`, and the equivalence `MistakenAcks.NeverMistakenIff`). It does happen: the
  response timeout does not clear staged input (`dos/pc98/foreground.c:392-398`), and
  `StaleInput.TimeoutBreaksAgreement` is a run from start-up. The bound of 65536 is needed as well:
  `StaleInput.LateRequestBreaksAgreement` is a run in which a key asked for in one session is queued and acknowledged in
  the session 65536 steps later.
* A transmitter that times out (`dos/pc98/serial_pc98.c:238-256`) leaves a beginning of the packet on the line. The next
  bytes complete it for the bridge (`HostReading.HalfSentCompleted`); when only check bytes were missing the bridge takes
  a packet exactly when they turn out to be the right ones (`HostReading.HalfSentTaken`).
* Automatic text does not use the OPEN up, so a second request can go out under the same number
  (`BridgeHistory.AutomaticTextKeepsOpen`).

The check is the one of section 6.2.2 of MODBUS over Serial Line V1.02: polynomial A001h, initial value FFFFh, low byte
first.

## Model

| member | source | states |
|---|---|---|
| Crc.ImeCrc16 | dos/common/protocol.c:3-14 | the nested loops over a buffer compute the register after the bytes given |
| Crc.RunIsSerial | dos/common/protocol.c:7-12 | the byte-at-a-time register is a 16-place shift register fed the message's bits, low bit first, from any starting value |
| Crc.SerialLinear | dos/common/protocol.c:10-11 | the shift register is linear over exclusive or, in state and input together |
| Crc.FrameCheck | dos/common/protocol.c:58-61 | the two check bytes are right exactly when the register over the whole frame, check bytes included, ends at zero |
| Crc.BurstDetected | dos/common/protocol.c:3-14 | two messages of one length whose registers end at zero never differ only inside 16 consecutive bits, whatever the length |
| Crc.SeventeenBitBurstMissed | dos/common/protocol.c:3-14 | 16 is the best possible: a fixed 17-bit pattern of four flips goes unnoticed in any three neighbouring bytes of any message |
| Crc.CrcParity | dos/common/protocol.c:3-14 | the bit parity of the register is the bit parity of the data consumed |
| Crc.OddFlipsDetected | dos/common/protocol.c:3-14 | messages whose registers end at zero differ in an even number of bits |
| CheckValue.DigitsCheck | tools/test_protocol.py:7-8 | the CRC of the nine ASCII digits 1 to 9 is 4B37h |
| FlippedBits.NoEarlyReturn | dos/common/protocol.c:7-12 | shifted with no input, the register with one bit set comes back to itself after 32767 shifts at the earliest |
| FlippedBits.FewFlipsDetected | dos/common/protocol.c:3-14 | different messages of one length, at most 4095 bytes, whose registers both end at zero differ in at least four bits |
| Codec.RoundTrip | tools/protocol.py:37-60 | decoding an encoded packet gives the packet back |
| Codec.WireForm | dos/common/protocol.c:16-40 | the bytes of an encoding: 49h 44h 01h, kind, sequence and length low byte first, at most 512 bytes of payload, the CRC of all that low byte first |
| Codec.DecodeExact | tools/protocol.py:48-60 | decoding succeeds exactly on encodings, with the packet encoded: every other byte string is refused |
| Codec.AcceptsIffRegisterZero | dos/common/protocol.c:42-67 | a frame is accepted exactly when header, version and length fit and the register over all of it ends at zero |
| Codec.BurstRejected | dos/common/protocol.c:42-67 | an accepted frame damaged inside 16 consecutive bits is refused, for any payload |
| Codec.OddFlipsRejected | dos/common/protocol.c:42-67 | an accepted frame with an odd number of flipped bits is refused |
| Codec.FewFlipsRejected | dos/common/protocol.c:42-67 | one, two or three flipped bits anywhere in an accepted frame make it refused |
| Codec.SeventeenBitBurstAccepted | dos/common/protocol.c:42-67 | neither bound can be improved: four flips within 17 bits, at any place among payload and check bytes, turn any accepted frame into another accepted one |
| Codec.PacketBuild | dos/common/protocol.c:16-40 | the buffer starts with the packet's encoding and keeps the rest; a payload over 512 bytes gives 0 and writes nothing |
| Codec.PacketParse | dos/common/protocol.c:42-67 | succeeds exactly on frames that decode, and returns what they decode to |
| StreamDecoding.StreamDecoder.Feed | tools/protocol.py:67-88 | one call returns the packets of a scan over the kept bytes followed by the new ones and keeps the scan's residue |
| StreamDecoding.RestStalls | tools/protocol.py:70-80 | the bytes kept begin with an incomplete frame or are fewer than ten, so no decision is ever postponed |
| StreamDecoding.HeadPacketIsUnique | tools/protocol.py:71-83 | at most one packet sits at the head of a byte string, and the decoder sees it exactly when it is there |
| StreamDecoding.ChunkIndependence | tools/protocol.py:67-88 | feeding a then b gives the packets and residue that feeding a + b gives, for all a and b |
| StreamDecoding.Fragmentation | tools/protocol.py:67-88 | however a stream is cut into calls, they find together what one call finds |
| StreamDecoding.GreedyIsScan | tools/protocol.py:67-88 | every reading of the stream as a greedy leftmost scan is the decoder's |
| StreamDecoding.ScanIsGreedy | tools/protocol.py:67-88 | every stream has such a reading: packets at disjoint increasing places holding exactly their encodings, and no skipped place begins a packet |
| Framing.Framer.AcceptByte | dos/pc98/foreground.c:188-215 | the in-place framer computes the specification's next state and completed frame; no store leaves the 522-byte buffer |
| Framing.AcceptKeepsSound | dos/pc98/foreground.c:188-215 | for every byte, also when 10 + length wraps: at most 522 bytes, a partial frame starts with the magic, below 8 bytes no size is expected; a completed frame has the size its header announced |
| Framing.AcceptAllKeepsSound | dos/pc98/foreground.c:217-232 | so it is after every byte stream |
| Framing.Resynchronises | dos/pc98/foreground.c:197-214 | from a partial frame of n >= 2 bytes the framer is empty again within 523 - n bytes, whatever they are |
| Framing.WrappedHeaderHolds | dos/pc98/foreground.c:202-209 | the bound is met: a header whose sum wraps to 0..7 holds the framer until its buffer is full |
| Framing.AcceptAllConcat | dos/pc98/foreground.c:217-232 | feeding bytes in any pieces gives the same frames and the same state |
| Framing.ClaimsAreHandedOver | dos/pc98/foreground.c:188-215 | for every byte stream: read as gaps without a magic pair and claims that begin at the next pair and have the size their header announces (8 bytes if over 522, 523 if the sum wrapped below 8), it makes the framer hand over exactly the claims that announced 8 to 522 bytes, in order |
| Framing.EveryStreamIsClaimed | dos/pc98/foreground.c:188-215 | every byte stream has such a reading |
| Framing.StrayHeaderSwallows | dos/pc98/foreground.c:201-209 | a stray header announcing 522 bytes swallows any valid packet of fewer than 504 payload bytes right behind it |
| Framing.Delivery | dos/pc98/foreground.c:188-215 | from the hunt, packets separated by gaps without a magic pair (they may end in the first magic byte) are handed over exactly, in order |
| Framing.FramersAgree | dos/pc98/foreground.c:188-215 | on such streams the resident framer and the Python decoder find the same packets |
| HostReading.PacketReader.ReadExactly | host/ImeDosBridge/BridgeForm.cs:565-574 | however the stream cuts its answers, takes exactly the next n bytes or reports the end of the stream |
| HostReading.PacketReader.ReadPacketAsync | host/ImeDosBridge/BridgeForm.cs:546-563 | one call returns what the reading function says and leaves exactly the bytes after the packet |
| HostReading.FindsPacketIff | host/ImeDosBridge/BridgeForm.cs:549-555 | after any gap the next packet is the one read exactly when the reader's walk over the gap, in which a byte after 49h is consumed with it, finds no magic there and holds no 49h at its end |
| HostReading.FindsAfterCleanGap | host/ImeDosBridge/BridgeForm.cs:549-555 | for a gap without a magic pair: exactly when it ends in an even number of 49h |
| HostReading.StrayMagicLosesPacket | host/ImeDosBridge/BridgeForm.cs:549-555 | one stray 49h makes the bridge miss a packet that the other two receivers find |
| HostReading.ServesStream | host/ImeDosBridge/BridgeForm.cs:549-563 | on streams whose gaps all satisfy the condition of FindsPacketIff the serve loop reads every packet, in order |
| HostReading.ReadersAgree | host/ImeDosBridge/BridgeForm.cs:546-563 | where no gap holds a magic pair and each ends in an even number of 49h, the C#, C and Python receivers find the same packets |
| HostReading.HalfSentAlone | dos/pc98/serial_pc98.c:238-256 | a packet cut short by the transmitter gives the bridge nothing while nothing follows |
| HostReading.HalfSentCompleted | dos/pc98/serial_pc98.c:238-256 | cut short after its header, it is completed by the bytes that follow: read if they make a packet, a dropped connection if not |
| HostReading.HalfSentTaken | dos/pc98/serial_pc98.c:238-256 | cut short in its check bytes, it is read exactly when the bytes that follow are the missing ones |
| KeyEncoding.NormalizedLength | dos/pc98/inject_bios_pc98.c:31-42 | the counting loop returns the number of words the text encodes to |
| KeyEncoding.TextIsNormalised | dos/pc98/inject_bios_pc98.c:44-65 | encoding gives one word per byte, in order, except for the LF of a CR LF pair: CR, LF and CR LF each give one Enter |
| KeyEncoding.NeverTheHotkey | dos/pc98/inject_bios_pc98.c:44-65 | no encoded word is the hotkey's 3420h |
| BiosKeyboard.BiosQueue.EnqueueWord | dos/pc98/inject_bios_pc98.c:70-92 | appends one word to the queue, or changes nothing when it is full or its tail is out of range |
| BiosKeyboard.BiosQueue.DiscardHotkeySpace | dos/pc98/inject_bios_pc98.c:96-124 | removes exactly the newest word, and only if it is 3420h |
| BiosKeyboard.BiosQueue.Dequeue | dos/pc98/tsr_hook.S:213-224 | removes and returns the oldest word |
| BiosKeyboard.BiosQueue.Inject | dos/pc98/inject_bios_pc98.c:128-161 | all or nothing: into an empty queue a text of 1 to 16 words is queued whole, anything else is refused; the failure inside the loop never happens |
| BiosKeyboard.BiosQueue.InjectVerify | dos/pc98/inject_bios_pc98.c:165-184 | every word injected is read back, so a mismatch never occurs and the queue ends as it was |
| IrqCapture.IrqRing.CaptureBegin | dos/pc98/serial_irq_buffer_pc98.c:31-42 | the ring is emptied, capture is on, the mask is saved and only bit 4 of it cleared |
| IrqCapture.IrqRing.CaptureEnd | dos/pc98/serial_irq_buffer_pc98.c:44-52 | capture is off, the ring is empty and a saved mask is put back |
| IrqCapture.IrqRing.TryReadByte | dos/pc98/serial_irq_buffer_pc98.c:54-64 | removes and returns the oldest waiting byte, or -1 |
| IrqCapture.IrqRing.StoreByte | dos/pc98/tsr_hook.S:328-338 | appends a byte, or drops it when 127 are waiting |
| IrqCapture.UnmaskedClearsOnlyBit4 | dos/pc98/serial_irq_buffer_pc98.c:41 | of the eight mask bits only bit 4 changes, to zero |
| IrqCapture.MoveKeepsConsistent | dos/pc98/tsr_hook.S:328-338 | with the interrupt stopped between any two of its memory accesses and the reader between any two of its own, positions stay below 128 and published bytes are the returned ones followed by the waiting ones; a byte is dropped only when 127 wait |
| IrqCapture.RingIsFifo | dos/pc98/serial_irq_buffer_pc98.c:54-64 | over every interleaving the bytes returned are a prefix of the bytes published |
| Resident.Foreground.SerialWrite | dos/pc98/serial_pc98.c:238-256 | the byte loop puts a beginning of the packet on the line, all of it exactly when it reports success, which it does exactly when the port is open and the transmitter is ready in time for every byte |
| Resident.Foreground.SendPacket | dos/pc98/foreground.c:68-74 | the packet built in the transmit buffer is the one whose bytes go out |
| Resident.Foreground.ResetLink | dos/pc98/foreground.c:76-85 | the whole new state is Worker.ResetLink of the old |
| Resident.Foreground.SendOpenIme | dos/pc98/foreground.c:87-99 | the whole new state is Worker.SendOpenIme of the old, which SessionLife.Opens describes |
| Resident.Foreground.CloseIme | dos/pc98/foreground.c:101-115 | the whole new state is Worker.CloseIme of the old, which SessionLife.HostClosesIff and HotkeySwitches describe |
| Resident.Foreground.HandlePacket | dos/pc98/foreground.c:125-186 | a frame in the receive buffer changes the state as handling what it decodes to does, or not at all; SessionLife says for each kind of packet what that is |
| Resident.Foreground.AcceptByte | dos/pc98/foreground.c:188-215 | one byte goes through the framer and a completed frame is handled |
| Resident.Foreground.PollTransport | dos/pc98/foreground.c:217-232 | the loop with a budget of 32 computes Worker.Poll, the ring being read before the receiver |
| Resident.Foreground.InjectPendingText | dos/pc98/foreground.c:276-297 | the loop with a budget of 16 computes Worker.InjectText and stops at a full queue without acknowledging |
| Resident.Foreground.InjectPendingKey | dos/pc98/foreground.c:299-308 | the whole new state is Worker.InjectKey of the old |
| Resident.Foreground.StartLink | dos/pc98/foreground.c:310-333 | the whole new state is Worker.StartLink of the old, which SessionLife.Greets describes |
| Resident.Foreground.ToggleImeHotkey | dos/pc98/foreground.c:335-346 | the whole new state is Worker.Toggle of the old, which SessionLife.HotkeySwitches describes |
| Resident.Foreground.PollHotkey | dos/pc98/tsr_hook.S:285-311 | released, newly pressed or held, with the latch that tells the last two apart |
| Resident.Foreground.ServiceReturnedHotkey | dos/pc98/foreground.c:353-360 | toggles exactly when modifier and Space are down |
| Resident.Foreground.ServiceForeground | dos/pc98/foreground.c:362-400 | one worker call computes Worker.Service on the whole state |
| Resident.Foreground.SerialIrqHook | dos/pc98/tsr_hook.S:315-362 | a receive interrupt stores its byte and runs the worker |
| SessionLife.Greets | dos/pc98/foreground.c:310-333 | with the IME wanted and the link closed a worker call attempts one HELLO with the documented eleven bytes under the next number; the greeting waits from then, or everything is as before but for the number |
| SessionLife.Opens | dos/pc98/foreground.c:87-99 | with the IME wanted, a PONG to the greeting or a call on a ready link attempts one OPEN_IME under the next number; sent, the session is open under it and its wait is zero, otherwise the link closes and the IME stays wanted |
| SessionLife.OpensNothing | dos/pc98/foreground.c:378-383 | without a pending request, with a session open or a greeting under way, that stage changes nothing |
| SessionLife.NextSession | dos/pc98/foreground.c:289-308 | when the last staged input is queued and acknowledged the session ends, and with the IME on the same call sends the next OPEN_IME under the next number |
| SessionLife.HostClosesIff | dos/pc98/foreground.c:181-185 | with the IME on, a frame turns everything off (link and port closed, mask restored, nothing staged or wanted) exactly when it is the encoding of an empty CLOSE_IME numbered for the open session; a CLOSE_IME joins the line exactly when the transmitter is in time |
| SessionLife.HotkeySwitches | dos/pc98/foreground.c:362-369 | modifier and Space down with 3420h newest in the queue: the word goes and the IME is turned off, telling the host, or becomes wanted; otherwise nothing happens |
| SessionLife.TakesText | dos/pc98/foreground.c:143-150 | a TEXT of up to 512 bytes for the open session is staged whole under its number and the wait starts over |
| SessionLife.TakesKeyOf | dos/pc98/foreground.c:153-180 | a KEY of the open session stages the word 1C0Dh, 3B00h, 3C00h, 3A00h, 3D00h or 0E08h of its code 1 to 6; any other code changes nothing |
| WorkerInvariants.ServiceRests | dos/pc98/foreground.c:362-400 | every worker call returns with the flags, devices, staging area and queue in order and the interrupt's ring empty |
| WorkerInvariants.RunRests | dos/pc98/foreground.c:362-400 | so does every hook in every run, from any state that is in order |
| WorkerInvariants.FlagsAgree | dos/pc98/foreground.c:76-123 | at every hook return: IME on iff exactly one of session open and session wanted; session open iff link ready; HELLO_WAIT only while a session is wanted; tick count below FFFFh |
| WorkerInvariants.SafeOff | dos/pc98/serial_irq_buffer_pc98.c:31-52 | over every run: link closed means port closed, capture off, no mask saved and the interrupt mask found at start-up; link open means that mask with bit 4 cleared; IME off means link closed |
| WorkerInvariants.StagingInBounds | dos/pc98/foreground.c:143-150 | over every run the staging buffer holds at most 512 bytes, its offset stays within them and never falls inside a CR LF pair |
| ByteFlow.PollInOrder | dos/pc98/foreground.c:217-232 | the bytes handed to the framer followed by those still unread can be had from those unread before by leaving some out, never by reordering |
| ByteFlow.WireOrder | dos/pc98/foreground.c:217-232 | over every run the framer sees the bytes that arrived in wire order, although they come from two sources |
| ByteFlow.CallReads | dos/pc98/foreground.c:217-232 | with n unread bytes and the link open throughout, a call hands exactly the first min(n, 32) to the framer and leaves the rest |
| ByteFlow.RingNeverFills | dos/pc98/tsr_hook.S:328-362 | at hook boundaries the ring is empty, so a receive interrupt always finds room and the branch that drops a byte is never taken |
| ByteFlow.ServiceHandlesPackets | dos/pc98/foreground.c:362-400 | a worker call on bytes is, apart from the bytes themselves, the worker call on the packets they frame |
| ResponseTimeout.CannotFinishIff | dos/pc98/foreground.c:276-308 | one injection acknowledges nothing exactly when a staged text has more words left than the queue has room for and a key on its own meets a full queue |
| ResponseTimeout.TimeoutIsExact | dos/pc98/foreground.c:380-399 | while no packet is heeded, no hotkey pressed and no staged input completed, a waiting session is unchanged but for its tick count until that count reaches FFFFh, and OFF with the link closed from then on; packets the session ignores and words queued for a text do not count as an answer |
| ResponseTimeout.FullWait | dos/pc98/foreground.c:90-93 | from a call in which its OPEN_IME (or HELLO) went out or its input was taken, a session lasts exactly 65533 further quiet calls and is OFF at the next |
| Traces.RunLinked | dos/pc98/foreground.c:143-175 | over every run the staging area agrees with the log of input taken, words queued and acknowledgements tried |
| Traces.InputIsWhole | dos/pc98/foreground.c:133-175 | a frame becomes input exactly when it is the encoding of a TEXT, or of a KEY with a known code, for the open session |
| SessionLog.InputOnlyUnderOpen | dos/pc98/foreground.c:143-180 | over every run: a session is open exactly under the number of an OPEN_IME that went out and was neither acknowledged nor closed since, and every input logged was taken under such a one |
| SessionLog.CallCountsWait | dos/pc98/foreground.c:380-399 | a call in which a HELLO or OPEN_IME goes out or input is taken leaves the wait at one tick, any other makes it one tick longer |
| Traces.BatchedInjection | dos/pc98/foreground.c:276-308 | at every event of every run: the words queued for a TEXT are a prefix of its encoding, TEXT_ACK is tried only when they are all of it, a KEY is queued once and never inside a TEXT, its KEY_ACK is tried right after, and acknowledgements carry the session of the input |
| Progress.FinishesIff | dos/pc98/foreground.c:276-308 | a worker call completes what is staged exactly when the keyboard queue has room for all that is left of it |
| Progress.InputGetsThrough | dos/pc98/foreground.c:276-308 | from any state with the staging area and the queue within bounds, reads and injections in turn queue every word left, in order, in at most as many rounds as words are left, and acknowledge each input under its own number if the transmitter is ready |
| Keystrokes.ServiceAdds | dos/pc98/foreground.c:362-378 | one worker call takes back at most the newest word, a hotkey Space, toggling exactly then, and appends only words that are never that Space |
| KeyboardRuns.Conservation | dos/pc98/tsr_hook.S:139-230 | over every interleaving of typing, worker calls and blocking and non-blocking reads: what the application received is what its reads handed over, and followed by what is queued it is, in order, everything pushed minus suppressed words; each of those is a user's 3420h and there are as many as toggles |
| KeyboardRuns.PlayIsRun | dos/pc98/tsr_hook.S:139-362 | every interleaving of typing, devices, hooks and reads is, for the worker, a run of its steps: every result about runs holds over it |
| KeyboardRuns.ReadBegins | dos/pc98/tsr_hook.S:74-141 | a blocking read runs the worker once and then waits for a word |
| KeyboardRuns.ReturnTakesOldest | dos/pc98/tsr_hook.S:139-227 | a waiting read takes exactly the oldest word: 3420h with modifier and Space down switches the IME once and the read goes on, any other word is received and ends it |
| KeyboardRuns.ReadNowTakesOldest | dos/pc98/tsr_hook.S:139-191 | so for the non-blocking read, on the queue its worker call leaves; it ends in every case |
| KeyboardRuns.ReadReturnsOneWord | dos/pc98/tsr_hook.S:193-227 | a blocking read on a queue that holds a word other than 3420h returns exactly one word, after at most as many suppressions as 3420h words lead the queue |
| KeyboardRuns.ReceivedIsHandedOver | dos/pc98/tsr_hook.S:139-230 | over every run what the application has received is what its reads handed over, told by the head of the queue at each read |
| KeyboardRuns.SuppressedOnlyWhileDown | dos/pc98/tsr_hook.S:285-311 | nothing is suppressed by an act that does not find modifier and Space down |
| WireToApplication.PlayLinked | dos/pc98/foreground.c:143-175 | over every interleaving of typing, worker calls and reads the log stays legal and agrees with the staging area |
| WireToApplication.ApplicationReceives | dos/pc98/tsr_hook.S:139-230 | over every such run: what the application received is the first words pushed less suppressed Spaces, and the injected words among them are, in order and without a gap, the beginning of the words of accepted packets: each TEXT gives a beginning of its encoding in one stretch, each KEY its word, none gives twice, TEXTs and KEYs each in the order of acceptance; an input whose acknowledgement was tried gives all its words |
| HostSession.BridgeForm.BeginServe | host/ImeDosBridge/BridgeForm.cs:382-387 | a connection starts with no session and the full capacity, in place of any other |
| HostSession.BridgeForm.EndServe | host/ImeDosBridge/BridgeForm.cs:453-464 | its end clears the session, unless a newer connection has taken its place |
| HostSession.BridgeForm.Serve | host/ImeDosBridge/BridgeForm.cs:394-451 | one packet changes the session fields and is answered as ServePacket says; with automatic text that fits, an OPEN is answered with it |
| HostSession.AnnouncedCapacity | host/ImeDosBridge/BridgeForm.cs:394-405 | after the worker's HELLO the bridge answers PONG and sends texts of at most the 512 bytes the resident buffer holds |
| HostSession.BridgeForm.SendText | host/ImeDosBridge/BridgeForm.cs:467-489 | sends a non-empty text within the announced capacity once per OPEN, under its sequence number, and nothing otherwise; a write that throws leaves the OPEN ready again |
| HostSession.BridgeForm.SendKey | host/ImeDosBridge/BridgeForm.cs:491-508 | sends one key once per OPEN, under its sequence number; likewise when the write throws |
| HostSession.BridgeForm.SendCloseIme | host/ImeDosBridge/BridgeForm.cs:510-527 | sends one close request once per OPEN, under its sequence number; likewise when the write throws |
| BridgeHistory.SendsIff | host/ImeDosBridge/BridgeForm.cs:467-527 | after any history of packets, requests and failed writes: a request is sent exactly when an OPEN_IME came since the last close, acknowledgement or request sent, and a text has 1 to the allowed number of bytes; it carries what was asked for under that OPEN_IME's number |
| BridgeHistory.AnnouncementHolds | host/ImeDosBridge/BridgeForm.cs:394-400 | what a HELLO allows holds until the next: n bytes, n > 0, go out exactly when n is at most the number in its bytes 8 and 9, if it has ten bytes and that number is 1 to 512, and at most 512 otherwise |
| BridgeHistory.AnswersGreetings | host/ImeDosBridge/BridgeForm.cs:404-409 | every HELLO and PING is answered by one PONG of the same number, and nothing else is answered |
| BridgeHistory.SilentUntilOpen | host/ImeDosBridge/BridgeForm.cs:431-450 | after a CLOSE_IME, TEXT_ACK or KEY_ACK nothing is sent until the next OPEN_IME |
| BridgeHistory.AutomaticTextKeepsOpen | host/ImeDosBridge/BridgeForm.cs:410-426 | after any history, an OPEN_IME is answered by the automatic text exactly when it is no longer than the last HELLO allows, and can still be used: a second request goes out under the same number |
| Agreement.MatchedRequest | dos/pc98/foreground.c:143-183 | a request the worker takes for its session is the bridge's last one, for that very session; nothing is staged, no acknowledgement is under way and no further request follows |
| Agreement.CallIsItsStages | dos/pc98/foreground.c:362-400 | a worker call on packets is its five stages taken one after the other, so what holds of every order of stages holds of calls |
| Agreement.StepAgrees | dos/pc98/foreground.c:87-186 | from agreement, every stage of the worker, every step of the bridge, every loss and every reconnect leads to agreement, except an OPEN sent while input is staged, which never does |
| Agreement.CleanRunAgrees | dos/pc98/foreground.c:362-400 | the agreement invariant holds throughout a run on messages less than 65536 sequence steps old exactly when no OPEN goes out while input is staged |
| Agreement.TwoPartyAgreement | dos/pc98/foreground.c:276-308 | over every run on such messages without an OPEN over staged input, with lossy first-in first-out lines: no second request is taken before the first is acknowledged or given up; staged input is the bridge's last request; every acknowledgement on the line is for that request, and it is that request's own words, not those of an equal earlier one, that are all queued |
| Agreement.AckIsAwaited | host/ImeDosBridge/BridgeForm.cs:439-450 | an acknowledgement at the head of the line finds the bridge waiting for it, under the number of the request and of the last OPEN: all the words of the bytes the user entered, or the word of the key pressed, are queued |
| Agreement.RunCarries | host/ImeDosBridge/BridgeForm.cs:471-520 | over every such run the request packet says just what the user asked for: the bytes of the text, the code of the key, or nothing for a close |
| Agreement.RequestIsHonoured | dos/pc98/foreground.c:143-185 | over every such run: the user's request, when it reaches the worker in the session it was made in, is honoured there: the text staged whole, the word of the key staged, or on a close request everything turned off |
| Agreement.OneRequestPerOpen | host/ImeDosBridge/BridgeForm.cs:467-527 | the requests of a run use strictly newer and newer OPENs |
| MistakenAcks.OpenOverInputMisleads | dos/pc98/foreground.c:276-308 | from every agreed state, after any step that sends an OPEN over staged input, a continuation on fresh messages and without another such OPEN ends with an acknowledgement at the head of the line that is older than the bridge's last request, which is still on its way |
| MistakenAcks.NeverMistakenIff | host/ImeDosBridge/BridgeForm.cs:439-450 | over every run on such messages from an agreed state, start-up included: no moment and no clean continuation of it has an acknowledgement on the line that is not for the bridge's last request, exactly when no OPEN goes out while input is staged |
| StaleInput.TimeoutBreaksAgreement | dos/pc98/foreground.c:392-398 | a run from start-up, in whole calls and on fresh messages, whose timeout leaves a key staged: an OPEN goes out over it, and the run ends with an acknowledgement for a request the worker has not received |
| StaleInput.LateRequestBreaksAgreement | dos/pc98/foreground.c:87-90 | a run from start-up, in whole calls and with no OPEN over staged input, in which a key reaches the worker 65536 sequence steps late: it is acknowledged in a session in which the bridge has asked for nothing |
| SerialConfig.ReadHex | dos/pc98/serial_pc98.c:33-48 | the pointer loop reads what ParseHex says and never past the terminator |
| SerialConfig.ConfigKey | dos/pc98/serial_pc98.c:50-54 | true exactly when the key and an equals sign stand at the position |
| SerialConfig.ConfigValue | dos/pc98/serial_pc98.c:56-61 | true exactly when the value stands there with only blanks after it |
| SerialConfig.SerialSettings.ParseConfigLine | dos/pc98/serial_pc98.c:63-88 | one terminated line changes the settings as ParseLine says |
| SerialConfig.SerialSettings.LoadConfig | dos/pc98/serial_pc98.c:117-170 | loading depends only on the bytes the reads return together, and no store leaves the 128-byte line |
| SerialConfig.ChunksDoNotMatter | dos/pc98/serial_pc98.c:131-134 | however a file is cut into reads the settings are those of its bytes |
| SerialConfig.EveryFileIsLines | dos/pc98/serial_pc98.c:135-146 | every file is a list of lines ended by CR, LF or CR LF, the last one perhaps by nothing |
| SerialConfig.LoadAppliesLines | dos/pc98/serial_pc98.c:117-170 | loading such a file applies the line parser to its lines in order, leading blanks stripped, remarks and lines of more than 127 characters ignored, however the lines end |
| SettingsFile.EveryFileIsUnderstood | dos/pc98/serial_pc98.c:63-88 | for every file and every setting: the file reads as lines (indent, key, equals sign, spaces, number with or without 0x, of either case and up to four digits, or a hotkey name; remarks, long lines and lines without a key set nothing), and the setting loaded is the one given by the last line that gives it, or the old one |
| SettingsFile.LastLineDecides | dos/pc98/serial_pc98.c:117-170 | so it is for every such reading of a file, however the lines end |
| SettingsFile.WrittenSettingsLoad | dos/pc98/serial_pc98.c:63-88 | settings written in the documented form load as themselves, whatever was set before |
| SettingsFile.SampleFile | samples/IME98.CFG:3-10 | the sample's settings lines load the defaults 0030h, 0032h, 02h, 27h, 0008h and SHIFT |

## Left out

- Resident.Foreground: the two sequence counters are kept unbounded and reduced modulo 65536 wherever the source uses its 16-bit variables (sending, comparing), and the flags and the pending_* variables are two record-valued fields. Worker.WireSteps says the remainder steps as the 16-bit variable does.
- Agreement.TwoPartyAgreement: stated for runs on messages less than 65536 sequence steps old in which no OPEN goes out over staged input; StaleInput shows that agreement fails without either.
- Agreement.Move: works on packets; that bytes on the wire amount to those packets is ByteFlow.ServiceHandlesPackets and the framing theorems. A packet cut short by the transmitter counts as not sent; what the bridge makes of its bytes is HostReading.HalfSentCompleted.
- KeyboardRuns.Perform: the control flow of the INT 18h hook (AH=00 and AH=05) is a function on values; its queue accesses are the methods of BiosQueue. AH=01, AH=02 and other functions are not modelled: AH=01 peeks, so its filter can toggle without removing a word.
- HostReading.PacketReader.ReadAsync: the stream is the byte sequence still to come; how many bytes each read returns is arbitrary.
- BiosKeyboard.BiosQueue.InjectVerify: the INT 18h AH=05 read is taken to be the dequeue of the queue.
- The C# encoder, decoder and CRC and the Python CRC compute the same functions as Codec and Crc and have no methods of their own.
- HostSession.BridgeForm.Write: whether the stream takes a packet is a parameter; a write that throws is taken to have sent nothing. The two-party model is the interactive bridge, without automatic text.
- Debug output, diagnostic counters and probes, UART programming and timing, register and stack switching in the hooks.
- Installation, removal, the foreground client `main.c`, the Windows user interface and the connection plumbing; a reconnect is a reset of the session fields.
- Other writers of the interrupt mask and keyboard metadata out of range while the worker runs.
