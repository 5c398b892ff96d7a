# Verified model of gzb

gzb talks to a Zigbee network through a Silicon Labs adapter. This project models the
parts of it where a mistake would be hard to see, in Dafny, and proves what they
promise. `dafny verify dfyconfig.toml` checks all of it.

Code that works by changing things step by step is modelled so: `Conn`, `Scanner`,
`Cursor`, `Session`, `Store`, `Device` and `Coordinator` are classes whose methods
follow the source's branches, and loops over buffers are methods with invariants. Each is
tied by its contract to a function of what it was given, and the results below are
lemmas about those functions and about whole runs.

| files | what they model |
|---|---|
| AshCrc, AshCrcWord, AshCrcPeriod | what the CRC-16 register is worth: linearity, parity, and the period of its polynomial |
| AshFrame, AshWhitening, AshWords, AshWire | the ASH frame codec: whitening, the CRC, byte stuffing, and the wire format bit by bit |
| AshScanner, AshStream | cutting a byte stream, in reads of any size, into frames, and streams with interrupted frames in them |
| AshHost, AshConn | the host's side of the ASH link, as a state machine and as the object that runs it |
| AshLink | both ends of the link over two first-in first-out lines that may lose any frame |
| AshReceive, AshReceiveExact, AshSend, AshDelivery, AshAnswers | what every run of the link keeps, and what each end may read into the other's frames |
| ZclBytes, ZclValue, ZclCursor, ZclFrame, ZclReporting | ZCL attribute values, records and reporting configurations, both directions |
| ZclMeaning, ZclReports | what the type codes mean, what is accepted, and frames by their own shape |
| EzspSession | matching replies to commands, and the subscriber table |
| Text, Registry, RegistryStore | the device registry, its names, and what they resolve to |
| RegistryNames, RegistryLookup | the same in the words and letters of a user |
| Provenance, ProvenanceExact, Interviews | interviews and the structure one device inherits from another |
| Prompt, PromptSpacing, Completion, Columns | the prompt's words, quoting, Tab completion and candidate listing |
| Color | hue and saturation, over the reals |
| Wrappers | Option and Result |

## Main results

- **Receive safety is exact.** `Send` reads its acknowledgement number under a lock and
  writes the frame after releasing it, so the number on a DATA frame may be stale by the
  time it is written. With a peer window W (1 to 7) and at most S frames accepted between
  the reading and the writing, the payloads accepted are a prefix of those sent in every
  run if and only if W <= 3 or S + W <= 7. Outside those limits a concrete run is built in
  which the peer takes a stale number for the one eight further on, and the host accepts a
  later payload in place of one it never heard.
- **Send safety is exact too.** Over every run, whatever the window and the staleness,
  the payloads of completed Sends are exactly those the peer accepted whenever no Send is
  under way, if and only if no Send may give up once its frame has been written. Giving up
  before that, as on a payload `Encode` refuses, does no harm. A run of two Sends shows the
  harm otherwise: an abandoned Send leaves its number to the next one.
- **Error detection.** At any length, no error confined to sixteen consecutive bits and no
  error of an odd number of bits passes `Decode`'s CRC check, wherever it falls; two
  flipped bits pass it if and only if they are a multiple of 32767 bits apart. So no one,
  two or three flipped bits pass in a body of up to 4095 bytes, and the scanner lets 256
  through.
- **Answers are exact.** Within the same limits, over every run and in full frame numbers,
  the host acknowledges the frame it awaits and repeats of the one before it, and refuses
  every other.
- **Stream transparency.** Any frames, written back to back with flow-control bytes
  anywhere, read in pieces of any size, are the frames decoded, less exactly those whose
  stuffed body exceeds 256 bytes. Frames with a substitute byte in them, frames cancelled
  half-way and bare flags in between are lost and take nothing with them.
- **ZCL round trips both ways.** Whatever parses is reproduced byte for byte by writing
  its records out again; whatever the builders accept, and any report or answer a device
  gives, is parsed back as meant. The one
  exception is a `uint64` of 2^63 or more given for a signed type, which the code
  converts rather than refuses.
- **Replies and subscribers.** In every reachable state each answered command was answered
  by a reply to itself or to a command a multiple of 256 earlier with the same identifier;
  a channel is open exactly while subscribed, never closed twice or sent to when closed,
  and holds only messages that its subscriber's own function holds of.
- **Names are addresses.** Over every history a stored name finds its own device and
  nothing else. Any other query finds the one device whose name begins with it, whatever
  names contain it, or failing that the one whose name does.
- **Provenance stays one deep**, over every history of sightings, removals and interviews
  that overlap in any way, under one guard: no record that was copied, or that an interview
  under way has copied, is removed or given a sibling's answers. The guard is exact: if such
  a record is, some history that keeps the guard from then on breaks provenance, and
  otherwise none does. An interview keeps it when it is recorded on the record it began on
  and no other was recorded there in between. The code does not see to that: see below.
- **Completion keeps choices.** Extending a word on Tab leaves the same candidates, and
  quoting is undone by the tokenizer for exactly the words it can be.
- **Hue and saturation** are a bijection with colours up to brightness.

## Where the code does less than it says

- internal/ash/conn.go:310 refreshes the acknowledgement number only for retries, and even
  then before the write: see the exact limits above.
- internal/ash/conn.go:301 clears stale acknowledgements so that none is mistaken for the
  frame's own, but after a Send gives up a written frame a fresh one can be, and only then
  (AshSend.SendExact, AshSend.AbandonedSendMisleads).
- internal/zcl/encode.go:212-214 says a different number than the one asked for is never
  sent; `asInt` lets a large `uint64` through as a negative one
  (ZclValue.WrappedValueAccepted).
- internal/zcl/zcl.go:569-574 keeps a record although the error is reported, exactly when
  it is a successful one of the receiving direction whose timeout is cut short
  (ZclReporting.KeptDespiteError, ZclReporting.CutShortKept).
- internal/store/store.go:333-338 keeps provenance one deep through the choice of peer
  alone; removing a source leaves copies that point nowhere, at once or when an interview
  that has copied it is recorded (ProvenanceExact.RemovalExact).
- zigbee/interview.go:436-438 never lets a device that answered for itself be given a
  sibling's answers, but zigbee/interview.go:540 looks the record up again by network
  address, and two records may have the same one. Then an interview may begin on a record
  that may inherit and be recorded on one that answered for itself, even on the sibling it
  copied, with nothing happening in between (ProvenanceExact.SharedAddress); two interviews
  of one record that overlap do the same. A record that answered for itself is lost exactly
  so and by its removal (Provenance.FirstHandLasts), and what is recorded so breaks
  one-deep provenance at once exactly on the sibling itself or on another's source
  (ProvenanceExact.MisplacedBreaks).
- zigbee/interview.go:463-468 gives a peer of known type but unknown capability a
  capability of zero, which is then recorded on the device that inherits, and zigbee/joins.go:171-173
  makes such peers. What is recorded is the peer's or the record's own in all other cases and
  no others, unless the record's own was zero already (Provenance.CapabilityInvented,
  Provenance.CapabilityFromNowhere).
- cmd/gzb/repl_grammar.go:467-472 quotes names with a double quote in them, which the
  tokenizer cannot read back; internal/store/name.go:42-61 allows such names
  (Prompt.QuotingRoundTrip, Completion.TabFinishes, Completion.NameWithQuote).

## Model

| member | source | states |
|---|---|---|
| AshCrc.FeedLinear | internal/ash/frame.go:175-188 | the CRC register is a linear map of its start and the message |
| AshCrc.Preload | internal/ash/frame.go:177-186 | XORing up to sixteen bits in at the top and shifting that often is long division bit by bit |
| AshCrc.ClearedBy | internal/ash/frame.go:313-317 | of the continuations of a given short length only the register's own contents clear it |
| AshCrc.BurstDetected | internal/ash/frame.go:175-188 | messages that differ only within sixteen consecutive bits have different CRCs |
| AshCrc.TurnKeepsParity | internal/ash/frame.go:179-185 | a shift with its conditional XOR of 0x1021 keeps the register's parity |
| AshCrc.FeedParity | internal/ash/frame.go:175-188 | the CRC's parity is that of its start and the message together |
| AshCrc.OddErrorDetected | internal/ash/frame.go:175-188 | messages that differ in an odd number of bits have different CRCs |
| AshCrcWord.BitsTurned | internal/ash/frame.go:179-185 | the shift and conditional XOR of 0x1021 on a uint16 turn the bit-string register |
| AshCrcPeriod.PowerTimes | internal/ash/frame.go:179-185 | turning the register m + n times multiplies the two powers of x |
| AshCrcPeriod.PowerIsOne | internal/ash/frame.go:179-185 | turning brings the register back after n steps exactly when n is a multiple of 32767 |
| AshCrcPeriod.TwoErrors | internal/ash/frame.go:175-188 | messages that differ in exactly two bits have the same CRC if and only if those are a multiple of 32767 apart |
| AshFrame.Absorb | internal/ash/frame.go:178-186 | the inner loop on one byte is eight steps of long division |
| AshFrame.Crc16 | internal/ash/frame.go:175-188 | the loops compute the division of the whole message, starting from all ones |
| AshFrame.Randomize | internal/ash/frame.go:195-207 | the loop XORs byte i with the i-th state of the shift register seeded 0x42 |
| AshFrame.KeyNonZero | internal/ash/frame.go:200-204 | the whitening byte is never zero, at any position |
| AshFrame.RandomizeTwice | internal/ash/frame.go:190-207 | whitening twice restores the data, and once changes every byte |
| AshWhitening.KeyPeriod | internal/ash/frame.go:195-207 | the whitening sequence repeats after n bytes exactly when n is a multiple of 255 |
| AshFrame.Stuff | internal/ash/frame.go:219-229 | the loop escapes each reserved byte and ends with the flag |
| AshFrame.Unstuff | internal/ash/frame.go:232-246 | the loop undoes escapes, refusing one at the very end |
| AshFrame.StuffingRoundTrip | internal/ash/frame.go:210-246 | unescaping an escaped body gives it back, and no reserved byte but the escape is left in it |
| AshFrame.ControlRoundTrip | internal/ash/frame.go:249-347 | reading the control byte and payload of any frame gives all its kind carries |
| AshFrame.CheckBytesMatch | internal/ash/frame.go:296-317 | the check bytes appended are those Decode asks for |
| AshWire.DataLayout | internal/ash/frame.go:249-256 | the eight bits of a DATA control byte: 0, the frame number, the retransmission mark, the acknowledgement number |
| AshWire.AckLayout | internal/ash/frame.go:257-268 | those of ACK and NAK: their three kind bits, the not-ready mark, an unused bit, the number |
| AshWire.CrcWordIsCrc | internal/ash/frame.go:175-188 | the arithmetic on a uint16, byte by byte, is the division on the bit string |
| AshWire.EscapeTable | internal/ash/frame.go:210-229 | the two bytes that stand for each of the six reserved ones, in any place; every other byte stands for itself |
| AshWire.KnownFrames | internal/ash/frame_test.go:22-174 | the bytes on the wire of the reset request, of a radio's answer and of the version command |
| AshFrame.Encode | internal/ash/frame.go:283-299 | refuses data over 256 bytes, else whitens, appends the CRC high byte first, and stuffs, in that order |
| AshFrame.Decode | internal/ash/frame.go:303-348 | unstuffs, checks length and CRC, then reads the control byte, with each error in its place |
| AshFrame.FrameRoundTrip | internal/ash/frame.go:283-348 | Decode of Encode less its flag is the frame with what its kind carries; the wire holds no reserved byte but escapes and the last flag |
| AshWire.AcceptedIsWritten | internal/ash/frame.go:303-348 | whatever Decode accepts is written back as the same bytes exactly unless its kind carries nothing further and it had something |
| AshWire.RefusedIsForeign | internal/ash/frame.go:319-346 | with its check bytes right a body is refused only for a control byte that no frame has |
| AshFrame.CrcHoldsIffDivisible | internal/ash/frame.go:313-317 | the check passes exactly when the body with its check bytes leaves the register clear |
| AshFrame.BurstRejected | internal/ash/frame.go:303-317 | damage within sixteen consecutive bits of an accepted body, check bytes included, is a CRC error |
| AshFrame.AdjacentBytesRejected | internal/ash/frame.go:303-317 | damage to two adjacent bytes of an accepted body, of any length, is a CRC error |
| AshFrame.OddErrorRejected | internal/ash/frame.go:303-317 | an odd number of flipped bits in an accepted body, of any length, is a CRC error |
| AshFrame.TwoErrorsRejected | internal/ash/frame.go:303-317 | two flipped bits in an accepted body are a CRC error if and only if they are no multiple of 32767 apart |
| AshFrame.FewErrorsRejected | internal/ash/frame.go:303-317 | one to three flipped bits in an accepted body of up to 4095 bytes are a CRC error |
| AshScanner.Scanner.Refill | internal/ash/conn.go:457-465 | a read overwrites the buffer only when nothing in it is pending, and loses no byte |
| AshScanner.Scanner.Step | internal/ash/conn.go:420-450 | one pending byte is consumed and what remains to be yielded follows the fold |
| AshScanner.Scanner.Consume | internal/ash/conn.go:419-451 | the inner loop stops at the first completed frame or when nothing is pending |
| AshScanner.Scanner.NextItem | internal/ash/conn.go:417-467 | yields the next item of the fold, or the read error once its bytes are consumed |
| AshScanner.Drain | internal/ash/conn.go:122-132 | all that is yielded, for any splitting into reads, is a plain fold over the bytes delivered |
| AshScanner.DeliversAll | internal/ash/conn.go:457-465 | non-empty reads deliver their concatenation, with the bytes that came beside the error |
| AshScanner.SplitIrrelevant | internal/ash/conn.go:417-467 | two ways of cutting the same bytes into reads yield the same items and error |
| AshScanner.CancelIsolates | internal/ash/conn.go:424-427 | what follows a cancel byte is scanned as from the start |
| AshScanner.FlowIgnored | internal/ash/conn.go:431-432 | flow-control bytes change nothing, wherever they are |
| AshScanner.PlainOverruns | internal/ash/conn.go:442-449 | a body over 256 bytes is marked corrupt, and stays so up to its flag |
| AshScanner.PayloadBounds | internal/ash/conn.go:443-448 | any DATA payload of 125 bytes fits, whatever needs escaping; none of 254 does |
| AshScanner.OneFrame | internal/ash/conn.go:417-467 | one frame's wire form yields its body, or one discard if too long, and leaves the scanner fresh |
| AshScanner.StreamTransparent | internal/ash/conn.go:417-467 | frames written in a row, with flow-control bytes anywhere, are cut apart exactly |
| AshScanner.FramesSurvive | internal/ash/conn.go:118-150 | scanned and decoded, they are the same frames in order, less those too long to fit |
| AshStream.SubstituteDiscards | internal/ash/conn.go:428-441 | a frame with a substitute byte anywhere in it is one discard, from whatever state, and leaves the scanner fresh |
| AshStream.InterruptedStream | internal/ash/conn.go:417-467 | of frames written whole, frames with a substitute byte, frames cancelled half-way and bare flags, in any order, exactly the whole ones that fit are received, in order |
| AshConn.Conn.constructor | internal/ash/conn.go:267-269 | after a reset both numbers are zero and the channels keep what they held |
| AshConn.Conn.SignalAck | internal/ash/conn.go:204-210 | an acknowledgement is queued, or counted as dropped when eight wait |
| AshConn.Conn.TakeFrame | internal/ash/conn.go:153-202 | a DATA frame's acknowledgement is signalled before anything else; every other kind is done with at once |
| AshConn.Conn.JudgeData | internal/ash/conn.go:159-177 | the frame is accepted, to be acknowledged again, or to be refused, and only acceptance moves rxSeq, as the machine does |
| AshConn.Conn.WriteAnswer | internal/ash/conn.go:166-179 | the answer decided on is what is written |
| AshConn.Conn.OfferData | internal/ash/conn.go:181-187 | an accepted payload is queued after its answer, or counted as dropped when sixty-four wait |
| AshConn.Conn.Reached | internal/ash/conn.go:118-358 | whatever methods were called, in whatever order, the object is where the logged run leads the machine |
| AshConn.Conn.HandleBad | internal/ash/conn.go:137-142 | a CRC error is answered with a NAK of the number awaited |
| AshConn.Conn.DrainAcks | internal/ash/conn.go:301-304 | stale acknowledgements are thrown away, frames arriving meanwhile |
| AshConn.Conn.ReceiveAck | internal/ash/conn.go:340-347 | a NAK asks for a retry, the number wanted completes, any other is ignored |
| AshConn.Conn.AwaitAck | internal/ash/conn.go:337-358 | ends only by the number wanted, a NAK, the timer, a reset, or the link or caller giving up |
| AshConn.Conn.WriteData | internal/ash/conn.go:306-317 | the frame carries the number read earlier, and the retransmission mark after the first attempt |
| AshConn.Conn.RefreshAck | internal/ash/conn.go:308-314 | a retry reads the acknowledgement number afresh |
| AshConn.Conn.Retry | internal/ash/conn.go:307-332 | at most four attempts; success is reported only for the frame's own number |
| AshConn.Conn.Send | internal/ash/conn.go:286-333 | whatever arrives meanwhile, Send is one complete exchange of the machine, reporting success exactly when it completed; the DATA frames it writes are its own, at most four, marked from the second on, and four when the link is given up |
| AshReceive.AcceptedIsNext | internal/ash/conn.go:159-177 | a DATA frame whose three-bit number is awaited is the very next frame |
| AshReceive.AckToNames | internal/ash/conn.go:155-179 | a number read by a peer names the count behind it, or one at least eight further on |
| AshReceive.StepKeeps | internal/ash/conn.go:118-358 | every step of either end or of the lines keeps the invariant within the limits |
| AshReceive.ReceiveSafe | internal/ash/conn.go:155-187 | within the limits, over every run, the payloads accepted are a prefix of those sent |
| AshAnswers.AnswerExact | internal/ash/conn.go:159-179 | within the limits, over every run and in full frame numbers, the frame awaited is accepted and acknowledged, the one before it acknowledged again, and any other refused |
| AshAnswers.DamageAnswered | internal/ash/conn.go:137-142 | a damaged frame is refused by the number of frames accepted and changes nothing else |
| AshAnswers.AnswerGoesUp | internal/ash/conn.go:166-187 | the answer decided on is the one frame that goes up, and only what was accepted goes on to the consumer |
| AshAnswers.OffersWhileRoom | internal/ash/conn.go:181-187 | an accepted payload is queued behind the others while fewer than sixty-four wait, else counted, and the consumer takes the oldest |
| AshAnswers.FramesSignal | internal/ash/conn.go:153-210 | each kind of frame signals its acknowledgement, refusal or reset while there is room for eight and four, else is counted |
| AshAnswers.FrameEndsWait | internal/ash/conn.go:307-347 | from frame to outcome: only the number after its own completes a waiting Send, a refusal of any number retries it up to three times, any other leaves it waiting |
| AshAnswers.OtherEndsOfWait | internal/ash/conn.go:319-358 | a timeout is answered as a refusal is, and a reset ends the Send |
| AshAnswers.LeftoversIgnored | internal/ash/conn.go:299-304 | over every run of a Send, the acknowledgements it can still take are no more than the frames heard since it began |
| AshAnswers.NothingHeardNothingTaken | internal/ash/conn.go:299-304 | so with nothing heard since it began, none left over can complete or refuse it |
| AshReceiveExact.Mistaken | internal/ash/conn.go:290-315 | a run in which a stale number 0 is taken for 8 |
| AshReceiveExact.Unsafe | internal/ash/conn.go:290-315 | for any limits outside Sound, a run that accepts a payload out of order |
| AshReceiveExact.ReceiveExact | internal/ash/conn.go:155-187 | for windows 1 to 7, receive safety over all runs holds if and only if W <= 3 or S + W <= 7 |
| AshSend.TakenIsNext | internal/ash/conn.go:286-317 | a frame the peer takes for the next one is the payload of the Send under way |
| AshSend.CompletedMeansAccepted | internal/ash/conn.go:344-346 | the number that completes a Send was counted after its payload was accepted |
| AshSend.StepKeeps | internal/ash/conn.go:118-358 | every step keeps the sender's invariant, for any limits |
| AshSend.SendSafe | internal/ash/conn.go:286-358 | while no Send has given up a written frame, completed payloads are exactly those the peer accepted |
| AshSend.AbandonedSendMisleads | internal/ash/conn.go:306-332 | a run in which the Send after an abandoned one reports success though its payload was never taken |
| AshSend.SendExact | internal/ash/conn.go:286-358 | over all runs, idle means completed payloads are those accepted, if and only if no Send may give up a written frame |
| AshDelivery.EveryPayloadAccounted | internal/ash/conn.go:181-187 | the consumer gets the accepted payloads in order, fewer by exactly DroppedData |
| AshDelivery.HostRuns | internal/ash/conn.go:118-358 | seen from the host, a run of the link is a run of the machine that Conn is proved to be |
| ZclBytes.AppendUint | internal/zcl/encode.go:303-308 | the loop appends the little-endian bytes |
| ZclBytes.ReadUint | internal/zcl/zcl.go:402-405 | the loop reads them back, most significant first |
| ZclBytes.ValueOfBytes | internal/zcl/encode.go:303-308 | a number that fits n bytes survives them |
| ZclBytes.BytesOfValue | internal/zcl/zcl.go:398-408 | bytes survive being read as a number |
| ZclBytes.SignedRoundTrip | internal/zcl/encode.go:169-183 | a number in range survives two's complement of its width |
| ZclCursor.Cursor.Fail | internal/zcl/zcl.go:352-356 | the first error sticks |
| ZclCursor.Cursor.Need | internal/zcl/zcl.go:358-367 | true exactly when no error has occurred and n bytes remain |
| ZclCursor.Cursor.Number | internal/zcl/zcl.go:369-408 | reads exactly n bytes or latches truncation and stays put |
| ZclCursor.Cursor.Take | internal/zcl/zcl.go:410-417 | the same, keeping the bytes |
| ZclCursor.Cursor.DecodeValue | internal/zcl/zcl.go:291-343 | reads one value of any type, or latches the reason, never leaving the buffer |
| ZclValue.ParseIsLocal | internal/zcl/zcl.go:291-343 | a value's reading depends on its own bytes alone |
| ZclValue.ValueRoundTrip | internal/zcl/encode.go:137-207 | every value accepted for encoding is decoded as meant, consuming exactly its bytes, whatever follows |
| ZclValue.NumbersSurviveExactly | internal/zcl/encode.go:239-281 | an accepted number is decoded as itself unless it is a uint64 of 2^63 or more for a signed type |
| ZclValue.WrappedValueAccepted | internal/zcl/encode.go:276-277 | such a uint64 is accepted, and read back as -1 |
| ZclMeaning.ByPlaces | internal/zcl/zcl.go:398-408 | n bytes are worth the sum of each times 256 to its place |
| ZclMeaning.UnsignedRead | internal/zcl/zcl.go:291-343 | for every unsigned type, how many bytes it takes, told by its code, and what they are worth |
| ZclMeaning.SignedRead | internal/zcl/zcl.go:291-343 | the same for signed types, negative from half the range up |
| ZclMeaning.OthersRead | internal/zcl/zcl.go:291-343 | and for booleans, floats, addresses, octets and text with their lengths; every other code is refused |
| ZclMeaning.UnsignedAccepted | internal/zcl/encode.go:215-262 | a number is accepted for an unsigned type exactly if it is in range |
| ZclMeaning.SignedAccepted | internal/zcl/encode.go:227-281 | for a signed one exactly if it is in range once a uint64 is taken modulo 2^64 |
| ZclMeaning.OthersAccepted | internal/zcl/encode.go:137-207 | what is accepted for every other type |
| ZclFrame.Decode | internal/zcl/zcl.go:110-130 | the header's fields, with the manufacturer code when flagged, or truncation |
| ZclReports.HeaderRoundTrip | internal/zcl/zcl.go:110-130 | any header, written field by field with any reserved bits, is read as those fields |
| ZclReports.HeaderExact | internal/zcl/zcl.go:110-130 | decoding fails exactly for fewer bytes than the header has, and otherwise the fields written out again are the bytes |
| ZclFrame.NextRecord | internal/zcl/zcl.go:164-179 | one record, its status short-cut and its raw bytes, or the error that ends the loop |
| ZclFrame.Attributes | internal/zcl/zcl.go:148-185 | all records up to the first error, for the two commands that carry them |
| ZclFrame.RecordLossless | internal/zcl/zcl.go:164-179 | a parsed record written out again is the bytes it was read from |
| ZclFrame.ParsingLossless | internal/zcl/zcl.go:148-185 | whenever a payload parses, its records written out again are the payload |
| ZclReports.FramesLossless | internal/zcl/zcl.go:148-185 | which frames carry records, and that without an error those are the whole payload, with statuses exactly in a read response |
| ZclFrame.RawsFit | internal/zcl/zcl.go:173-178 | each record's raw bytes read as exactly its value |
| ZclFrame.AppendRecord | internal/zcl/encode.go:120-132 | one record appended, a failed status alone |
| ZclFrame.ReadAttributesResponse | internal/zcl/encode.go:115-134 | the whole response, or the first value's refusal |
| ZclFrame.RecordRoundTrip | internal/zcl/encode.go:120-132 | an encoded record parses as itself, whatever follows |
| ZclFrame.ResponseRoundTrip | internal/zcl/encode.go:115-134 | an accepted response decodes, header and records, as what was meant, in order |
| ZclReports.ReportRoundTrip | internal/zcl/zcl.go:143-185 | attributes written without statuses in a report, of any accepted values, are the records read, in order |
| ZclReporting.AppendConfig | internal/zcl/encode.go:382-402 | one configuration, with each refusal in its place |
| ZclReporting.ConfigureReportingRequest | internal/zcl/encode.go:376-404 | the whole request, or the first refusal |
| ZclReporting.ReadHeld | internal/zcl/zcl.go:576-590 | a configuration's fields, and its change when analog |
| ZclReporting.ReadStatus | internal/zcl/zcl.go:559-590 | one record in each of its three shapes |
| ZclReporting.KeptDespiteError | internal/zcl/zcl.go:569-574 | a record is kept although reading it failed exactly when it is a successful receiving one with its timeout cut short |
| ZclReporting.CutShortKept | internal/zcl/zcl.go:569-574 | five bytes of which such a record is kept |
| ZclReporting.ReadReportingConfigResponse | internal/zcl/zcl.go:551-596 | all records up to the first error |
| ZclReporting.DecodeChange | zigbee/attributes.go:420-429 | a change of one to eight bytes is its little-endian value; none otherwise |
| ZclReporting.EchoOne | internal/zcl/zcl.go:558-591 | an accepted configuration behind a success status reads back as itself, whatever follows |
| ZclReporting.ReportingEcho | internal/zcl/encode.go:376-404 | every accepted list echoed so reads back as the same identifiers, types, intervals and changes |
| ZclMeaning.AnalogCodes | internal/zcl/zcl.go:217-237 | of the types known, those that need a change are the floats, the signed and unsigned numbers and the UTC time |
| ZclMeaning.ConfigsAccepted | internal/zcl/encode.go:376-404 | a request is built exactly if no configuration reverses its bounds while reporting, or lacks a change that fits an analog type |
| ZclMeaning.ConfigRefused | internal/zcl/encode.go:383-394 | reversed bounds are blamed exactly where they are, and a missing change only where one is needed |
| ZclMeaning.AnswersRoundTrip | internal/zcl/zcl.go:551-596 | any answers a device gives, refusals, timeouts and configurations mixed, are read as given, in order |
| ZclReporting.HeldMeaning | internal/zcl/zcl.go:539-544 | it is reporting unless the maximum is 0xFFFF, and a non-negative integer change decodes to itself |
| EzspSession.PassesForExactly | internal/ezsp/conn.go:375-377 | a reply passes for another command's exactly when identifiers agree and they are a multiple of 256 apart |
| EzspSession.OwnReply | internal/ezsp/conn.go:358-363 | a returned reply less than 256 commands late is the command's own |
| EzspSession.Session.Subscribe | internal/ezsp/conn.go:381-400 | a fresh identifier and an open channel of the room asked for, or 32 |
| EzspSession.Session.Cancel | internal/ezsp/conn.go:393-400 | closes the channel once however often called, and whatever Close did before |
| EzspSession.Session.Close | internal/ezsp/conn.go:404-415 | every subscribed channel is closed once, in any order of the map |
| EzspSession.Session.Send | internal/ezsp/conn.go:304-308 | only an open channel is sent to; a full one takes nothing |
| EzspSession.Session.Route | internal/ezsp/conn.go:287-311 | to the waiting command if it is no callback and there is room; else queued for exactly the subscribers whose own function holds of it and that have room, and counted once for each whose does and that has none |
| EzspSession.Session.Announce | internal/ezsp/conn.go:300-310 | the same of the subscribers alone; and every message in a channel ever handed out satisfies the function it was subscribed with, which every method keeps |
| EzspSession.Session.Broadcast | internal/ezsp/conn.go:300-310 | each subscriber that wants the message has it queued or adds one to the count dropped |
| EzspSession.Session.Begin | internal/ezsp/conn.go:328-337 | the sequence number is the count of commands mod 256, and the reply channel is empty |
| EzspSession.Session.TakeReply | internal/ezsp/conn.go:358-363 | a stale reply is forgotten; the answer ends the wait |
| EzspSession.Session.Meanwhile | internal/ezsp/conn.go:287-415 | whatever subscribers, their cancel functions, Close or the pump do while a command waits, the table stays sound and the command still waits |
| EzspSession.Session.Await | internal/ezsp/conn.go:356-372 | however messages, subscriptions, cancels, Close, timeouts and failures fall, a returned reply is correlated and no callback |
| EzspSession.Session.Command | internal/ezsp/conn.go:322-373 | every command leaves no reply channel behind, and its answer, if any, is recorded and correlated |
| Text.NormalizeSettles | internal/store/name.go:35 | a normalized name is unchanged by normalizing or trimming it again |
| Registry.AddressesIgnoreCase | internal/store/name.go:78-89 | whether a string looks like an address does not depend on case |
| RegistryNames.PrintedIsCanonical | internal/ezsp/codec.go:104-107 | any eight bytes printed with colons between are an address as the registry keeps them |
| Registry.ObservedKeeps | internal/store/store.go:262-279 | a sighting keeps keys and names sound, a promoted placeholder included |
| Registry.NamedKeeps | internal/store/name.go:95-109 | an accepted name keeps all names valid and distinct ignoring case |
| Registry.RefusedMeansTaken | internal/store/name.go:104-106 | a valid name is refused exactly when another record holds it, whoever the map's order finds |
| Registry.NamesAreNotKeys | internal/store/name.go:37-61 | no valid name, in capitals, is a key |
| RegistryNames.SpacesCollapse | internal/store/name.go:35 | however its words are spaced when a name is given, it is stored as those words with one space between |
| RegistryNames.NormalIsTidy | internal/store/name.go:35 | normalizing leaves alone exactly what has no white space but single spaces inside |
| RegistryNames.NamingDecides | internal/store/name.go:95-109 | which namings are refused, and for which reason, in the words typed |
| RegistryNames.StoredName | internal/store/name.go:42-61 | a stored name is tidy, printable, at most 64 characters and no address |
| RegistryLookup.NamedThenFound | internal/store/name.go:95-109 | once a name is accepted it finds the device it was given to |
| Registry.AddressFindsItsDevice | internal/store/name.go:142-150 | a stored canonical address resolves to its own device and to nothing else |
| Registry.NewPlaceholder | internal/store/store.go:284-298 | a placeholder made when no record has the address never lands on another record |
| RegistryLookup.SightingRemembers | internal/store/store.go:262-279 | a sighting moves address and time and keeps all else that was known, be it under a placeholder; no other record changes |
| RegistryLookup.NodeSightingRemembers | internal/store/store.go:284-298 | a network address seen moves the time of one record that has it, or makes a placeholder with nothing known |
| RegistryLookup.NodeIDRoundTrip | internal/store/name.go:67-76 | a network address as it is printed, in any case, is read as itself |
| RegistryLookup.NodeAddressFinds | internal/store/name.go:150-156 | and finds exactly the records that have it, or none |
| RegistryNames.NodeIDExact | internal/store/name.go:67-76 | what counts as a network address: 0x in either case, then hex digits worth less than 65536; without the prefix it is a name |
| Registry.NameFindsItsDevice | internal/store/name.go:142-188 | a stored name resolves to its own device and to nothing else |
| Registry.LooseSpelling | internal/store/name.go:160-168 | so does any spelling of it in other case and spacing that is no address |
| Registry.MatchIsUnrivalled | internal/store/name.go:175-187 | any other match is the sole member of the best non-empty tier |
| RegistryLookup.LooseMatch | internal/store/name.go:158-188 | letter by letter: the device whose name begins with the query, whatever others contain it; failing that the one whose name contains it; if several, all of those are named |
| RegistryNames.SpacesAround | internal/store/name.go:142-147 | white space round a query makes no difference to what it finds |
| Registry.ListingUnique | internal/store/store.go:371-385 | a registry has one listing, whatever the map's order |
| RegistryLookup.ListingOrder | internal/store/store.go:371-385 | of two records listed, the earlier was seen later, or at the same time and its address is smaller |
| RegistryLookup.FirstDifference | internal/store/store.go:378-383 | of two strings the smaller ends first or has the smaller character at the first difference |
| Registry.PeerUnique | internal/store/store.go:339-360 | a registry nominates one peer, whatever the map's order |
| RegistryLookup.PeerIsLatest | internal/store/store.go:339-360 | the peer answered for itself, is of the model, and did so later than every other such device, or as late with the smaller address |
| RegistryStore.Store.Observe | internal/store/store.go:262-279 | finds, promotes or creates the record in place, and says whether it was new |
| RegistryStore.Store.ByNodeID | internal/store/store.go:315-322 | some record with the address, or none has it |
| RegistryStore.Store.ObserveNodeID | internal/store/store.go:284-298 | refreshes a record with the address, or creates a placeholder |
| RegistryStore.Store.ByName | internal/store/name.go:123-130 | some record of the name ignoring case, or none has it |
| RegistryStore.Store.SetName | internal/store/name.go:95-109 | names the device or refuses with the first reason that applies, changing nothing |
| RegistryStore.Store.ClearName | internal/store/name.go:112-120 | takes the name away and returns it |
| RegistryStore.Store.Remove | internal/store/store.go:363-369 | takes the record out, if there |
| RegistryStore.Store.Sift | internal/store/name.go:162-174 | the first exact match, or exactly the prefix and substring tiers |
| RegistryStore.Store.Resolve | internal/store/name.go:142-188 | an address, a node's address, a name or a tier's sole member, in that order |
| RegistryStore.Store.PeerOfModel | internal/store/store.go:339-360 | a candidate that no other candidate betters, or there is none |
| Provenance.InheritanceCopies | zigbee/interview.go:448-502 | a record that inherits ends up built as its peer, except where the peer knows less |
| Provenance.CapabilityInvented | zigbee/interview.go:463-468 | the capability recorded is the peer's or the record's own exactly unless the peer's is unknown and its type known; it is then zero |
| Provenance.CapabilityFromNowhere | zigbee/interview.go:463-468 | two records without a capability of which one is given zero |
| Provenance.HarmlessKeeps | zigbee/interview.go:579-613 | what a record may become without upsetting anyone's provenance, and that it may become nothing else |
| Provenance.PromotionKeeps | internal/store/store.go:264-275 | a promoted placeholder takes its provenance with it |
| Provenance.FinishKeeps | zigbee/interview.go:537-613 | recording an interview on whatever record its address finds keeps provenance one deep, unless it copied a sibling and that record is a source |
| Provenance.StepKeeps | zigbee/interview.go:427-613 | so does every operation, but for removing a source or giving it a sibling's answers |
| Provenance.NamesStayAddresses | internal/store/name.go:37-130 | over every history, removals included, keys are addresses and names valid, distinct and unlike addresses |
| Provenance.HistoryKeeps | zigbee/interview.go:427-613 | over every history from the empty registry in which no source is removed or given a sibling's answers, every inherited record names an identified one that answered for itself |
| Provenance.StandingLasts | zigbee/interview.go:436-438 | only its removal and an interview recorded on it change whether a record answered for itself |
| Provenance.FirstHandLasts | zigbee/interview.go:436-438 | a record that answered for itself is lost or turned into an inherited one exactly by its removal or by an interview recorded on it that copied a sibling |
| Provenance.RecordedWhereItBegan | zigbee/interview.go:427-569 | an interview recorded on the record it began on, if no other was recorded there in between, keeps provenance one deep |
| ProvenanceExact.RemovalBreaks | internal/store/store.go:363-369 | a removal leaves provenance one deep at once if and only if no other record was copied from the one removed |
| ProvenanceExact.MisplacedBreaks | zigbee/interview.go:537-569 | a sibling's answers recorded on any record leave provenance one deep at once if and only if that is neither the sibling nor any record's source; the record is then no longer first-hand |
| ProvenanceExact.Lands | zigbee/interview.go:537-569 | an interview that copied a record since gone, or no longer first-hand, is recorded somewhere by some careful history, and breaks provenance |
| ProvenanceExact.LateCopyBreaks | zigbee/interview.go:427-613 | so it does when that record was removed or given a sibling's answers after an interview copied it |
| ProvenanceExact.UnseatingExact | zigbee/interview.go:427-613 | removing a record, or giving it a sibling's answers, keeps provenance one deep over every careful history that follows if and only if neither a record nor an interview under way was copied from it |
| ProvenanceExact.RemovalExact | internal/store/store.go:363-369 | in particular a removal |
| ProvenanceExact.SharedAddress | zigbee/interview.go:427-569 | for any two addresses, a history after which one interview, by itself, makes a record that answered for itself inherit from itself |
| Interviews.Apply | zigbee/interview.go:579-613 | the findings are merged in place, provenance travelling with the structure |
| Interviews.FullInterviewRecords | zigbee/interview.go:334-398 | field by field, what a record holds once a device has described its endpoints: its own answers where it gave any, the basic ones from whichever try was answered |
| Interviews.PartialInterviewRecords | zigbee/interview.go:571-613 | the same where it described none: structure and provenance stay, and without any answer the whole record does |
| Interviews.InheritedInterviewRecords | zigbee/interview.go:427-502 | the same where a sibling was copied: the make and model just answered, which are the sibling's, and its structure |
| Interviews.Nameless | internal/store/store.go:77-89 | a device without a name is called by manufacturer and model in that order, by its model, or by its address |
| Interviews.InheritsExactly | zigbee/interview.go:427-453 | an interview inherits exactly if it need not be full, found a record that never answered for itself, and another device of the model has |
| Interviews.IdentityFindsDevice | zigbee/interview.go:556-568 | what an interview reports can be typed back: its address, and its name if one is stored, find this device and nothing else, and a placeholder is never reported |
| Interviews.Coordinator.InheritFromPeer | zigbee/interview.go:427-453 | inherits exactly when the record is known, has not answered for itself and has a peer |
| Interviews.Coordinator.RecordInterview | zigbee/interview.go:537-569 | only a known record is written, and only if something was learned |
| Interviews.Coordinator.BeginInterview | zigbee/interview.go:335-345 | whatever other interviews are under way, deciding to inherit or to ask on is the start of one in a history |
| Interviews.Coordinator.EndInterview | zigbee/interview.go:341-398 | after any other operations, recording is the finish of that interview, on whichever record the address finds by then, or on none |
| Interviews.Coordinator.Interview | zigbee/interview.go:329-398 | with nothing between its halves an interview is one start and one finish of a history, whichever records they find |
| Prompt.TakeWord | cmd/gzb/repl_grammar.go:147-159 | the inner loop takes one word with its quotes |
| Prompt.Tokenize | cmd/gzb/repl_grammar.go:139-162 | the loops compute the line's words, their places and open quotes |
| Prompt.QuotedReadsBack | cmd/gzb/repl_grammar.go:467-473 | quoted words in a row read back as themselves, but for empty ones |
| Prompt.QuotingRoundTrip | cmd/gzb/repl_grammar.go:467-473 | they all read back if and only if none is empty and none has a quote |
| PromptSpacing.SpacingReadsBack | cmd/gzb/repl_grammar.go:139-164 | any spaces and tabs before, between and after words keep them apart, and nothing else does |
| PromptSpacing.QuotesInsideWord | cmd/gzb/repl_grammar.go:147-159 | quotes that open and close inside a word go, and the blanks between them stay in it |
| PromptSpacing.UnclosedQuote | cmd/gzb/repl_grammar.go:147-159 | a quote that never closes takes all that follows into its word, which is left open |
| Prompt.SettledAppend | cmd/gzb/repl_grammar.go:139-162 | text that ends between words is tokenized apart from what follows |
| Prompt.CutLast | cmd/gzb/repl_grammar.go:185-189 | taking off a last word that reaches the end leaves the other words as they were |
| Completion.FilterPrefix | cmd/gzb/repl_grammar.go:440-450 | the loop keeps the matching candidates, sorted, without repeats |
| Completion.OfferedExactly | cmd/gzb/repl_grammar.go:440-450 | what is offered is the one ascending list of the candidates that start as typed, ignoring case |
| Completion.StartsByLetters | cmd/gzb/repl_grammar.go:440-450 | starting as typed is having the same letters in the same places, in either case |
| Completion.CommonPrefix | cmd/gzb/repl_grammar.go:454-465 | the longest string that begins every candidate |
| Completion.Complete | cmd/gzb/repl_grammar.go:182-201 | the word at the cursor and the candidates for it |
| Completion.CompleteAt | cmd/gzb/repl_term.go:187-205 | finishes the word, extends it, shows the list or does nothing |
| Completion.TabDecides | cmd/gzb/repl_term.go:184-205 | Tab does nothing exactly when nothing starts with the letters typed, and shows the list exactly when several do that agree on no more |
| Completion.CursorSettled | cmd/gzb/repl_grammar.go:183-189 | what stands before the current word is tokenized apart from it |
| Completion.NameReadsBack | cmd/gzb/repl_grammar.go:467-473 | a name the registry accepts reads back, quoted, exactly if it has no double quote |
| Completion.NameWithQuote | internal/store/name.go:42-61 | a name it accepts that has one |
| Completion.TabFinishes | cmd/gzb/repl_term.go:193-196 | the only candidate becomes exactly one finished word, if and only if it is not empty and has no quote |
| Completion.TabExtends | cmd/gzb/repl_term.go:199-203 | a shared prefix becomes exactly the word being typed, if and only if it has no quote; text round it is untouched |
| Completion.SameCandidates | cmd/gzb/repl_grammar.go:440-465 | filtering the same pool by what the candidates share keeps exactly them |
| Completion.TabKeepsChoices | cmd/gzb/repl_term.go:187-205 | after extending, the same candidates are offered at the same place, and the next Tab shows them |
| Completion.TabLeadsOn | cmd/gzb/repl_grammar.go:475-486 | after extending, typing the rest of any candidate makes it the word at the cursor, blanks and all |
| Columns.Columns | cmd/gzb/repl_term.go:257-281 | as many rows as needed, each ending with the last item that belongs to it |
| Columns.EveryItemShown | cmd/gzb/repl_term.go:268-279 | item i stands whole on row i mod rows, at column i div rows |
| Columns.RowsFit | cmd/gzb/repl_term.go:261-279 | no row is wider than the terminal if one column fits it, and none ends in padding |
| Columns.FewestRows | cmd/gzb/repl_term.go:261-266 | columns for a given number of rows fit the width exactly if there are at least as many rows as here |
| Color.PlaceOnTheWheel | zigbee/color.go:162-175 | the hue of a pure colour is its place on the wheel, at every tie |
| Color.SectorsAreTheWheel | zigbee/color.go:224-247 | the six sectors are one wheel mixed with white |
| Color.Primaries | zigbee/color.go:224-247 | red, green and blue stand at 0, 120 and 240 degrees |
| Color.HueIsPlace | zigbee/color.go:162-175 | the hue computed is the place of the colour without its white |
| Color.ColourRoundTrip | zigbee/color.go:151-175 | hue and saturation, shown, are the colour at full brightness, in every sector and at every tie |
| Color.HueRoundTrip | zigbee/color.go:224-247 | any hue and saturation, shown and read again, are as they were once clamped to range; unsaturated ones read as white |
| Color.SameButForBrightness | zigbee/color.go:138-142 | two colours have the same hue and saturation if and only if they differ in brightness alone |
| Color.BrightnessIsDiscarded | zigbee/color.go:140-142 | scaling the channels changes neither |
| Color.HexColourShows | zigbee/color.go:143-175 | six hex digits other than black are a colour that shows as itself; anything else is none |
| Color.HexByDigits | zigbee/color.go:143-154 | the six digits two by two are red, green and blue |

## Left out

- The serial port, timers, contexts and goroutine scheduling: a timeout, a cancellation, a write failure or a frame arriving is a choice of the environment. Each region under a lock, each write and each channel operation is one step, of the read pump and of Send alike; only the pump's comparing of a DATA frame's number with rxSeq and its moving of rxSeq are taken together, since during a run nothing else moves it.
- The window in `Reset` between the RSTACK and the zeroing of the counters (internal/ash/conn.go:259-269): runs start after it, with whatever acknowledgements and payloads the channels still hold.
- Resets during a run of the link: the coprocessor of AshLink sends none, though the host's machine handles them.
- Liveness: full channels drop, and nothing is claimed to arrive.
- The coprocessor: it is environment, a Go-Back-N sender of window 1 to 7 and a receiver with the host's own accept rule; EzspSession likewise takes it that a reply answers some command issued.
- AshReceive.ReceiveSafe: not stated for every window up to 7 without a bound on staleness, because it is false there; AshReceiveExact.ReceiveExact gives the exact bound.
- EzspSession.Session: channels are values in a table by identifier, so sharing of one channel between goroutines is not captured.
- ZclValue.ValueRoundTrip: rounding to float32 is a parameter, so for single-precision values it says only that the rounded bits survive.
- Color: over the reals, so nothing about floating-point rounding; xy, Planckian and gamma conversions and the cluster's 0 to 254 units are not modelled.
- Text: ASCII only; no Unicode case folding, and no splitting inside a rune in completion and columns.
- Completion.Complete: what may be offered comes from a pool that depends on the words before the cursor and the text typed, and is otherwise arbitrary, so Completion.TabKeepsChoices holds for every pool; the command table, flags and devices that fill it (internal detail of `arguments`) are not modelled.
- Interviews.Coordinator.Interview: says nothing of what falls between its halves; Interviews.Coordinator.BeginInterview and EndInterview treat each half beside any other interviews, and Provenance every interleaving. Descriptions are passed by value, and saving to disk is left out.
- Registry records leave out readings, parents and other fields no property here looks at; JSON persistence, migrations and atomic renaming are left out.
- What joins and readings do to records, writes, default responses, ZDO parsing, typed EZSP commands, network forming and joining, light actions, command-line parsing and printing: they would add only easy members.
