# A verification model of wliotproxy

This project models the parts of the wliotproxy repository that carry its logic, and proves what they promise. It is
written in Dafny 4.11; `dafny verify dfyconfig.toml` checks all of it.

Four groups of modules:

* **The ARpc protocol and the StarNet line.** `StreamCodec` describes the parser and writer of the wire format as a
  machine over characters, `StreamParser` and `StreamWriter` are the objects with their buffers and sinks. `Dispatch`
  is the message handler of a device, `DispatchAnswers` says what its answers tell, `StarNetNode` is the two-sided
  repeater around it. `Line` proves delivery and termination for any line of nodes that keep a few laws, with one
  conservation law over arbitrary weights; `StarNetLine` shows that the repeaters keep these laws; `Wire` and
  `StarNetWire` carry the theorems down to single bytes in any interleaving. The parser and writer of
  `libwliotproxy-simple/src` are the same machine.
* **The expression engine.** `MathExp` is the tree, its regrouping and its values over any algebra, `MathSubExp` the
  in-place regrouping of the two lists, `MathExpParser` the state-machine parser, `MathExpPrinting` the round trip from
  printed expressions, `MathExpLanguage` what the parser accepts of texts without spaces and leading signs,
  `MathExpTidy` of all texts, and `MathExpArithmetic` ties the characters to ordinary arithmetic.
* **The sensor storages.** `Files` is a file as a byte sequence with a position. `Blocks` is the theory of a sequence cut
  into equal blocks whose missing tail counts as zeros; `Span(n, size)` is the product `n * size` there
  (`SpanIsProduct`). `FixedBlocks`, `ChainedBlocks` and `GTimeIndex` are the drivers, `FixedBlocksRuns` whole runs of
  writes to a block file. `ContinuousStorage`, `LastNValues` and `SessionStorage` are the storages over them,
  `ContinuousStorageRuns` and `LastNValuesRuns` their whole lives: created, written to, closed, opened again by the same
  object or by a fresh one, in any order, and asked for values. `SessionStorageEffects` says what the session operations
  achieve, `FileFormats` what lies where in the files.
* **Codecs and names.** `Uuid`, `Base64`, `TextCodec` (the text records of the storages), `DevicesNames`,
  `DevicesNamesEvents` for the names after any run of events, and `DevicesNamesReload` for a names database saved and
  loaded again.

Code that changes state is modelled by classes with its fields; each method is proved against a function on values, and
the theorems are about these functions; what such a function computes is in turn pinned by laws that do not mention its
body. `char` stands for a character of the C sources, `byte` for an octet of a file.

Where the code does not do what one would expect, the model follows the code, and a lemma says exactly when:

* two newlines do not resynchronise a parser that has just opened a hexadecimal escape, a zero byte does
  only outside an escape (`TwoNewlinesResyncIff`, `ZeroResyncsIffNormal`);
* a forwarded packet is not escaped again in its addresses (`RelayedIsEncodedIffPlain`);
* `MathExp::parse` never regroups (`LeftToRightIsConventionalIffOrdered`), and behind an unsigned exponent it
  takes an operator for a part of the number or rejects it (`OperationBehindExponent`, `PrintParsesIff`); a sign behind
  spaces at the start of a text or bracket is refused (`LooseIsRefused`), and names cannot hold the letters a and z
  (`OneLetterNameIff`);
* `updateBlock` counts a block that is not there, so that a later update can lengthen the file, a later append leave a
  hole in it and a later note tear it (`UpdatesKeepTheNumberIff`, `ReopenedAsPlainIffFaithful`,
  `NoteAfterUpdateTearsTheFile`);
* a refused write moves the start of the ring (`RefuseLastN`, `AlwaysInStepIffUnharmed`), and 32 bits suffice for at most
  2^31 slots (`NextIsSuccessorIffHalf`); an `open` that fails at the block file leaves a count without values (`Open`);
* a block file that could not be opened stays open in its driver, so that the driver never opens again (`Open`);
* `ContinuousStorage::close` leaves the index open, so that the same object cannot open an indexed storage again
  (`Open`, `LiveFixed`), and `createAsChainedBlocksDb` answers true when it could not create its file;
* `removeSession` needs a metadata file and no index file, and takes the data file before it finds that out (`RemovedIff`,
  `FreshSessionRemovableIff`); the default read id can outlive its session (`ReadStaysSafeIff`, `ReadIdCanDangle`);
* a loaded names file can hold stale names (`LoadIsFullIffNothingStale`), the program writes such files
  (`ReloadIsFullIff`), and a device renamed by hand is still found
  under the empty name it had until a later event settles it (`RunKeepsFullIff`).

## Model

| member | source | states |
|---|---|---|
| StarNetLine.BroadcastIsDelivered | ArduinoIdeLibrary/ARpc/ARpcStarNetDevice.cpp:114-146 | On a line of nodes with distinct valid ids, in every interleaving: once nothing is in flight each node but the sender has processed a broadcast exactly once and relayed it exactly once, the sender never, and the sender has processed each answer of each other node exactly once; nobody has processed anything else |
| StarNetLine.UnicastIsDelivered | ArduinoIdeLibrary/ARpc/ARpcStarNetDevice.cpp:114-146 | A packet for `d` is processed by `d` alone, once; it is relayed by the nodes between sender and `d` and on the sender's other side, not by `d` nor beyond it; the sender processes each answer once; a packet to the sender itself is relayed by all the others and processed by nobody |
| StarNetLine.DiscoveryIsComplete | ArduinoIdeLibrary/ARpc/ARpcRealDeviceMessageDispatch.cpp:174-280 | After an `identify` broadcast falls silent every other node has processed it exactly once and the sender has processed exactly one `deviceinfo` from every other node and no other packet |
| StarNetLine.DiscoveryTeaches | ArduinoIdeLibrary/ARpc/ARpcRealDeviceMessageDispatch.cpp:174-280 | Then the sender has processed, for every other node, exactly one packet whose texts read as the id, the name and, exactly when it is valid, the type of that node, addressed from it to the sender; every packet it has processed is such a one |
| StarNetLine.AllAreDelivered | ArduinoIdeLibrary/ARpc/ARpcStarNetDevice.cpp:114-146 | Any number of packets, put on the line by any nodes at any time while it is at work, broadcast, unicast, reserved, for the sender itself or for nobody on the line: once it is silent every node has processed exactly the sum of what each packet alone would have brought it |
| StarNetLine.EveryRunEnds | ArduinoIdeLibrary/ARpc/ARpcStarNetDevice.cpp:114-146 | Every run from any packets in flight is finite, bounded by a number computed at its start; a line that cannot move is silent |
| StarNetLine.LineFallsSilent | ArduinoIdeLibrary/ARpc/ARpcStarNetDevice.cpp:114-146 | From any packets in flight some run falls silent, so the delivery theorems are about runs that exist |
| StarNetLine.StarNetIsLawful | ArduinoIdeLibrary/ARpc/ARpcStarNetDevice.cpp:114-146 | The decisions and answers of the nodes meet what the generic line theorems ask: answers are not answered, answers are unicasts consumed nowhere but at their addressee |
| StarNetLine.DecideForgets | ArduinoIdeLibrary/ARpc/ARpcStarNetDevice.cpp:114-146 | On a well-formed packet the decision to consume and to forward does not depend on the ids, `catched` and `redirect` left in the callback by the packet before |
| StarNetLine.ReplyPacketsShape | ArduinoIdeLibrary/ARpc/ARpcRealDeviceMessageDispatch.cpp:174-280 | Every answer is addressed to the sender of the packet, comes from the answering node and is itself never answered; other messages get none |
| StarNetLine.RepliesWellFormed | ArduinoIdeLibrary/ARpc/ARpcRealDeviceMessageDispatch.cpp:174-280 | What a node answers to a well-formed packet is well formed again, so it survives every hop |
| StarNetLine.IdentifyAnswer | ArduinoIdeLibrary/ARpc/ARpcRealDeviceMessageDispatch.cpp:181-196 | The answer of a node to the `identify` of another is one packet, the introduction of which `DiscoveryTeaches` says what it tells |
| StarNetWire.BroadcastOverBytes | ArduinoIdeLibrary/ARpc/ARpcStarNetDevice.cpp:55-73 | Broadcast delivery exactly once for every interleaving of single bytes on the links, through parser buffers of any sufficient size |
| StarNetWire.UnicastOverBytes | ArduinoIdeLibrary/ARpc/ARpcStarNetDevice.cpp:55-73 | Unicast delivery exactly once, byte by byte |
| StarNetWire.DiscoveryOverBytes | ArduinoIdeLibrary/ARpc/ARpcStarNetDevice.cpp:55-73 | Discovery, byte by byte: one `deviceinfo` of every other node reaches the sender |
| StarNetWire.DiscoveryTeachesOverBytes | ArduinoIdeLibrary/ARpc/ARpcStarNetDevice.cpp:55-73 | What the sender has learned, byte by byte: id, name and type of every other node from one packet each |
| StarNetWire.AllOverBytes | ArduinoIdeLibrary/ARpc/ARpcStarNetDevice.cpp:55-73 | The same for any number of messages written by any nodes at any time between single bytes |
| StarNetWire.BytesEndSafely | ArduinoIdeLibrary/ARpc/ARpcStreamParser.cpp:53-83 | However bytes are read and any messages written between them, no parser is fed a separator with its 20 argument slots full, and every byte read lowers a measure, so that no run of bytes goes on for ever |
| StarNetWire.BytesFallQuiet | ArduinoIdeLibrary/ARpc/ARpcStarNetDevice.cpp:55-73 | From wherever the messages have brought the links some run of bytes brings every link to rest |
| StarNetWire.DeviceReactsAsModelled | ArduinoIdeLibrary/ARpc/ARpcStarNetDevice.cpp:95-146 | For a well-formed packet the text the device object puts on its two sides is the text of the line model, whatever the callbacks and the dispatcher remember |
| StarNetWire.NeighboursRead | ArduinoIdeLibrary/ARpc/ARpcStarNetDevice.cpp:95-146 | What the parsers of the two neighbours make of a reaction: back come the answers, and on goes the packet behind the answers exactly when it is not for this node alone; answers there are exactly when it is a broadcast or for this node |
| StarNetWire.CallIdIsKept | ArduinoIdeLibrary/ARpc/ARpcStarNetDevice.cpp:95-146 | The call id a node keeps is that of the last call it has processed, also when packets for others have gone through since |
| StarNetWire.SenderIsKept | ArduinoIdeLibrary/ARpc/ARpcStarNetDevice.cpp:114-119 | A packet whose source is in neither form of an id is judged as one from the sender of the packet before |
| StarNetWire.DestinationIsKept | ArduinoIdeLibrary/ARpc/ARpcStarNetDevice.cpp:120-133 | A packet whose destination is in neither form is taken to be for whom the last packet to a device was for |
| StarNetWire.FittingIsSafe | ArduinoIdeLibrary/ARpc/ARpcStarNetDevice.cpp:114-146 | When the packet and its answers fit the buffers, every text on the line decodes to the packet that was meant |
| StarNetWire.NodeAfterNoise | ArduinoIdeLibrary/ARpc/ARpcStarNetDevice.cpp:55-146 | After any noise that it can take and three newlines a node answers and forwards the packets that follow as the line model says, whatever the noise left in its parser, callback and dispatcher |
| StarNetWire.FreshNodeTakesNewlines | ArduinoIdeLibrary/ARpc/ARpcStarNetDevice.cpp:114-119 | A node that knows no sender drops the empty messages of any number of newlines, and nothing of it changes |
| Line.DeliverConserves | ArduinoIdeLibrary/ARpc/ARpcStarNetDevice.cpp:114-146 | For every way to weigh events, one delivery moves weight from the future of the packets in flight to the log and loses none |
| Line.PlayConserves | ArduinoIdeLibrary/ARpc/ARpcStarNetDevice.cpp:114-146 | Packets do not disturb each other: however nodes put packets on the line between its turns, every event is accounted for by one of them |
| Line.RunsEndAndAgree | ArduinoIdeLibrary/ARpc/ARpcStarNetDevice.cpp:114-146 | Runs are no longer than the weight of what is in flight, the runs that cannot go on are the silent ones, and all runs that have fallen silent have logged every event equally often |
| Line.BroadcastRuns | ArduinoIdeLibrary/ARpc/ARpcStarNetDevice.cpp:114-146 | Broadcast on any lawful line: who consumes and who relays how often |
| Line.UnicastRuns | ArduinoIdeLibrary/ARpc/ARpcStarNetDevice.cpp:114-146 | Unicast on any lawful line: consumed once by its addressee, relayed by no node at or beyond it; for nobody on the line or for the sender itself: consumed by none |
| Wire.ReadByteRefines | ArduinoIdeLibrary/ARpc/ARpcStarNetDevice.cpp:55-73 | Reading one byte is one step of the packet network or none |
| Wire.BytesRefine | ArduinoIdeLibrary/ARpc/ARpcStarNetDevice.cpp:55-73 | Every run of bytes is a run of packets |
| Wire.BytesPlayConserves | ArduinoIdeLibrary/ARpc/ARpcStarNetDevice.cpp:55-73 | However single bytes are read and whole messages written between them, every event is accounted for by one of the messages |
| Wire.ReadByteMakesProgress | ArduinoIdeLibrary/ARpc/ARpcStarNetDevice.cpp:55-73 | Each byte lowers the pair (packets to be handled, bytes under way) |
| StarNetNode.ARpcStarNetDevice.ProcessMsg | ArduinoIdeLibrary/ARpc/ARpcStarNetDevice.cpp:114-146 | The callback keeps the ids it could read, and writes on its own side and on the other side exactly the answers and the forwarded text that the decision asks for, answers first |
| StarNetNode.ARpcStarNetDevice.ReadAddresses | ArduinoIdeLibrary/ARpc/ARpcStarNetDevice.cpp:116-133 | A text too short for an id leaves the old one, and without a valid sender a packet, even an empty one, is neither consumed nor forwarded |
| StarNetNode.ARpcStarNetDevice.ProcessMessage | ArduinoIdeLibrary/ARpc/ARpcStarNetDevice.cpp:95-100 | The answers go to both sides under a header addressed to the sender; afterwards the writer broadcasts again |
| StarNetNode.ARpcStarNetDevice.Forward | ArduinoIdeLibrary/ARpc/ARpcStarNetDevice.cpp:136-145 | The forwarded text: the two addresses unescaped, every other field escaped, one newline |
| StarNetNode.ARpcStarNetDevice.WriteDeviceIdentified | ArduinoIdeLibrary/ARpc/ARpcStarNetDevice.cpp:85-93 | The announcement goes to both sides as one well-encoded broadcast |
| StarNetNode.ARpcStarNetDevice.PutByte1 | ArduinoIdeLibrary/ARpc/ARpcStarNetDevice.cpp:55-58 | One byte on the first side: the parser steps, and a completed message is answered and forwarded as decided; the ids and the call id that are kept move as the message says |
| StarNetNode.ARpcStarNetDevice.PutByte2 | ArduinoIdeLibrary/ARpc/ARpcStarNetDevice.cpp:65-68 | The same for the second side, with the sides exchanged |
| StarNetNode.ARpcStarNetDevice.PutData1 | ArduinoIdeLibrary/ARpc/ARpcStarNetDevice.cpp:60-63 | A block of bytes on the first side has the reactions to all its messages, one after the other |
| StarNetNode.ARpcStarNetDevice.PutData2 | ArduinoIdeLibrary/ARpc/ARpcStarNetDevice.cpp:70-73 | The same for the second side |
| StarNetNode.ReactSplit | ArduinoIdeLibrary/ARpc/ARpcStarNetDevice.cpp:114-146 | Messages handled in two parts make a node write and remember what handling them at once does |
| StarNetNode.RelayedIsEncodedIffPlain | ArduinoIdeLibrary/ARpc/ARpcStarNetDevice.cpp:136-145 | A forwarded packet is the encoding of the packet exactly when its two addresses need no escapes |
| StarNetNode.HopIffClean | ArduinoIdeLibrary/ARpc/ARpcStarNetDevice.cpp:114-146 | Over one hop a packet that fits arrives as one message, and what the next callback reads is the packet exactly when no field holds a zero character |
| Dispatch.CallIsAnswered | ArduinoIdeLibrary/ARpc/ARpcRealDeviceMessageDispatch.cpp:174-280 | Every `call` is answered: once when it is malformed or a system command, else as often as the handler writes an `ok` or `err`, and once when it writes none |
| Dispatch.AnswersAreFinal | ArduinoIdeLibrary/ARpc/ARpcRealDeviceMessageDispatch.cpp:48-80 | No answer is a message that makes a device answer |
| DispatchAnswers.IdentifyTells | ArduinoIdeLibrary/ARpc/ARpcRealDeviceMessageDispatch.cpp:181-196 | `identify` is answered with the title, the id, the name and, exactly when there is a valid one, the type, in this order; id and type read back from their texts |
| DispatchAnswers.OtherMessagesTell | ArduinoIdeLibrary/ARpc/ARpcRealDeviceMessageDispatch.cpp:197-215 | `identify_hub` is refused with the call id kept, `sync` is answered with `syncr` |
| DispatchAnswers.EmptyCallIsRefused | ArduinoIdeLibrary/ARpc/ARpcRealDeviceMessageDispatch.cpp:216-223 | A call without an id or a command is refused, with an empty id |
| DispatchAnswers.DescriptionsTell | ArduinoIdeLibrary/ARpc/ARpcRealDeviceMessageDispatch.cpp:224-246 | `#sensors` gives the sensors text, `#controls` the controls text, each empty when there is none, and `#state` the fields of the state, behind the id of the call |
| DispatchAnswers.SetupIsAcceptedIff | ArduinoIdeLibrary/ARpc/ARpcRealDeviceMessageDispatch.cpp:247-264 | `#setup` is accepted exactly with an id that reads as valid and a name behind it |
| DispatchAnswers.OtherSystemCallIsRefused | ArduinoIdeLibrary/ARpc/ARpcRealDeviceMessageDispatch.cpp:265 | Any other command that starts with a hash sign is refused |
| DispatchAnswers.UserCallTells | ArduinoIdeLibrary/ARpc/ARpcRealDeviceMessageDispatch.cpp:267-274 | What the handler of any other command writes goes out in its order, `ok` and `err` with the id of the call, `info` and `meas` without; exactly when it has written no `ok` and no `err` an error with the id follows |
| DispatchAnswers.HubRefusalNamesLastCall | ArduinoIdeLibrary/ARpc/ARpcRealDeviceMessageDispatch.cpp:197-224 | The id in a refusal of `identify_hub` is that of the last call, and none after a malformed call |
| Dispatch.ARpcRealDeviceMessageDispatch.ProcessMessage | ArduinoIdeLibrary/ARpc/ARpcRealDeviceMessageDispatch.cpp:174-280 | Writes exactly the listed answers for the message, and remembers the call id of a call |
| Dispatch.ARpcRealDeviceMessageDispatch.ProcessUserCall | ArduinoIdeLibrary/ARpc/ARpcRealDeviceMessageDispatch.cpp:267-274 | After the handler ran without an answer an error is added, otherwise nothing |
| Dispatch.ARpcRealDeviceMessageDispatch.ProcessSystemCall | ArduinoIdeLibrary/ARpc/ARpcRealDeviceMessageDispatch.cpp:225-266 | Commands with `#` get one answer each |
| Dispatch.ARpcRealDeviceMessageDispatch.WriteAnswer | ArduinoIdeLibrary/ARpc/ARpcRealDeviceMessageDispatch.cpp:48-80 | An `ok` or `err` carries the call id and marks the call as answered |
| StreamCodec.StreamRoundTrip | ArduinoIdeLibrary/ARpc/ARpcStreamParser.cpp:53-139 | Feeding the concatenated output of the writer delivers exactly the messages written, in order, and ends in the initial state |
| StreamCodec.RoundTripIffFits | ArduinoIdeLibrary/ARpc/ARpcStreamParser.cpp:53-83 | One message comes back exactly when its fields with separators are shorter than the buffer |
| StreamCodec.StreamAfterNoise | ArduinoIdeLibrary/ARpc/ARpcStreamParser.cpp:53-139 | After any bytes and three newlines, from any parser state, the messages that follow are delivered in order and last |
| StreamCodec.FeedSplit | ArduinoIdeLibrary/ARpc/ARpcStreamParser.cpp:85-89 | Cutting the input into chunks anywhere changes nothing |
| StreamCodec.HexEscapeStores | ArduinoIdeLibrary/ARpc/ARpcStreamParser.cpp:53-83 | The two lower-case digits of a byte behind `\x` store that byte, the first digit as the high one |
| StreamCodec.HexEscapeIgnoresCase | ArduinoIdeLibrary/ARpc/ARpcStreamParser.cpp:53-83 | The digits of a hexadecimal escape read alike in either case |
| StreamCodec.HexEscapeStoresIff | ArduinoIdeLibrary/ARpc/ARpcStreamParser.cpp:53-83 | A hexadecimal escape stores one character exactly when both its characters are digits, and otherwise leaves the text as it was |
| StreamCodec.EscapeStores | ArduinoIdeLibrary/ARpc/ARpcStreamParser.cpp:123-139 | What each one-character escape stores: newline, zero, or the character itself, and nothing yet for the hexadecimal one |
| StreamCodec.EscapedAsDocumented | ArduinoIdeLibrary/ARpc/ARpcStreamWriter.cpp:122-138 | Which characters the writer escapes and how, and that it leaves all others as they are |
| StreamCodec.PlainEncoding | ArduinoIdeLibrary/ARpc/ARpcStreamWriter.cpp:96-138 | Fields that need no escapes stand on the line as they are, with bars between them and a newline at the end |
| StreamCodec.FeedInBounds | ArduinoIdeLibrary/ARpc/ARpcStreamParser.cpp:53-83 | From any in-bounds state the buffer index stays below the buffer size and every argument offset inside the text, for every input |
| StreamCodec.StreamSlotsIff | ArduinoIdeLibrary/ARpc/ARpcStreamParser.cpp:98-121 | Of messages that fit the buffer, a stream stays within the 20 slots exactly when every message has at most 20 arguments |
| StreamCodec.SlotsSplit | ArduinoIdeLibrary/ARpc/ARpcStreamParser.cpp:98-121 | Enough slots for a text is enough slots for its parts, in both directions |
| StreamCodec.ThreeNewlinesResync | ArduinoIdeLibrary/ARpc/ARpcStreamParser.cpp:53-139 | Three newlines bring every parser state to the initial one |
| StreamCodec.TwoNewlinesResyncIff | ArduinoIdeLibrary/ARpc/ARpcStreamParser.cpp:53-139 | Two newlines do so exactly when the parser is not waiting for the first digit of a hexadecimal escape with text or arguments read before it |
| StreamCodec.TwoNewlinesDoNotResync | ArduinoIdeLibrary/ARpc/ARpcStreamParser.cpp:123-139 | Such a state is reached: an unfinished hexadecimal escape swallows both |
| StreamCodec.ZeroResyncsIffNormal | ArduinoIdeLibrary/ARpc/ARpcStreamParser.cpp:53-96 | A zero byte brings the parser to the initial state exactly when no escape is pending, because the reset keeps the escape state |
| StreamCodec.ViewIsFieldsIffZeroFree | ArduinoIdeLibrary/ARpc/ARpcStreamParser.cpp:98-121 | The C strings at the argument offsets are the fields written exactly when the fields hold no zero characters |
| StreamCodec.PlainNeedsNoEscape | ArduinoIdeLibrary/ARpc/ARpcStreamWriter.cpp:122-138 | A text without special characters is its own escaped form |
| StreamParser.ARpcStreamParser.PutByte | ArduinoIdeLibrary/ARpc/ARpcStreamParser.cpp:53-83 | One byte changes buffer, offsets and state as the parser machine says and delivers what it delivers |
| StreamParser.ARpcStreamParser.PutData | ArduinoIdeLibrary/ARpc/ARpcStreamParser.cpp:85-89 | A block of bytes is the run of its bytes |
| StreamParser.ARpcStreamParser.ParseCharInNormalState | ArduinoIdeLibrary/ARpc/ARpcStreamParser.cpp:98-121 | Newline delivers, the separator opens an argument, the backslash starts an escape, all else is stored |
| StreamParser.ARpcStreamParser.ParseCharInEscapeState | ArduinoIdeLibrary/ARpc/ARpcStreamParser.cpp:123-139 | The five escapes; any other character is stored as it is |
| StreamParser.ARpcStreamParser.Reset | ArduinoIdeLibrary/ARpc/ARpcStreamParser.cpp:91-96 | Buffer and arguments are dropped, the escape state is kept |
| StreamWriter.ARpcStreamWriter.WriteMsg | ArduinoIdeLibrary/ARpc/ARpcStreamWriter.cpp:35-43 | One message: header, title and arguments, encoded once on every side |
| StreamWriter.ARpcStreamWriter.BeginWriteMsg | ArduinoIdeLibrary/ARpc/ARpcStreamWriter.cpp:61-67 | Starts a message behind the header; always succeeds, even with a message under way |
| StreamWriter.ARpcStreamWriter.WriteArg | ArduinoIdeLibrary/ARpc/ARpcStreamWriter.cpp:69-83 | A separator when needed, then the escaped text; a message under way grows by this field |
| StreamWriter.ARpcStreamWriter.WriteArgNoEscape | ArduinoIdeLibrary/ARpc/ARpcStreamWriter.cpp:85-109 | The text as it is; a message under way grows by this field when the text needs no escapes |
| StreamWriter.ARpcStreamWriter.WriteDataEscaped | ArduinoIdeLibrary/ARpc/ARpcStreamWriter.cpp:122-138 | Writes the escaped text character by character |
| StreamWriter.ARpcStreamWriter.ResetStream | ArduinoIdeLibrary/ARpc/ARpcStreamWriter.cpp:28-33 | A zero byte goes out on every side, and the next message starts anew |
| StreamWriter.ARpcStreamWriter.EndWriteMsg | ArduinoIdeLibrary/ARpc/ARpcStreamWriter.cpp:111-116 | Closes the message; what went out since its start is the encoding of its fields |
| StreamWriter.ARpcStreamWriter.WriteData | ArduinoIdeLibrary/ARpc/ARpcStarNetDevice.h:39-43 | Everything written goes to both sides in the same order |
| StreamWriter.ARpcStreamWriter.WriteMsgHeaders | ArduinoIdeLibrary/ARpc/ARpcStarNetStreamWriter.cpp:23-29 | The header is the source id and the destination id or the broadcast name |
| StreamWriter.ARpcStreamWriter.SetDestId | ArduinoIdeLibrary/ARpc/ARpcStarNetStreamWriter.cpp:17-21 | From now on messages are addressed to this id |
| Uuid.HexParses | ArduinoIdeLibrary/ARpc/ARpcUuid.cpp:73-77 | Parsing the plain form restores all 16 bytes, from any old value |
| Uuid.RfcParses | ArduinoIdeLibrary/ARpc/ARpcUuid.cpp:60-71 | Parsing the braced form restores all 16 bytes, from any old value |
| Uuid.RfcTiles | ArduinoIdeLibrary/ARpc/ARpcUuid.cpp:60-71 | The five groups of the braced form (section 3 of RFC 4122) tile the 32 digits of the plain form |
| Uuid.ParsePrints | ArduinoIdeLibrary/ARpc/ARpcUuid.cpp:45-51 | An accepted text prints back up to letter case; a text of a full form with a bad digit gives the all-zero id |
| Uuid.DigitRoundTrip | ArduinoIdeLibrary/ARpc/ARpcUuid.h:37-59 | Every hexadecimal digit is read back as its value |
| Uuid.DigitsByValue | ArduinoIdeLibrary/ARpc/ARpcUuid.h:37-59 | The digits by their values |
| Uuid.HexLayout | ArduinoIdeLibrary/ARpc/ARpcUuid.cpp:73-77 | Two digits for each byte, the high one first, in the order of the bytes |
| Uuid.RfcLayout | ArduinoIdeLibrary/ARpc/ARpcUuid.cpp:60-71 | The braced form: groups of 8, 4, 4, 4 and 12 of the digits of the plain form |
| Uuid.OtherTextKeepsId | ArduinoIdeLibrary/ARpc/ARpcUuid.cpp:45-51 | A text of neither form leaves the id as it was |
| FileFormats.ValidIffNotNull | ArduinoIdeLibrary/ARpc/ARpcUuid.cpp:53-58 | The one id that is not valid is that of sixteen zeros |
| Uuid.FiveWrites | ArduinoIdeLibrary/ARpc/ARpcUuid.cpp:95-103 | The five groups overwrite every byte of the old value |
| Uuid.ArpcUuid.ToHex | ArduinoIdeLibrary/ARpc/ARpcUuid.cpp:73-77 | The buffer holds the plain form and a zero |
| Uuid.ArpcUuid.ToString | ArduinoIdeLibrary/ARpc/ARpcUuid.cpp:60-71 | The buffer holds the braced form and a zero |
| Uuid.ArpcUuid.WriteHexPart | ArduinoIdeLibrary/ARpc/ARpcUuid.cpp:129-138 | Two digits a byte, and no other character of the buffer touched |
| Uuid.ArpcUuid.ParseHexPart | ArduinoIdeLibrary/ARpc/ARpcUuid.cpp:112-127 | The bytes of the part, or the all-zero id at the first bad digit |
| Uuid.ArpcUuid.ParseRfc | ArduinoIdeLibrary/ARpc/ARpcUuid.cpp:95-103 | A text of another shape leaves the old value; a bad digit gives the all-zero id |
| Uuid.ArpcUuid.ParseHex | ArduinoIdeLibrary/ARpc/ARpcUuid.cpp:105-110 | A text of another length leaves the old value; a bad digit gives the all-zero id |
| Uuid.ArpcUuid.ParseText | ArduinoIdeLibrary/ARpc/ARpcUuid.cpp:45-51 | Which form is tried is decided by the first character; short texts leave the old value |
| Uuid.ArpcUuid.Equals | ArduinoIdeLibrary/ARpc/ARpcUuid.cpp:79-82 | True exactly when all bytes are the same |
| Uuid.ArpcUuid.IsValidId | ArduinoIdeLibrary/ARpc/ARpcUuid.cpp:53-58 | Valid means some byte is not zero |
| MathExp.RegroupGivesConventionalValue | wliotproxy-src-base/libVDIL-core-blocks/src/MathExp.cpp:88-148 | After regrouping, calculating from left to right gives the conventional value (`*` and `/` before `+` and `-`, left associative) of the original tree, over arbitrary total operations |
| MathExp.RegroupKeepsOrder | wliotproxy-src-base/libVDIL-core-blocks/src/MathExp.cpp:88-138 | Operands and operators stay in their order; only brackets are added |
| MathExp.RegroupTwiceIsOnce | wliotproxy-src-base/libVDIL-core-blocks/src/MathExp.cpp:88-138 | A second run changes nothing |
| MathExp.RegroupShaped | wliotproxy-src-base/libVDIL-core-blocks/src/MathExp.cpp:88-138 | At every level there stays one operand more than operations |
| MathSubExp.MathSubExp.CheckOpsForPriorities | wliotproxy-src-base/libVDIL-core-blocks/src/MathExp.cpp:88-138 | The removals and insertions in the two lists leave exactly the regrouped tree |
| MathSubExp.MathSubExp.GroupProducts | wliotproxy-src-base/libVDIL-core-blocks/src/MathExp.cpp:111-137 | The loop replaces every product between sums by one operand |
| MathSubExp.MathSubExp.CloseProduct | wliotproxy-src-base/libVDIL-core-blocks/src/MathExp.cpp:116-137 | Taking one product out and putting it back leaves what remains to be grouped the same |
| MathSubExp.MathSubExp.Calc | wliotproxy-src-base/libVDIL-core-blocks/src/MathExp.cpp:140-148 | The loop over the operations is the left-to-right value |
| MathSubExp.LeftToRightIsConventionalIffOrdered | wliotproxy-src-base/libVDIL-core-blocks/src/MathExp.cpp:82-86 | `parse` does not regroup: in the free algebra the tree it leaves has its conventional value exactly when no `*` or `/` follows a `+` or `-` on one level |
| MathSubExp.OrderedNeedsNoRegrouping | wliotproxy-src-base/libVDIL-core-blocks/src/MathExp.cpp:140-148 | Such a tree has its conventional value in every algebra |
| MathExpPrinting.PrintParses | wliotproxy-src-base/libVDIL-core-blocks/src/MathExp.cpp:167-369 | Printing any nested expression of literals, declared names, the four operators and brackets in which a literal with an unsigned exponent stands last on its level, and parsing the text, rebuilds the same tree |
| MathExpPrinting.PrintParsesIff | wliotproxy-src-base/libVDIL-core-blocks/src/MathExp.cpp:167-369 | And for any other order of its operands the tree is not rebuilt: the round trip holds exactly when such literals stand last on every level |
| MathExpPrinting.ParsedAndRegroupedValue | wliotproxy-src-base/libVDIL-core-blocks/src/MathExp.cpp:88-215 | Printing, parsing, regrouping and calculating gives the conventional value |
| MathExpPrinting.OperationBehindExponent | wliotproxy-src-base/libVDIL-core-blocks/src/MathExp.cpp:305-348 | On any level of any text, behind any mantissa and unsigned exponent: `*` and `/` are rejected, `+` is dropped, `-` goes into the number, and the digits that follow belong to the exponent |
| MathExpPrinting.ExponentSwallowsPlus | wliotproxy-src-base/libVDIL-core-blocks/src/MathExp.cpp:305-348 | The text of a sum whose first operand has an unsigned exponent is read as one number, or not at all |
| MathExpPrinting.ExponentLosesPlus | wliotproxy-src-base/libVDIL-core-blocks/src/MathExp.cpp:305-348 | The plus sign of an exponent is lost from the number |
| MathExpPrinting.UnsignedForm | wliotproxy-src-base/libVDIL-core-blocks/src/MathExp.cpp:305-348 | A mantissa, an `e` and digits end in the state of an unsigned exponent |
| MathExpPrinting.FormOfUnsigned | wliotproxy-src-base/libVDIL-core-blocks/src/MathExp.cpp:305-348 | And no other literal does |
| MathExpParser.ParsedShaped | wliotproxy-src-base/libVDIL-core-blocks/src/MathExp.cpp:167-215 | Every accepted text without function calls gives one operand more than operations at every level; parsing always ends |
| MathExpLanguage.AcceptedIffPrinted | wliotproxy-src-base/libVDIL-core-blocks/src/MathExp.cpp:167-369 | Of texts without spaces, leading signs and a plus behind an exponent the parser accepts exactly those that print some expression of declared names and accepted literals, and gives this expression |
| MathExpTidy.AcceptedIffTidyPrinted | wliotproxy-src-base/libVDIL-core-blocks/src/MathExp.cpp:167-369 | The whole language: a text is accepted with a tree exactly when no sign begins the text or a bracket behind spaces, and what is left without the spaces, with 0.0 in front of every sign that begins the text or a bracket, prints that tree; only texts with a plus behind an exponent are left out |
| MathExpTidy.TidyParses | wliotproxy-src-base/libVDIL-core-blocks/src/MathExp.cpp:167-369 | Spaces mean nothing and a sign at the start means an operation on 0.0, at every level: such a text is parsed as the text without them; a text of spaces alone is refused |
| MathExpTidy.LooseIsRefused | wliotproxy-src-base/libVDIL-core-blocks/src/MathExp.cpp:167-180 | A text in which a sign begins the text or a bracket behind spaces is refused |
| MathExpTidy.SignedParses | wliotproxy-src-base/libVDIL-core-blocks/src/MathExp.cpp:170-180 | A sign before a printed expression: 0.0, and a subtraction for minus or an addition for plus, in front of its tree |
| MathExpTidy.SignedInBracket | wliotproxy-src-base/libVDIL-core-blocks/src/MathExp.cpp:170-180 | The same for a sign behind an opening bracket |
| MathExpArithmetic.TwoOperands | wliotproxy-src-base/libVDIL-core-blocks/src/MathExp.cpp:411-427 | Over the real numbers the texts with the four operator characters between two names or literals have the sum, difference, product and quotient as their values |
| MathExpArithmetic.ThreeOperands | wliotproxy-src-base/libVDIL-core-blocks/src/MathExp.cpp:88-165 | The conventional value of which the regrouping theorems speak: of three operands products first, else from the left |
| MathExpArithmetic.OneLetterNameIff | wliotproxy-src-base/libVDIL-core-blocks/src/MathExp.cpp:405-409 | A declared name of one letter can be used exactly when the letter stands strictly between a and z in either case |
| MathExpArithmetic.TrailingIsSkippedIff | wliotproxy-src-base/libVDIL-core-blocks/src/MathExp.cpp:167-369 | Which characters behind a name leave it as it is: the blank, the five ASCII spaces and the zero that ends a text, and no others |
| MathExpLanguage.PrintIsInjective | wliotproxy-src-base/libVDIL-core-blocks/src/MathExp.cpp:167-369 | No two expressions print the same text |
| MathExpParser.MathSubExpParser.Parse | wliotproxy-src-base/libVDIL-core-blocks/src/MathExp.cpp:167-215 | The character loop with its fields gives what the recursive description gives, and the same failure |
| MathExpParser.MathSubExpParser.ParseCharWaitOperand | wliotproxy-src-base/libVDIL-core-blocks/src/MathExp.cpp:217-249 | Digit, letter or bracketed group; a group is parsed by a parser of its own |
| MathExpParser.MathSubExpParser.ParseCharReadVarOrFunctionName | wliotproxy-src-base/libVDIL-core-blocks/src/MathExp.cpp:261-303 | A name ends at an operator or the end and must be declared |
| MathExpParser.MathSubExpParser.ParseCharReadNum | wliotproxy-src-base/libVDIL-core-blocks/src/MathExp.cpp:305-348 | A literal ends at an operator or the end and must be a number; the exponent states as they are |
| MathExpParser.MathSubExpParser.FindBracketsContent | wliotproxy-src-base/libVDIL-core-blocks/src/MathExp.cpp:350-369 | Finds the bracket that closes the level, or fails |
| FixedBlocks.ReopenKeepsWhatIsOnDisk | wliotproxy-src-base/libwliotproxyd/src/DBDriverFixedBlocks.cpp:229-257 | Reopening a file restores note sizes and every block whose bytes are there, drops what the counter ran ahead, and refuses the file exactly when it ends inside a block |
| FixedBlocks.RunWithoutUpdatesIsComplete | wliotproxy-src-base/libwliotproxyd/src/DBDriverFixedBlocks.cpp:138-227 | After any run of block and note writes without `updateBlock` the file is complete, so reopening restores all blocks and the count |
| FixedBlocks.WriteAfterUpdateLeavesAHole | wliotproxy-src-base/libwliotproxyd/src/DBDriverFixedBlocks.cpp:153-167 | A `writeBlock` behind an `updateBlock` leaves a block of zeros between |
| FixedBlocks.NoteAfterUpdateTearsTheFile | wliotproxy-src-base/libwliotproxyd/src/DBDriverFixedBlocks.cpp:208-227 | A note written behind an `updateBlock` leaves a file that cannot be reopened exactly when the note does not end the block |
| FixedBlocks.HeaderRoundTrip | wliotproxy-src-base/libwliotproxyd/src/DBDriverFixedBlocks.cpp:259-278 | A written header is read back with its note sizes, whatever follows it |
| FileFormats.BlockFileHeader | wliotproxy-src-base/libwliotproxyd/src/DBDriverFixedBlocks.cpp:259-278 | The header byte by byte: the eight letters, the number of notes, their sizes and the hash of all that, numbers in four bytes, the lowest first |
| FixedBlocks.ParsedHeaderIsHeader | wliotproxy-src-base/libwliotproxyd/src/DBDriverFixedBlocks.cpp:229-257 | Only a file that starts with the header of some note sizes, hash included, is accepted |
| FixedBlocks.NotesTileTheBlock | wliotproxy-src-base/libwliotproxyd/src/DBDriverFixedBlocks.cpp:280-288 | The notes laid end to end are the block; offsets are the sums of the sizes before |
| FixedBlocks.NotesAreIndependent | wliotproxy-src-base/libwliotproxyd/src/DBDriverFixedBlocks.cpp:208-227 | Rewriting one note replaces it and leaves every other note alone |
| FixedBlocksRuns.UpdatesAreOnDisk | wliotproxy-src-base/libwliotproxyd/src/DBDriverFixedBlocks.cpp:153-167 | After any run of `updateBlock`, of any indexes and lengths, every update taken is on disk, those behind the last block with zero blocks between |
| FixedBlocksRuns.UpdatesKeepTheNumberIff | wliotproxy-src-base/libwliotproxyd/src/DBDriverFixedBlocks.cpp:153-167 | Reopening then finds as many blocks as before or as many as the largest index taken asks for; the number is kept exactly when every index taken is below it |
| FixedBlocksRuns.UpdateBehindTheLast | wliotproxy-src-base/libwliotproxyd/src/DBDriverFixedBlocks.cpp:153-167 | After one update the driver takes an update of the block behind the last one, and the file grows |
| FixedBlocksRuns.ReopenedAsPlainIffFaithful | wliotproxy-src-base/libwliotproxyd/src/DBDriverFixedBlocks.cpp:138-257 | Over every mixed run on a complete file: reopening gives the blocks that the calls should give exactly when, once an update has been taken, no block is appended, no byte of a note written and no block behind the last one updated |
| FixedBlocks.DBDriverFixedBlocks.Create | wliotproxy-src-base/libwliotproxyd/src/DBDriverFixedBlocks.cpp:38-54 | Fails on an existing file or without notes, else makes an empty file of blocks |
| FixedBlocks.DBDriverFixedBlocks.Open | wliotproxy-src-base/libwliotproxyd/src/DBDriverFixedBlocks.cpp:56-64 | Accepts exactly the files with an intact header and whole blocks, and takes their blocks; a failed call leaves the file open, so that no later one on the object succeeds |
| FixedBlocks.DBDriverFixedBlocks.ReadBlock | wliotproxy-src-base/libwliotproxyd/src/DBDriverFixedBlocks.cpp:102-117 | Succeeds exactly when the block is counted and its bytes are in the file, and gives the block |
| FixedBlocks.DBDriverFixedBlocks.ReadNote | wliotproxy-src-base/libwliotproxyd/src/DBDriverFixedBlocks.cpp:119-136 | Gives the note's slice of the block that `readBlock` gives |
| FixedBlocks.DBDriverFixedBlocks.WriteBlock | wliotproxy-src-base/libwliotproxyd/src/DBDriverFixedBlocks.cpp:138-151 | Appends behind all counted blocks; a wrong length is refused |
| FixedBlocks.DBDriverFixedBlocks.UpdateBlock | wliotproxy-src-base/libwliotproxyd/src/DBDriverFixedBlocks.cpp:153-167 | Replaces the block, and counts one block more |
| FixedBlocks.DBDriverFixedBlocks.AddBlock | wliotproxy-src-base/libwliotproxyd/src/DBDriverFixedBlocks.cpp:169-184 | Appends a block of zeros |
| FixedBlocks.DBDriverFixedBlocks.AddManyBlocks | wliotproxy-src-base/libwliotproxyd/src/DBDriverFixedBlocks.cpp:186-192 | Appends blocks of zeros by resizing |
| FixedBlocks.DBDriverFixedBlocks.AddManyBlocksOf | wliotproxy-src-base/libwliotproxyd/src/DBDriverFixedBlocks.cpp:194-206 | Appends copies of one block |
| FixedBlocks.DBDriverFixedBlocks.WriteNote | wliotproxy-src-base/libwliotproxyd/src/DBDriverFixedBlocks.cpp:208-227 | Writes into the last counted block |
| FixedBlocks.DBDriverFixedBlocks.ReadHeader | wliotproxy-src-base/libwliotproxyd/src/DBDriverFixedBlocks.cpp:229-257 | Reads sizes, offsets, hash and count, and accepts what `Open` should |
| FixedBlocks.DBDriverFixedBlocks.WriteHeader | wliotproxy-src-base/libwliotproxyd/src/DBDriverFixedBlocks.cpp:259-278 | Writes the header of the note sizes into an empty file |
| FixedBlocks.DBDriverFixedBlocks.CalcHeaderSizeAndOffsets | wliotproxy-src-base/libwliotproxyd/src/DBDriverFixedBlocks.cpp:280-288 | Each offset is the sum of the sizes before it |
| Blocks.PatchedIsRepresented | wliotproxy-src-base/libwliotproxyd/src/DBDriverFixedBlocks.cpp:159-167 | Writing at a block offset of a file whose missing tail counts as zeros changes that part of that block only |
| Blocks.AppendedIsRepresented | wliotproxy-src-base/libwliotproxyd/src/DBDriverFixedBlocks.cpp:144-151 | Writing behind the counted blocks completes the file |
| Blocks.ReopenedBody | wliotproxy-src-base/libwliotproxyd/src/DBDriverFixedBlocks.cpp:253-256 | A body is whole exactly when the missing tail is whole blocks, and is then cut into the blocks in front of it |
| ChainedBlocks.ScanIffHolds | wliotproxy-src-base/libwliotproxyd/src/DBDriverChainedBlocks.cpp:109-126 | The scan of a file finds a chain exactly when the file is that chain; a length that points behind the end is taken as it is |
| ChainedBlocks.WrittenChainIsScanned | wliotproxy-src-base/libwliotproxyd/src/DBDriverChainedBlocks.cpp:76-126 | Payloads written one after the other, empty ones included, are found again by the scan, in order |
| ChainedBlocks.PayloadAt | wliotproxy-src-base/libwliotproxyd/src/DBDriverChainedBlocks.cpp:94-107 | Payload `i` lies at its offset; only the last one of a truncated file cannot be read |
| FileFormats.ChainedFileLayout | wliotproxy-src-base/libwliotproxyd/src/DBDriverChainedBlocks.cpp:76-92 | Each block is its length in four bytes and its bytes |
| FileFormats.ChainedFileStarts | wliotproxy-src-base/libwliotproxyd/src/DBDriverChainedBlocks.cpp:76-92 | The first block starts behind the eight letters, every other one at once behind the block before it, and the last one ends the file |
| FileFormats.ChainedFileName | wliotproxy-src-base/libwliotproxyd/src/DBDriverChainedBlocks.cpp:28-39 | The eight letters a chained file starts with |
| ChainedBlocks.DBDriverChainedBlocks.WriteBlock | wliotproxy-src-base/libwliotproxyd/src/DBDriverChainedBlocks.cpp:76-92 | Appends length and payload; the offsets and sizes kept are those a scan would find |
| ChainedBlocks.DBDriverChainedBlocks.ReadBlock | wliotproxy-src-base/libwliotproxyd/src/DBDriverChainedBlocks.cpp:94-107 | Gives the payload of that number |
| ChainedBlocks.DBDriverChainedBlocks.Open | wliotproxy-src-base/libwliotproxyd/src/DBDriverChainedBlocks.cpp:41-49 | Accepts exactly the files the scan accepts; a failed call leaves the file open, so that no later one on the object succeeds |
| ChainedBlocks.DBDriverChainedBlocks.Create | wliotproxy-src-base/libwliotproxyd/src/DBDriverChainedBlocks.cpp:28-39 | Fails on an existing file, else makes an empty chain |
| ChainedBlocks.DBDriverChainedBlocks.ReadHeaderAndBlockOffsets | wliotproxy-src-base/libwliotproxyd/src/DBDriverChainedBlocks.cpp:109-126 | The loop finds offsets, sizes and total length of the chain in the file |
| GTimeIndex.BesideIsNeighbour | wliotproxy-src-base/libwliotproxyd/src/DBDriverGTimeIndex.cpp:71-87 | In times that never decrease the place where the halving stops without a hit is (entries below) - 1, kept inside 0..n-2, and the time does not occur |
| GTimeIndex.CountBelowIsFirst | wliotproxy-src-base/libwliotproxyd/src/DBDriverGTimeIndex.cpp:71-87 | The number of entries below is the position of the first entry that is not below |
| GTimeIndex.IndexSurvivesReopening | wliotproxy-src-base/libwliotproxyd/src/DBDriverGTimeIndex.cpp:39-44 | A file of entries is opened with the entries that were appended |
| GTimeIndex.EntryRoundTrip | wliotproxy-src-base/libwliotproxyd/src/DBDriverGTimeIndex.cpp:61-69 | Time and block number are read back from an entry |
| FileFormats.EightBytes | wliotproxy-src-base/libwliotproxyd/src/DBDriverGTimeIndex.cpp:60-68 | A 64-bit number: its lower half first, each half with its lowest byte first |
| FileFormats.SignIsLast | wliotproxy-src-base/libwliotproxyd/src/DBDriverGTimeIndex.cpp:60-68 | A time: the sign is the top bit of its last byte |
| GTimeIndex.AppendSteps | wliotproxy-src-base/libwliotproxyd/src/DBDriverGTimeIndex.cpp:61-69 | A zero block with the two notes written into it is the entry, appended |
| GTimeIndex.DBDriverGTimeIndex.FindIndex | wliotproxy-src-base/libwliotproxyd/src/DBDriverGTimeIndex.cpp:71-87 | With one entry its block number; with more a position that holds the time whenever it occurs, else its lower neighbour; for unsorted times still a position, and the interval shrinks strictly |
| GTimeIndex.DBDriverGTimeIndex.Append | wliotproxy-src-base/libwliotproxyd/src/DBDriverGTimeIndex.cpp:61-69 | One entry more in the file and in both vectors |
| GTimeIndex.DBDriverGTimeIndex.Open | wliotproxy-src-base/libwliotproxyd/src/DBDriverGTimeIndex.cpp:39-44 | The vectors become the entries in the file; a call after a failed one fails |
| GTimeIndex.DBDriverGTimeIndex.LoadIndex | wliotproxy-src-base/libwliotproxyd/src/DBDriverGTimeIndex.cpp:89-102 | Reads every block's two notes into the vectors |
| ContinuousStorage.RunIsIndexed | wliotproxy-src-base/libwliotproxyd/src/ContinuousStorage.cpp:48-85 | After any run of writes the records and their times stand behind what was stored, in order, and entry `i` of the index names record `i` |
| ContinuousStorage.FreshObjectSeesTheSame | wliotproxy-src-base/libwliotproxyd/src/ContinuousStorage.cpp:185-212 | What an open storage holds is exactly what its settings and files will give a fresh object |
| ContinuousStorageRuns.LiveFixed | wliotproxy-src-base/libwliotproxyd/src/ContinuousStorage.cpp:48-212 | The whole life of a fixed-block storage from `createAsFixedBlocksDb` on, over any run of writes, closing, opening, fresh objects and further attempts to create: whenever it is open it holds exactly the values taken, in order, and entry `i` of its index the time of value `i` and the number `i`; values written while it is closed and values refused leave no trace, and an object that has closed an indexed storage cannot open it again |
| ContinuousStorageRuns.LiveChained | wliotproxy-src-base/libwliotproxyd/src/ContinuousStorage.cpp:48-212 | The same for a chained-block storage, whose creation answers true even over an existing file |
| ContinuousStorageRuns.Play | wliotproxy-src-base/libwliotproxyd/src/ContinuousStorage.cpp:48-212 | The same from any state of the object, open, closed or unable to open |
| ContinuousStorageRuns.LifeHoldsAllTaken | wliotproxy-src-base/libwliotproxyd/src/ContinuousStorage.cpp:48-85 | What a run of events leaves stored is the list of the values taken while open, with their times and numbers in the index |
| ContinuousStorageRuns.ReadOne | wliotproxy-src-base/libwliotproxyd/src/ContinuousStorage.cpp:149-159 | From any state of any life: the answer is what the record at that number unpacks to, nothing when the storage is closed or holds no such record; in a chained file the low 32 bits of the number count, in a block file the whole number |
| ContinuousStorageRuns.LiveFixedAndRead | wliotproxy-src-base/libwliotproxyd/src/ContinuousStorage.cpp:87-212 | Created, lived through any events and asked: value `index` is the one taken as number `index`, unpacked, for every number, those of 2^32 and more too |
| ContinuousStorageRuns.LiveChainedAndRead | wliotproxy-src-base/libwliotproxyd/src/ContinuousStorage.cpp:108-212 | The same for a chained storage, for numbers below 2^32 |
| ContinuousStorageRuns.ReadAtTime | wliotproxy-src-base/libwliotproxyd/src/ContinuousStorage.cpp:149-171 | The place that the index gives for a time and the value read there: with times in order a value of that time |
| ContinuousStorage.ContinuousStorage.WriteSensorValue | wliotproxy-src-base/libwliotproxyd/src/ContinuousStorage.cpp:48-85 | One record more, with its index entry, and one announcement; a refused value changes nothing |
| ContinuousStorage.ContinuousStorage.Open | wliotproxy-src-base/libwliotproxyd/src/ContinuousStorage.cpp:185-212 | Takes what is on disk; fails when already open, when a failed call has left a file open, and for an indexed storage whose index driver was left open |
| ContinuousStorage.ContinuousStorage.Close | wliotproxy-src-base/libwliotproxyd/src/ContinuousStorage.cpp:128-137 | Closes the data driver and leaves the index driver as it is |
| ContinuousStorage.ContinuousStorage.CreateAsFixedBlocksDb | wliotproxy-src-base/libwliotproxyd/src/ContinuousStorage.cpp:87-106 | When it succeeds and when not; starts empty |
| ContinuousStorage.ContinuousStorage.CreateAsChainedBlocksDb | wliotproxy-src-base/libwliotproxyd/src/ContinuousStorage.cpp:108-126 | Answers true without opening when the data file cannot be created |
| ContinuousStorage.ContinuousStorage.FindInGTIndex | wliotproxy-src-base/libwliotproxyd/src/ContinuousStorage.cpp:166-171 | The answer is the number of a stored value, the one with that time if there is one |
| ContinuousStorage.ContinuousStorage.ValueAt | wliotproxy-src-base/libwliotproxyd/src/ContinuousStorage.cpp:149-159 | The value packed under that number; in a chained file under its low 32 bits |
| ContinuousStorage.ContinuousStorage.ValuesCount | wliotproxy-src-base/libwliotproxyd/src/ContinuousStorage.cpp:139-147 | The number of records, 0 when closed |
| LastNValues.WindowIsTheLastN | wliotproxy-src-base/libwliotproxyd/src/LastNValuesInMemoryStorage.cpp:80-95 | After any run of writes the window is the end of all values ever put there |
| LastNValues.WriteOldestIsPush | wliotproxy-src-base/libwliotproxyd/src/LastNValuesStorage.cpp:91-133 | Writing the oldest slot of the ring and moving the start on is a push into the window |
| LastNValues.SkipKeepsWindowIffAllEqual | wliotproxy-src-base/libwliotproxyd/src/LastNValuesStorage.cpp:121-127 | A start moved on without a write shows the same window exactly when all slots are equal |
| LastNValues.NextIsSuccessorIffHalf | wliotproxy-src-base/libwliotproxyd/src/LastNValuesStorage.cpp:104-107 | In 32-bit arithmetic the start moves to the next slot from every slot exactly when there are at most 2^31 slots |
| LastNValues.FreshObjectSeesSameWindow | wliotproxy-src-base/libwliotproxyd/src/LastNValuesStorage.cpp:147-175 | The window of an open storage is what a fresh object reads from its directory |
| LastNValuesRuns.LiveLastN | wliotproxy-src-base/libwliotproxyd/src/LastNValuesStorage.cpp:40-185 | The whole life of a storage from `create` on, over any run of writes, closing, opening, fresh objects and further attempts to create: ring and copy are those of the run, refused values included; and while every refused value finds a window of equal values, copy and ring are the last N of the templates and all values taken |
| LastNValuesRuns.PlayLastN | wliotproxy-src-base/libwliotproxyd/src/LastNValuesStorage.cpp:40-185 | The same from any state of the object, open or closed, in step or not |
| LastNValuesRuns.AlwaysInStepIffUnharmed | wliotproxy-src-base/libwliotproxyd/src/LastNValuesStorage.cpp:91-185 | Over every run copy and ring agree after every event exactly when every refused value finds a window of equal values |
| LastNValuesRuns.ShelfShowsTheLastN | wliotproxy-src-base/libwliotproxyd/src/LastNValuesStorage.cpp:91-133 | The window after a run of events is that of the values taken while open |
| LastNValuesRuns.RefuseLastN | wliotproxy-src-base/libwliotproxyd/src/LastNValuesStorage.cpp:121-127 | On the object: after one refused value copy and ring agree exactly when the values shown are all equal |
| LastNValuesRuns.LiveInMemory | wliotproxy-src-base/libwliotproxyd/src/LastNValuesInMemoryStorage.cpp:35-95 | The storage in memory from `create` on shows the last N of the templates and all values of its type |
| LastNValuesRuns.LiveBoth | wliotproxy-src-base/libwliotproxyd/src/LastNValuesStorage.cpp:40-140 | Two storages created alike, one on disk and one in memory, answer alike at every index below 2^32 after the same values of their type |
| LastNValues.LastNValuesStorage.WriteSensorValue | wliotproxy-src-base/libwliotproxyd/src/LastNValuesStorage.cpp:91-133 | The value goes into the oldest slot and to the end of the copy; the announced value, read back from the ring, is the one written; a block of wrong length is refused but moves the start |
| LastNValues.LastNValuesStorage.RefusedWriteKeepsMirrorIffAllEqual | wliotproxy-src-base/libwliotproxyd/src/LastNValuesStorage.cpp:121-127 | After such a refusal copy and ring agree exactly when all slots are equal |
| LastNValues.LastNValuesStorage.Create | wliotproxy-src-base/libwliotproxyd/src/LastNValuesStorage.cpp:40-83 | The window starts as copies of the template in a ring of files or of blocks with the note sizes of the type, with the start at slot 0; an existing index file leaves the object as it was, any later failure leaves it open, with a closed driver when the block file existed |
| LastNValues.LastNValuesStorage.Open | wliotproxy-src-base/libwliotproxyd/src/LastNValuesStorage.cpp:147-175 | The copy becomes the ring on disk read from its start; succeeds exactly when index, settings and block file can be read, and a failure behind the settings leaves a count without values |
| LastNValues.LastNValuesStorage.ReadValueData | wliotproxy-src-base/libwliotproxyd/src/LastNValuesStorage.cpp:192-210 | Value `i` lies in slot (start + i) mod N |
| LastNValues.LastNValuesStorage.ValueAt | wliotproxy-src-base/libwliotproxyd/src/LastNValuesStorage.cpp:135-140 | The window by index, the index cut to 32 bits |
| LastNValues.LastNValuesStorage.Close | wliotproxy-src-base/libwliotproxyd/src/LastNValuesStorage.cpp:177-185 | Everything in memory is dropped, whether opened or not |
| LastNValues.LastNValuesInMemoryStorage.WriteSensorValue | wliotproxy-src-base/libwliotproxyd/src/LastNValuesInMemoryStorage.cpp:80-95 | A push into the window and one announcement |
| LastNValues.LastNValuesInMemoryStorage.Open | wliotproxy-src-base/libwliotproxyd/src/LastNValuesInMemoryStorage.cpp:50-60 | The window starts again with the template |
| LastNValues.LastNValuesInMemoryStorage.ValueAt | wliotproxy-src-base/libwliotproxyd/src/LastNValuesInMemoryStorage.cpp:72-78 | The window by index |
| SessionStorage.RunIsAccounted | wliotproxy-src-base/libwliotproxyd/src/SessionStorage.cpp:145-177 | In every reachable state the live drivers are exactly one pair for each open session and one for the main write session, all different |
| SessionStorage.CloseReleasesAll | wliotproxy-src-base/libwliotproxyd/src/SessionStorage.cpp:145-158 | Closing leaves no driver alive |
| SessionStorage.StepIsAccounted | wliotproxy-src-base/libwliotproxyd/src/SessionStorage.cpp:251-386 | Every operation keeps the accounts, failures included |
| SessionStorage.RemovedIff | wliotproxy-src-base/libwliotproxyd/src/SessionStorage.cpp:367-386 | A session is removed exactly when it is not open and its directory holds data, metadata and title and no index file |
| SessionStorage.FreshSessionRemovableIff | wliotproxy-src-base/libwliotproxyd/src/SessionStorage.cpp:367-386 | A session made, opened and closed can be removed exactly when an attribute was set and there is no time index; in any case it cannot be opened afterwards |
| SessionStorage.ReadStaysSafeIff | wliotproxy-src-base/libwliotproxyd/src/SessionStorage.cpp:468-488 | An operation leaves the default read id on an open session exactly when it is not a close of the main write session that alone holds it, nor a reopening with an id left over |
| SessionStorage.ReadIdCanDangle | wliotproxy-src-base/libwliotproxyd/src/SessionStorage.cpp:563-576 | A run of three calls after which the default read id names no open session |
| SessionStorageEffects.AttributeIsSet | wliotproxy-src-base/libwliotproxyd/src/SessionStorage.cpp:388-404 | An attribute can be set exactly on an open session; then that key has that value and every other attribute of every session the value it had |
| SessionStorageEffects.AttributeTouchesNothingElse | wliotproxy-src-base/libwliotproxyd/src/SessionStorage.cpp:388-404 | Setting one leaves files, other sessions and what is open as they were |
| SessionStorageEffects.AttributeIsKept | wliotproxy-src-base/libwliotproxyd/src/SessionStorage.cpp:205-404 | Over every run: the value set last is the value read, unless the session itself was to be removed |
| SessionStorageEffects.OpenAfter | wliotproxy-src-base/libwliotproxyd/src/SessionStorage.cpp:251-386 | A session is open after an operation exactly when the operation has opened it, or it was open and the operation does not give up its last hold |
| SessionStorageEffects.OpensIff | wliotproxy-src-base/libwliotproxyd/src/SessionStorage.cpp:251-342 | When a session can be opened: it is open, or its files are there and accepted; as the main write session only while there is none |
| SessionStorageEffects.RefusedOpeningLeaves | wliotproxy-src-base/libwliotproxyd/src/SessionStorage.cpp:251-342 | A refused opening leaves an index file or a data file behind that is not accepted, and changes nothing else |
| SessionStorageEffects.OtherAnswers | wliotproxy-src-base/libwliotproxyd/src/SessionStorage.cpp:129-158 | What the operations answer that cannot fail, and what a closed storage refuses |
| SessionStorageEffects.CreatedIsUsable | wliotproxy-src-base/libwliotproxyd/src/SessionStorage.cpp:205-249 | When a session can be created, and that it then can be opened, has its files and no attributes |
| SessionStorageEffects.RefusedRemovalTakes | wliotproxy-src-base/libwliotproxyd/src/SessionStorage.cpp:367-386 | What a refused removal has taken: the data file, the attributes only behind it, the title only behind both, never the index |
| SessionStorageEffects.OthersStay | wliotproxy-src-base/libwliotproxyd/src/SessionStorage.cpp:205-404 | No operation on one session touches the files of another |
| SessionStorageEffects.ReadAfter | wliotproxy-src-base/libwliotproxyd/src/SessionStorage.cpp:353-386 | The default read id: the one set last, until its session is closed by its id |
| SessionStorage.SessionStorage.Close | wliotproxy-src-base/libwliotproxyd/src/SessionStorage.cpp:145-158 | Every pair is released once, and none is left |
| SessionStorage.SessionStorage.OpenMainWriteSession | wliotproxy-src-base/libwliotproxyd/src/SessionStorage.cpp:251-295 | Opens index and data driver or releases what it made |
| SessionStorage.SessionStorage.OpenSession | wliotproxy-src-base/libwliotproxyd/src/SessionStorage.cpp:297-342 | The same for a read session; a session already open is left alone |
| SessionStorage.SessionStorage.CloseMainWriteSession | wliotproxy-src-base/libwliotproxyd/src/SessionStorage.cpp:344-351 | Releases the pair and clears the id |
| SessionStorage.SessionStorage.CloseSession | wliotproxy-src-base/libwliotproxyd/src/SessionStorage.cpp:353-365 | Releases the pair, and clears the read id if it is this one |
| SessionStorage.SessionStorage.RemoveSession | wliotproxy-src-base/libwliotproxyd/src/SessionStorage.cpp:367-386 | Deletes file by file up to the first that is missing; succeeds only on a closed session |
| SessionStorage.SessionStorage.CreateSession | wliotproxy-src-base/libwliotproxyd/src/SessionStorage.cpp:205-249 | A new directory with a title and empty files |
| SessionStorage.SessionStorage.SetSessionAttribute | wliotproxy-src-base/libwliotproxyd/src/SessionStorage.cpp:388-404 | Only for an open session; makes the metadata file |
| SessionStorage.SessionStorage.SetMainReadSessionId | wliotproxy-src-base/libwliotproxyd/src/SessionStorage.cpp:563-576 | Opens the session if needed; accepts one that is open for writing only |
| TextCodec.RecordRoundTripIff | wliotproxy-src-base/libwliotproxyd/src/DBDriverHelpers.cpp:31-100 | A text value packed under any timestamp rule is unpacked under the stored type with the stored time exactly when its strings hold no zeros; empty strings are no exception |
| TextCodec.ReadBackByRule | wliotproxy-src-base/libwliotproxyd/src/DBDriverHelpers.cpp:31-127 | What is read back, rule by rule: with `ADD_GT` a global time, the value's own or the clock; with `DROP_TIME` none; with `DONT_TOUCH` the value itself |
| TextCodec.ClockMattersIff | wliotproxy-src-base/libwliotproxyd/src/DBDriverHelpers.cpp:111-127 | The record depends on the clock exactly for a value without a global time under `ADD_GT` |
| TextCodec.TakenIff | wliotproxy-src-base/libwliotproxyd/src/DBDriverHelpers.cpp:60-100 | Data are taken exactly when they hold a time where there must be one and zeros for whole samples, for one sample only under a type of single values |
| TextCodec.TakenIsRecord | wliotproxy-src-base/libwliotproxyd/src/DBDriverHelpers.cpp:31-100 | Data that are taken and end behind a zero are the record of the value they were taken for, byte for byte |
| TextCodec.SplitUndoesTerminatedIff | wliotproxy-src-base/libwliotproxyd/src/DBDriverHelpers.cpp:76-88 | Cutting at zeros gives the strings back exactly when they hold none |
| TextCodec.DBDriverHelpers.PackSensorValue | wliotproxy-src-base/libwliotproxyd/src/DBDriverHelpers.cpp:31-56 | The record of the value, its time and whether it is stored |
| TextCodec.DBDriverHelpers.UnpackSensorValue | wliotproxy-src-base/libwliotproxyd/src/DBDriverHelpers.cpp:65-100 | The value of the record, or nothing when it is too short or its strings do not make up whole samples |
| TextCodec.DBDriverHelpers.GetTimestampForVal | wliotproxy-src-base/libwliotproxyd/src/DBDriverHelpers.cpp:111-127 | Which time is stored under which rule |
| DevicesNames.FoundDeviceHasTheName | wliotproxy-src-base/libwliotproxyd/src/FSDevicesNamesDatabase.cpp:66-130 | Over every run of events, with any names: who is found under a name (not the empty one) goes by it |
| DevicesNames.StepIsFullIff | wliotproxy-src-base/libwliotproxyd/src/FSDevicesNamesDatabase.cpp:89-130 | After an event the entry of the empty name is right exactly when the event settles it, or it was right and the event does not rename, by hand, the device found under the empty name |
| DevicesNames.StepKeepsFullIff | wliotproxy-src-base/libwliotproxyd/src/FSDevicesNamesDatabase.cpp:89-130 | From a database that is right, an event keeps it right exactly when it does not rename, by hand, the device found under the empty name |
| DevicesNames.RunKeepsFullIff | wliotproxy-src-base/libwliotproxyd/src/FSDevicesNamesDatabase.cpp:66-130 | Over every run: whoever is found under a name, the empty one included, goes by it exactly when no such renaming is left unsettled by a later event |
| DevicesNames.EmptyNameCanGoStale | wliotproxy-src-base/libwliotproxyd/src/FSDevicesNamesDatabase.cpp:89-97 | A device given the empty name and then another one is still found under the empty name |
| DevicesNames.LoadIsFullIffNothingStale | wliotproxy-src-base/libwliotproxyd/src/FSDevicesNamesDatabase.cpp:18-64 | A loaded database is right, the empty name included, exactly when no entry of its file is the last to use its name although its device goes by another one, whatever ids and names are repeated |
| DevicesNames.StepIsCompleteIffDistinct | wliotproxy-src-base/libwliotproxyd/src/FSDevicesNamesDatabase.cpp:89-130 | When everyone is found under their name, an event keeps it so exactly when no two devices go by one name after it |
| DevicesNames.NamedDeviceIsFound | wliotproxy-src-base/libwliotproxyd/src/FSDevicesNamesDatabase.cpp:66-130 | With names that stay distinct, finding the name of a named device gives the device |
| DevicesNamesEvents.EventNames | wliotproxy-src-base/libwliotproxyd/src/FSDevicesNamesDatabase.cpp:89-130 | After an event its device goes by the new name exactly when the event sets it by hand, or identifies a device without a manual name, or comes from a storage for a device without any; all others keep theirs |
| DevicesNamesEvents.EventFinds | wliotproxy-src-base/libwliotproxyd/src/FSDevicesNamesDatabase.cpp:83-130 | Then the device is found under the new name and not under the old one, and every other name gives what it gave |
| DevicesNamesEvents.EventKeeps | wliotproxy-src-base/libwliotproxyd/src/FSDevicesNamesDatabase.cpp:89-130 | Which names are kept for the file: manual ones as set by hand, automatic ones from identifications, even under a manual name, and from storages where none is in use |
| DevicesNamesEvents.EmptyStart | wliotproxy-src-base/libwliotproxyd/src/FSDevicesNamesDatabase.cpp:18-64 | With a path and no usable file no device has a name until the next event, which works |
| DevicesNamesEvents.NoPathNoNames | wliotproxy-src-base/libwliotproxyd/src/FSDevicesNamesDatabase.cpp:66-130 | Without a path no names are told and none are learned from devices or storages |
| DevicesNamesEvents.RunNames | wliotproxy-src-base/libwliotproxyd/src/FSDevicesNamesDatabase.cpp:89-130 | Over every run: the last manual name, else the manual name from before, else the last name the device gave itself, else the automatic name from before, else the first name from a storage |
| DevicesNamesEvents.RenamedIsFound | wliotproxy-src-base/libwliotproxyd/src/FSDevicesNamesDatabase.cpp:83-130 | Over every run: a renamed device is found under its new name for as long as no other event is about it or this name |
| DevicesNames.LoadIsConsistentIffNothingStale | wliotproxy-src-base/libwliotproxyd/src/FSDevicesNamesDatabase.cpp:18-64 | The same for all names but the empty one |
| DevicesNamesReload.ReloadIsFullIff | wliotproxy-src-base/libwliotproxyd/src/FSDevicesNamesDatabase.cpp:18-162 | A database saved and loaded again is right, the empty name included, exactly when of every automatic name that is nobody's manual name the last bearer in the file has no manual name |
| DevicesNamesReload.ReloadBringsBackAutoName | wliotproxy-src-base/libwliotproxyd/src/FSDevicesNamesDatabase.cpp:18-162 | The program writes such files: a device with two names that nobody else bears is found, after loading, under the automatic one too |
| DevicesNamesReload.NameSurvivesIff | wliotproxy-src-base/libwliotproxyd/src/FSDevicesNamesDatabase.cpp:18-162 | A device keeps its name over saving and loading exactly when it is not an empty manual name over an automatic one |
| DevicesNames.FSDevicesNamesDatabase.WriteCfg | wliotproxy-src-base/libwliotproxyd/src/FSDevicesNamesDatabase.cpp:132-162 | The file holds every entry with an id and a name, each once; nothing is written without a path |
| DevicesNames.FSDevicesNamesDatabase.Init | wliotproxy-src-base/libwliotproxyd/src/FSDevicesNamesDatabase.cpp:18-64 | Loads automatic, then manual names, and the reverse map in this order |
| DevicesNames.FSDevicesNamesDatabase.SetManualDevName | wliotproxy-src-base/libwliotproxyd/src/FSDevicesNamesDatabase.cpp:89-97 | The old name is forgotten, the new one set in both maps, and the file written |
| DevicesNames.FSDevicesNamesDatabase.OnDeviceIdentified | wliotproxy-src-base/libwliotproxyd/src/FSDevicesNamesDatabase.cpp:104-116 | A manual name wins; else the automatic name and the reverse map change |
| DevicesNames.FSDevicesNamesDatabase.OnNameFromStorage | wliotproxy-src-base/libwliotproxyd/src/FSDevicesNamesDatabase.cpp:118-130 | Sets the automatic name only when there is none, or silently behind a manual one |
| DevicesNames.FSDevicesNamesDatabase.GetDeviceName | wliotproxy-src-base/libwliotproxyd/src/FSDevicesNamesDatabase.cpp:66-72 | Manual before automatic, nothing without a database |
| DevicesNames.FSDevicesNamesDatabase.Find | wliotproxy-src-base/libwliotproxyd/src/FSDevicesNamesDatabase.cpp:83-87 | The reverse map, the null id when there is no entry |
| Base64.DecodeUndoesEncode | docs/base64.c:70-107 | Decoding the encoded text to the length its padding tells gives the octets back, and reads only characters of the alphabet |
| FileFormats.Base64Vectors | docs/base64.c:26-44 | The test vectors of RFC 4648, section 10, and one with the last two characters of the alphabet |
| FileFormats.Base64TwoGroups | docs/base64.c:26-44 | The longest of them, of two groups |
| Base64.DecLenOfEncoded | docs/base64.c:70-77 | The padding tells the original length |
| Base64.EncLenIsLength | docs/base64.c:62-65 | The predicted length is the length of the text |
| Base64.EncTableIsAlphabet | docs/base64.c:6 | The encoding table is the alphabet of section 4 of RFC 4648 |
| Base64.DecTableIsValue | docs/base64.c:11-20 | The decoding table is its inverse on the alphabet |
| Base64.Encode | docs/base64.c:79-92 | The front of the buffer becomes the padded text of section 4 of RFC 4648, and nothing behind it is touched |
| Base64.Decode | docs/base64.c:94-107 | The front of the buffer becomes the octets of the text, a padding character inside it read as zero bits, and nothing behind them is touched |
| Base64.EncodeBlock | docs/base64.c:26-44 | One group of one to three octets, padded |
| Base64.DecodeBlock | docs/base64.c:52-57 | One to three octets of a group |
| Base64.Base64DecLen | docs/base64.c:70-77 | The length by counting padding from the end |

## Left out

- StarNetLine.BroadcastIsDelivered: a well-formed packet has readable ids, zero-free fields, at most 20 arguments and no `identify_hub` title; the call id that `identify_hub` answers with is uninitialised in the source until the first call.
- StarNetWire.FittingIsSafe: the packet and every answer to it are assumed to fit the parser buffers; a longer text is dropped by the parser, as `RoundTripIffFits` says.
- MathExpParser.ParsedShaped: calls of the built-in functions are left out: here a name before a bracket is an error; names are made of digits and of letters strictly between a and z in either case, as `isValidNameChar` has it.
- MathExpLanguage.AcceptedIffPrinted: of texts without spaces and leading signs; `MathExpTidy.AcceptedIffTidyPrinted` covers these.
- MathExpTidy.AcceptedIffTidyPrinted: the plus that the parser drops behind an exponent is left out, so that the printed text is the text read; `ExponentLosesPlus` says what becomes of it.
- GTimeIndex.DBDriverGTimeIndex.Open: a header with an intact hash is taken to have the two note sizes of the index; with others the source reads into buffers of the wrong size.
- FixedBlocks.DBDriverFixedBlocks.Open: a header with an intact hash is taken to have a block length between 1 and 2^32 - 1; for length 0 the source divides by zero.
- FixedBlocks.DBDriverFixedBlocks.Create: the note sizes add up to less than 2^32, the documented limit of a block, and their vector is one that fits a QVector.
- ChainedBlocks.DBDriverChainedBlocks.ReadBlock: not asked of a driver whose `open` failed, which would read with the entries it has left.
- ContinuousStorage.ContinuousStorage.Open: as for its drivers, headers with an intact hash are taken to have a block length and, in the index, the two note sizes.
- LastNValues.LastNValuesStorage.Open: settings and files that can all be read agree with each other, as `create` and `writeSensorValue` leave them; a directory with missing or unreadable parts is refused, one with parts of different storages is not modelled.
- LastNValues.LastNValuesStorage.ValueAt: not asked of an object whose `open` failed behind the settings, for which the source reads outside its list.
- StarNetNode.ARpcStarNetDevice.ProcessMsg: a message without a destination, or one for the node without a title, is left out once a sender is known; the source then reads the argument pointers of an earlier message.
- LastNValues.LastNValuesStorage.Create: at most 2^31 slots, the range in which the 32-bit arithmetic of the ring is exact.
- SessionStorage.SessionStorage.SetSessionAttribute: attributes are kept in the directory only, not a second time in the session.
- TextCodec.RecordRoundTripIff: the decimal text of the time between unpacking and parsing is taken as the number itself.
- Base64.Base64DecLen: the empty text and a text of padding alone are left out, for the source reads the place before the text.
- Base64.Decode: the characters read are of the alphabet or padding; for others the source uses table entries without meaning or reads outside the table.
- Dispatch.ARpcRealDeviceMessageDispatch.ProcessMessage: the device has no hub message handler, so it is not a hub.
- Values of sensors other than text, and the packing of numbers: parameters of the storage classes.
- Reads and writes through the drivers of an open session: as in the continuous storage; sessions are modelled by their handles and directories.
- SHA-1: any function from byte sequences to 20 bytes.
- Files: every operation succeeds on a sequence of bytes below 2^63; crashes, partial writes and failing disks are left out. A path is fixed when a driver object is made.
- Decimal numbers in `db.index` and the settings, and the XML of the names file: taken as the numbers and entries they stand for.
- Floating point, the math functions and QString's notion of digits, letters and spaces outside ASCII: operations are an arbitrary algebra, literals are accepted by a parameter.
- The measurement writers, hub messages and device state commands of the dispatcher beyond the answers listed by `Replies`: easy members.
- Rings and cycles of StarNet nodes, and packets with unreadable ids beyond the decision of one node: the code promises nothing there.
- Sockets, serial and USB drivers, timers, threads, access management, commands, configuration and user interfaces.
