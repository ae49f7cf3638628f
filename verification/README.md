# Verified core of the device firmware

A Dafny model of the algorithms that the firmware rests on, with proofs of what they are for.
`dafny verify dfyconfig.toml` checks everything.  Each component is one or a few modules:

| modules | component |
|---|---|
| `Jsmn`, `JsmnParser`, `JsmnTheorems`, `JsmnRoundTrip`, `JsmnSound` | the JSON tokenizer (default build: not strict, no parent links) |
| `RingBuf`, `RingSystem` | the blocking byte ring between audio capture and recognizer: alone, and as a system of reader, writer and end signal |
| `Protobuf`, `ProtobufTheorems`, `PbPack`, `PbProto` | the protobuf packer, a decoder for the wire format, and the signed action message |
| `TopicFilter`, `TopicTheorems`, `OtaDispatch`, `OtaReceiver` | the MQTT topic matcher, the routing of messages to the update agent, and its event buffers |
| `SdCis` | the card information structure of SDIO cards, read in 32-byte windows |
| `SdCard`, `SdSteps`, `SdScripts`, `SdInit`, `SdInitTheorems` | an SD memory card as a state machine, the steps that bring it up, their outcome as a function of the answers alone, the driver, and what follows |
| `SdSectors` | sector transfers |
| `Features` | overlapping audio windows and the spectrogram |
| `Recognizer`, `RecognizerRuns` | the command recognizer: one call, and whole runs |
| `Decimal`, `U128`, `Rau` | decimal numerals, 128-bit numbers in both builds, and the conversion of amounts |
| `Prelude`, `Buffers` | types, and operations on byte buffers, that the others use |

Code that changes state in place is a class or a method over arrays, proved equal to a function of
the old state; the theorems are lemmas about these functions, over every input, every run or every
interleaving.  Hosts, clocks, signers and the feature generator are parameters: a script of answers,
a function, or a sequence of results, about which nothing is assumed unless a contract says so.

## What the proofs found

Where the code does not do what its documentation, or the standard it follows, asks for, the model
keeps the code, and a lemma says exactly when it does.

- `RingSystem.WriteReturns`: a write that ends because the stream is finished returns the length of its
  last chunk, not of what it accepted; `AcceptedButNotReported` is a run that loses two bytes this way.
- `JsmnTheorems.MoreText`: resuming on a longer text is right unless the shorter text was cut inside a
  primitive.
- `ProtobufTheorems.PackRoundTrip`, `SafeExactly`, `DanglingKey`, `PbProto.LongFieldsAreCut`: numbers of
  unusual widths, zeros under a type byte that only has wire type 0, and strings of 256 bytes or more do not
  survive packing.
- `TopicTheorems.MatcherIsExact`: behind a '+' that takes the end of the name, a '#' for the parent
  level and an empty last level are missed.  None of the firmware's own filters is affected.
- `OtaReceiver.LostForGood`: the callback does not look whether the agent's queue took the event, and each
  buffer whose event it did not take stays taken for ever.
- `SdInit.Driver.CardInit`: a command can be illegal in two ways, `SdInitTheorems.LosesExactly` and
  `StrandsExactly`.  `LimitKept`, `LimitForgotten`: the capacity limit of byte-addressed cards does not survive
  the switch to high speed, although `SdSectors.LimitIsExact` shows that it is needed.  `GoodCardComesUp`,
  `AssertionNeedsHost`: with a host limited to between 20 and 40 MHz, and with no other, a high-speed card
  makes the assertion on the frequency fail.
- `RecognizerRuns.QueueIsWindowExactly`: a 51st result inside the window is dropped, the newest one.  The
  interface asks for increasing times, the code only checks against the oldest result it holds
  (`LateResult`).
- `Features.NewestIsCurrent`: after a gap of 50 steps or more between two rounds the newest slice stands for an
  earlier step than the current one, and stays behind for good.
- `Rau.ValueIsExact`: amounts of exactly 18 digits are printed without their point, and the zeros at their
  end are then cut all the same.

## Model

| member | source | states |
|---|---|---|
| JsmnParser.Parser.Parse | components/antenna-sdk/src/jsmn.h:288-519 | one call of the tokenizer, over a mutable parser and token pool or with no pool at all, ends with the outcome, tokens and parser state of the specification run |
| Jsmn.Run | components/antenna-sdk/src/jsmn.h:288-519 | in every state a run reaches, the superior token is -1 or one of the tokens allocated |
| JsmnParser.Parser.AllocToken | components/antenna-sdk/src/jsmn.h:106-121 | a token is taken only while the pool has one left, reset to unset fields, and nothing else in the pool changes |
| JsmnParser.Parser.ParsePrimitive | components/antenna-sdk/src/jsmn.h:137-198 | a primitive ends before its delimiter or at the end of the text; on any failure the position goes back to where it was |
| JsmnParser.Parser.ParseString | components/antenna-sdk/src/jsmn.h:203-283 | a string ends at its closing quote, is refused for an escape that is not one of RFC 8259, and asks for more text with the position restored when it is unfinished |
| JsmnParser.Parser.Closing | components/antenna-sdk/src/jsmn.h:337-406 | a closing bracket completes the last token still open, whatever was parsed between, or is refused when the kinds differ |
| JsmnParser.Parser.Comma | components/antenna-sdk/src/jsmn.h:432-448 | a comma behind a value gives the size counting back to the container that is still open |
| JsmnTheorems.Resumption | components/antenna-sdk/src/jsmn.h:106-121 | however often a call runs out of tokens and is repeated with a larger pool, the end is that of one call with a pool large enough from the start |
| JsmnTheorems.ResumeOnce | components/antenna-sdk/src/jsmn.h:310-314 | a larger pool continues a failed call exactly where it stopped and changes nothing about a call that did not fail |
| JsmnTheorems.MoreText | components/antenna-sdk/src/jsmn.h:203-283 | a call that asked for more text, repeated on a longer text, gives what one call on the longer text gives if and only if the first text was not cut inside a primitive |
| JsmnTheorems.CutExample | components/antenna-sdk/src/jsmn.h:137-198 | the cut that does matter: "[12" and then "[123]" counts three tokens instead of two |
| JsmnTheorems.FinishedTokensStay | components/antenna-sdk/src/jsmn.h:106-135 | no later step moves or resizes the extent of a finished token |
| JsmnTheorems.CountAgrees | components/antenna-sdk/src/jsmn.h:288-319 | where tokenizing succeeds, counting without a pool returns the same number, and with that many tokens tokenizing does not run out of memory |
| JsmnTheorems.RunLaminar | components/antenna-sdk/src/jsmn.h:302-456 | in every state of a run tokens start in strictly increasing order and are pairwise nested or disjoint; after a success none is open |
| JsmnTheorems.Conservation | components/antenna-sdk/src/jsmn.h:302-497 | over any run the sizes of all tokens, plus those created with no superior token, add up to the number of tokens |
| JsmnTheorems.StepConserves | components/antenna-sdk/src/jsmn.h:302-497 | each step creates at most one token and adds it to exactly one size, or to none at the top level |
| JsmnRoundTrip.RoundTrip | components/antenna-sdk/src/jsmn.h:288-519 | every JSON text, with any of the four whitespace characters of RFC 8259 around its values and any of its escapes in its strings, both written out as literals, is tokenized into exactly the pre-order list of its values and keys with their kinds, extents and sizes |
| JsmnRoundTrip.NumbersArePrimitives | components/antenna-sdk/src/jsmn.h:456-492 | every number and literal of RFC 8259 is a primitive of the tokenizer |
| JsmnRoundTrip.RunNode | components/antenna-sdk/src/jsmn.h:302-406 | at any depth an object or array is consumed to its last character, leaving its own and its children's tokens and the surrounding state as they should be |
| JsmnRoundTrip.CloseNode | components/antenna-sdk/src/jsmn.h:337-406 | the backward scan of a closing bracket finds the bracket's own token, past everything nested in it |
| JsmnSound.StringExactly | components/antenna-sdk/src/jsmn.h:203-283 | a string ends at e if and only if there is a quote there and all before it are ordinary characters or complete escapes: a backslash with one of " \ / b f n r t, or with u and four hexadecimal digits |
| JsmnSound.RefusedExactly | components/antenna-sdk/src/jsmn.h:241-274 | it is refused if and only if such text is followed by another escape, or by a \u with a character that is no hexadecimal digit |
| JsmnSound.BadStringIsInvalid | components/antenna-sdk/src/jsmn.h:408-422 | a string like that ends the whole call as invalid, wherever it begins |
| JsmnSound.PrimitiveExactly | components/antenna-sdk/src/jsmn.h:137-183 | a primitive ends at e if and only if all before it are printable and no delimiter, and e is the end of the text or a delimiter |
| JsmnSound.TokensAreReal | components/antenna-sdk/src/jsmn.h:288-519 | after any call, whatever its outcome, every finished token stands for what its kind says: a string between its quotes with complete escapes only, a primitive up to its delimiter, a container between its two brackets; after a success none is open |
| JsmnSound.OutcomeExactly | components/antenna-sdk/src/jsmn.h:288-519 | which outcome a call has and why: at the end of the text success, or more text asked for by an open container; before it an unfinished string, a bad string or primitive, a bracket that closes nothing of its kind, or a full token array |
| RingBuf.RingBuffer.Read | main/tflite/ringbuf.c:98-181 | undisturbed, a read delivers the oldest bytes up to its length, takes exactly those out, and returns their number, or the end-of-stream code |
| RingBuf.RingBuffer.Write | main/tflite/ringbuf.c:183-245 | undisturbed, a write stores as much as there is room for behind what is there and returns that number; on a finished stream a write that finds no room at all returns the end-of-stream code |
| RingBuf.RingBuffer.TakeChunk | main/tflite/ringbuf.c:118-143 | the one or two copies out of the buffer deliver the oldest bytes, wherever the read pointer stands, base+size included |
| RingBuf.RingBuffer.PutChunk | main/tflite/ringbuf.c:202-221 | the one or two copies into the buffer append the bytes, wherever the write pointer stands |
| RingBuf.RingBuffer.Filled | main/tflite/ringbuf.c:88-91 | the fill count is the number of bytes stored |
| RingBuf.RingBuffer.Available | main/tflite/ringbuf.c:93-96 | what is available is the capacity less the bytes stored |
| RingBuf.TakesOldest | main/tflite/ringbuf.c:118-143 | taking n bytes splits the stored bytes into what is delivered and what remains |
| RingBuf.PutsNewest | main/tflite/ringbuf.c:202-221 | putting bytes leaves the stored bytes followed by the new ones |
| RingSystem.FifoRefinement | main/tflite/ringbuf.c:98-245 | in every interleaving of one reader, one writer and the end signal, the bytes delivered are a prefix of the bytes accepted, and with nobody inside the rest is exactly what the buffer holds |
| RingSystem.NoMissedWakeup | main/tflite/ringbuf.c:115-172 | in every interleaving, while nobody holds the lock, a parked reader with bytes to read, and a parked writer with room, has its semaphore available; and the two are never both stuck |
| RingSystem.KeepsInv | main/tflite/ringbuf.c:98-245 | every step of every participant keeps mutual exclusion, both sets of counters, the FIFO books and the wakeup invariant |
| RingSystem.ReadReturns | main/tflite/ringbuf.c:161-181 | a read returns the number of bytes it delivered, or -2 when the stream is over and there were none, and does not hold the lock |
| RingSystem.WriteReturns | main/tflite/ringbuf.c:229-245 | a write that returns, by a timeout too, has accepted a prefix of its bytes and does not hold the lock; without a timeout and off the exit for a finished stream it has accepted and returns all of them; its result is the length of the prefix, except on that exit, which is right if and only if the last chunk is all that was accepted and not empty |
| RingSystem.ReadGetsAll | main/tflite/ringbuf.c:98-181 | over any run: a read of n bytes that is over without a timeout, on a stream that is not finished, has delivered and returned exactly n; however it ends, it has delivered at least what was there when it was called, up to n |
| RingSystem.WritePutsAll | main/tflite/ringbuf.c:183-245 | over any run: a write that is over without a timeout, on a stream that is not finished, has put in and returned exactly its bytes; however it ends, it has put in at least as many as there was room for |
| RingSystem.GivesUp | main/tflite/ringbuf.c:152-156 | a parked task can always run into its timeout, and then returns what it has moved, with nothing else changed |
| RingSystem.ReadAlone | main/tflite/ringbuf.c:98-181 | undisturbed, a read of at most what is there goes through its steps, delivers the oldest bytes, returns their number and leaves the rest |
| RingSystem.WriteAlone | main/tflite/ringbuf.c:183-245 | undisturbed, a write of at most what there is room for appends its bytes and returns their number |
| RingSystem.FinishAlone | main/tflite/ringbuf.c:306-312 | the end of the stream can be signalled in any state, and gives the reader its semaphore |
| RingSystem.AcceptedButNotReported | main/tflite/ringbuf.c:229-232 | a run in which two bytes are accepted and the write reports none of them |
| RingSystem.Progress | main/tflite/ringbuf.c:115-172 | unless both sides are idle or wait for something that is really missing, some step can be taken without a timeout or a new call |
| RingSystem.Terminates | main/tflite/ringbuf.c:98-245 | without new calls every schedule comes to rest within a bound given by the state |
| PbPack.PackList | components/antenna-sdk/src/pb_pack.c:146-247 | packing in place, with the one-byte length guess corrected by moving the message, writes exactly the encoding of the functional encoder and returns its length when a byte is to spare; a buffer filled to the last byte is refused |
| PbPack.PackMessage | components/antenna-sdk/src/pb_pack.c:175-216 | an embedded message ends up behind its key and a length of the right width, whatever was guessed |
| PbPack.PlaceLength | components/antenna-sdk/src/pb_pack.c:197-215 | the length goes in front of the message, which is moved when the length needs more than the one byte kept free |
| PbPack.PackVarint | components/antenna-sdk/src/pb_pack.c:28-69 | the value loop stores the groups of the value and clears the last continuation mark, within the room given |
| PbPack.EncodeVarint | components/antenna-sdk/src/pb_pack.c:97-105 | the varint of a number is written, one byte up to 127 |
| PbPack.EncodeHeader | components/antenna-sdk/src/pb_pack.c:107-122 | the key of a field is written; field 0, a field out of range and the reserved fields are refused with nothing written |
| PbPack.VarintIsZero | components/antenna-sdk/src/pb_pack.c:7-26 | never zero for a type byte other than 0; otherwise the test looks at as many bytes as the length says, eight for length 0, whatever the value is read from |
| ProtobufTheorems.DecodeInvertsPack | components/antenna-sdk/src/pb_pack.c:146-247 | a decoder for the wire format recovers from the packed bytes one record per emitted entry, in order, if and only if no varint of value zero is emitted, whose key stands without a value |
| ProtobufTheorems.PackRoundTrip | components/antenna-sdk/src/pb_pack.c:174-216 | the round trip holds at every depth of embedded messages if and only if no varint of value zero is emitted at any |
| ProtobufTheorems.ProperIsWhole | components/antenna-sdk/src/pb_pack.c:7-69 | with type byte 0 and a width of 0, 1, 2, 4 or 8 on every varint, at every depth, none is |
| ProtobufTheorems.SafeExactly | components/antenna-sdk/src/pb_pack.c:7-69 | a type byte and a width are safe for all values (emitted exactly when not zero, and then with the value) if and only if the type byte is 0 and the width 0, 1, 2, 4 or 8 |
| ProtobufTheorems.VarintMinimal | components/antenna-sdk/src/pb_pack.c:97-105 | no shorter varint stands for the same number |
| ProtobufTheorems.DecodedIsNoShorter | components/antenna-sdk/src/pb_pack.c:146-247 | no other bytes that decode to the same records are shorter |
| ProtobufTheorems.ZeroOfTypeEight | components/antenna-sdk/src/pb_pack.c:11-13 | eight zero bytes under type byte 8 are such a varint |
| ProtobufTheorems.DanglingKey | components/antenna-sdk/src/pb_pack.c:28-69 | alone, every such varint packs to its key, which cannot be decoded |
| ProtobufTheorems.NinthByte | components/antenna-sdk/src/pb_pack.c:7-26 | an item of length 9 whose ninth byte alone is not zero is one |
| ProtobufTheorems.ValueIs | components/antenna-sdk/src/pb_pack.c:28-69 | the number of a varint is the sum of its bytes b[i] * 256^i, over one, two, four or eight of them by its length |
| ProtobufTheorems.EntrySays | components/antenna-sdk/src/pb_pack.c:146-247 | what each kind of entry becomes when it is decoded: its number, its four or eight bytes, its byte string, or nothing |
| ProtobufTheorems.EntryRefused | components/antenna-sdk/src/pb_pack.c:107-122 | wire types above 5 are refused with -1, and field 0 with -4 whenever something would be put on the wire |
| PbProto.GenAction | components/antenna-sdk/src/pb_proto.c:21-90 | the bytes given to the signer decode to version, nonce, gas limit, gas price and the packed action as fields 1, 2, 3, 4 and the action's, in this order, absent and zero ones left out; the final message is exactly those bytes, the public key and the signature as fields 1, 2 and 3; every error is passed on |
| PbProto.CoreSays | components/antenna-sdk/src/pb_proto.c:43-49 | the same of the core for every action that packs, its three numbers written out as sums over their eight bytes |
| PbProto.GenTxAction | components/antenna-sdk/src/pb_proto.c:92-101 | a transfer is signed as field 10, with amount, recipient and payload as its fields 1, 2 and 3, empty ones left out |
| PbProto.GenExAction | components/antenna-sdk/src/pb_proto.c:103-112 | an execution is signed as field 12, with amount, contract and data as its fields 1, 2 and 3 |
| PbProto.FramedReadsBack | components/antenna-sdk/src/pb_proto.c:55-59 | a record framed with its key and length reads back whole, whatever follows it |
| PbProto.LongFieldsAreCut | components/antenna-sdk/src/pb_pack.c:124-135 | a byte string reaches the wire whole if and only if it is shorter than 256 bytes |
| TopicFilter.MatchTopicFilter | main/ota_task.c:309-371 | the loop with its two indexes computes the specified pass |
| TopicFilter.MatchWildcards | main/ota_task.c:205-306 | a wildcard either decides the match or moves both indexes to where the pass goes on |
| TopicFilter.MatchEndWildcards | main/ota_task.c:166-203 | the special cases at the end of the name, exactly |
| TopicTheorems.MatcherIsExact | main/ota_task.c:166-371 | for every name and well-formed filter the loop reports a match if and only if the levels match (section 4.7.1 of MQTT 3.1.1) and it is not one of the matches missed behind a '+' |
| TopicTheorems.PassIsExact | main/ota_task.c:309-371 | the same from any point of the pass on |
| TopicTheorems.NothingMissed | main/ota_task.c:309-371 | for a name without empty levels and a filter that does not end in "+/#" no match is missed |
| TopicTheorems.MissedParent | main/ota_task.c:276-283 | "x" is not matched by "+/#", although its levels are |
| TopicTheorems.MissedEmptyLevel | main/ota_task.c:276-283 | "x/" is not matched by "+/+", although its levels are |
| TopicTheorems.LevelMatchByIndex | main/ota_task.c:309-371 | that the levels match means, read by index: as many levels, or at least as many as stand before a final '#', each the same or behind a '+' |
| OtaDispatch.FiltersAreExact | main/ota_task.c:431-478 | for the three subscribed filters the matcher is exact on every topic name |
| OtaDispatch.AtMostOneFilter | main/ota_task.c:431-478 | no topic name matches two of the three filters |
| OtaDispatch.KindIs | main/ota_task.c:431-478 | a message is a job document exactly under $aws/things/<any>/jobs/notify-next and .../jobs/$next/get/accepted, and a file block exactly under $aws/things/<any>/streams/ |
| OtaReceiver.Receiver.Handle | main/ota_task.c:422-500 | a message for the agent is copied into the first free buffer and signalled once, with the kind its topic stands for, and the buffer stays taken when the agent's queue is full; any other message, or a message with no buffer free, changes nothing |
| OtaReceiver.Receiver.GetBuffer | main/ota_task.c:396-420 | the first free buffer is marked as used, or none is there |
| OtaReceiver.Receiver.FreeBuffer | main/ota_task.c:383-394 | giving a buffer back frees that buffer only |
| OtaReceiver.DeliveredIntact | main/ota_task.c:383-500 | in every run no event's payload is overwritten before its buffer is given back, and a message is dropped exactly when the agent's queue is full or all buffers are taken, by events or by those that were lost |
| OtaReceiver.LostForGood | main/ota_task.c:383-456 | a buffer whose event did not get into the queue is never given back: once all are lost so, nothing is delivered any more |
| OtaReceiver.FullQueueLoses | main/ota_task.c:440-456 | a message that finds a buffer and a full queue loses the buffer |
| SdCis.Card.GetCisData | components/sdmmc/sdmmc_io.c:565-636 | status, size and buffer are those of one walk over the readable memory: the end tuple's place whatever windows it straddles, the memory prefix copied as far as it fits, the size error exactly when it does not fit, and the first transfer error otherwise |
| SdCis.Card.ReadWindows | components/sdmmc/sdmmc_io.c:595-636 | the do-while loop over 32-byte windows finds what the walk finds |
| SdCis.CheckTuplesInBuffer | components/sdmmc/sdmmc_io.c:539-563 | the scan of a window, from offset -1 too |
| SdCis.Window | components/sdmmc/sdmmc_io.c:539-563 | scanning a window of the memory takes the walk to the end tuple or to the first tuple behind the window, its code known not to be the end when only its length is missing |
| SdCis.ScanNext | components/sdmmc/sdmmc_io.c:603-624 | the state carried from window to window stands for the walk so far |
| SdCis.Card.ReadBytes | components/sdmmc/sdmmc_io.c:312-335 | a read is split into a part divisible by four and the rest, delivers the registers in order, stops at the first error, and is refused from 516 bytes on |
| SdCis.Card.RwExtended | components/sdmmc/sdmmc_io.c:261-310 | one transfer moves at most 512 bytes |
| SdCis.CisIsRead | components/sdmmc/sdmmc_io.c:565-636 | from a card that holds any tuples and an end tuple where registers 9 to 11 point, least significant first, the call delivers all of them and their exact length, or reports that they do not fit |
| SdCis.PointerIsChecked | components/sdmmc/sdmmc_io.c:573-584 | a pointer outside 0x1000 to 0x17FFF is refused with the buffer unchanged |
| SdInit.Driver.CardInit | components/sdmmc/sdmmc_init.c:34-125 | against every sequence of answers and every host: the call succeeds, fails or stops at the assertion as a function of the answers and the host alone foretells, with that CSD; a success leaves the card in the transfer state without any illegal command, with card and host on the same number of data lines and a clock within the limits of the host and of the card's mode; and a command is illegal if and only if the answers make the host ask a card that became ready unseen or set the bus width of a card it left in stand-by |
| SdScripts.CardInitIsForetold | components/sdmmc/sdmmc_init.c:34-125 | the same for the steps in their order: success, assertion, final CSD and illegal commands are read off the answers, without following the card |
| SdInitTheorems.LosesExactly | components/sdmmc/sdmmc_cmd.c:117-172 | the host asks a card that became ready unseen exactly when an answer to one of its questions is an error, was carried out and said ready, with tries and errors left for another question |
| SdInitTheorems.StrandsExactly | components/sdmmc/sdmmc_sd.c:227-252 | the bus width is set in stand-by exactly when the deselect, the second CSD or the selection is taken for a card without high speed while the card is not selected, and APP_CMD is then accepted |
| SdInitTheorems.NoIllegalCommand | components/sdmmc/sdmmc_init.c:34-125 | when no such answer is lost, nothing is reported as not supported and every CSD is of a known version, no command is illegal |
| SdInitTheorems.LostAnswerIsFatal | components/sdmmc/sdmmc_cmd.c:130-153 | once the answer "ready" got lost, after any number of rounds, the whole call fails, and sends an illegal command unless that was the last try or the last error |
| SdInitTheorems.LostAnswerExample | components/sdmmc/sdmmc_cmd.c:130-153 | six answers that lead there from the first command on, whatever state the card is in |
| SdInitTheorems.LeftDeselected | components/sdmmc/sdmmc_sd.c:227-252 | a second CSD that cannot be read makes the whole call send the illegal bus width command and fail |
| SdInitTheorems.LeftDeselectedExample | components/sdmmc/sdmmc_sd.c:227-252 | nineteen answers that lead there from the first command on |
| SdInitTheorems.LimitKept | components/sdmmc/sdmmc_sd.c:239-243 | on success the CSD is the one read again, if it was, and otherwise the first one, its capacity cut to the limit when the card is byte-addressed and above it; so the capacity of a byte-addressed card is within the limit if and only if the CSD was not read again or says so itself |
| SdInitTheorems.ReadAgain | components/sdmmc/sdmmc_sd.c:210-260 | when nothing is reported as not supported, it was read again exactly when the host's limit is above default speed and the card is of version 1.10, has the switch class and supports SDR25 |
| SdInitTheorems.LimitForgotten | components/sdmmc/sdmmc_sd.c:239-243 | twenty-three answers, from the first command on, that bring up a byte-addressed card with more capacity than its addresses reach |
| SdInitTheorems.AssertionNeedsHost | components/sdmmc/sdmmc_common.c:196-242 | whatever is answered, the frequency assertion fails only for a host limited to more than default and less than high speed |
| SdInitTheorems.GoodCardComesUp | components/sdmmc/sdmmc_init.c:34-125 | a card that answers well after up to 99 rounds of not being ready, two of them errors, and any number of busy statuses, with CMD8 answered or not, comes up with a host that does nothing wrong, except that the assertion fails if and only if the host's limit lies between default and high speed and the card supports high speed |
| SdInit.Driver.Identify | components/sdmmc/sdmmc_init.c:46-76 | up to the stand-by state the only illegal command is the question after a lost answer, and success is read off the answers |
| SdInit.Driver.Prepare | components/sdmmc/sdmmc_init.c:78-97 | a success leaves the card selected and ready for data, byte-addressed cards with their block length set and their capacity limited; no command is illegal |
| SdInit.Driver.SpeedUp | components/sdmmc/sdmmc_init.c:102-122 | after high speed, bus width, host settings and the SCR check the card is selected and matched with the host, or the call fails; the only illegal command is the bus width sent in stand-by |
| SdInit.Driver.SendOpCondUntilReady | components/sdmmc/sdmmc_cmd.c:117-172 | 100 tries and 3 errors: success means that the card said it was ready, in SD mode; a command is illegal exactly after a lost answer |
| SdInit.Driver.InitOcr | components/sdmmc/sdmmc_common.c:22-64 | a timeout is followed by an attempt as MMC, which an SD card does not answer |
| SdInit.Driver.SendApp | components/sdmmc/sdmmc_cmd.c:50-67 | the two commands of an application command, in order, the second only after a good answer to the first |
| SdInit.Driver.InitCsd | components/sdmmc/sdmmc_common.c:125-142 | the capacity of a byte-addressed card is limited to what 32-bit byte addresses reach |
| SdInit.Driver.EnableHsModeAndCheck | components/sdmmc/sdmmc_sd.c:210-260 | result, CSD and the state the card is left in agree with the answers: default speed as the host asked, high speed with a CSD read again that says so, or a not-supported result that may leave the card in stand-by |
| SdInit.Driver.RereadCsd | components/sdmmc/sdmmc_sd.c:227-252 | deselect, read, select: the card is selected again unless a step fails |
| SdInit.Driver.InitHsMode | components/sdmmc/sdmmc_common.c:155-172 | the not-supported result is taken for a card without high speed |
| SdInit.Driver.InitBusWidth | components/sdmmc/sdmmc_sd.c:83-97 | setting the bus width succeeds only on a selected card, and is illegal exactly for a card in stand-by that accepts APP_CMD |
| SdInit.Driver.InitHostFrequency | components/sdmmc/sdmmc_common.c:196-242 | the assertion fails exactly when the card's frequency exceeds the host's; otherwise the host is set to the highest of its frequencies that is not above the card's |
| SdInit.Driver.WaitDataReady | components/sdmmc/sdmmc_sd.c:99-115 | waiting ends with the card ready for data, or with the first error, and sends only status requests |
| SdSectors.Card.WriteSectors | components/sdmmc/sdmmc_cmd.c:366-395 | for a range that does not wrap around 32 bits: on success both paths have written exactly the sectors meant with the caller's bytes; on any error nothing outside them has changed; and they succeed when all transactions do and the sectors are inside the capacity |
| SdSectors.Card.WriteSectorsDma | components/sdmmc/sdmmc_cmd.c:397-439 | one transfer; the size error exactly when the wrapping sum exceeds the capacity, with nothing written, and without a wrap exactly when the sectors do |
| SdSectors.Card.WriteOneByOne | components/sdmmc/sdmmc_cmd.c:374-392 | the bounce-buffer loop has the same effect as one transfer |
| SdSectors.Card.ReadSectors | components/sdmmc/sdmmc_cmd.c:441-470 | on success both paths deliver exactly the sectors meant; nothing else in the destination changes; and they succeed when all transactions do and the sectors are inside the capacity |
| SdSectors.Card.ReadSectorsDma | components/sdmmc/sdmmc_cmd.c:472-513 | one transfer into the caller's buffer |
| SdSectors.Card.ReadOneByOne | components/sdmmc/sdmmc_cmd.c:449-467 | the bounce-buffer loop delivers the same bytes |
| SdSectors.WaitedExactly | components/sdmmc/sdmmc_cmd.c:426-437 | the wait behind a transfer succeeds only with an answer that says ready, the first one that does, and fails with the first failure before it or when nothing more comes |
| SdSectors.LimitIsExact | components/sdmmc/sdmmc_common.c:134-140 | no sector of a byte-addressed card needs an address of more than 32 bits if and only if the capacity is limited as at the start |
| SdSectors.AddressIsExact | components/sdmmc/sdmmc_cmd.c:415-419 | the command addresses the sector meant, unless its byte address overflows |
| SdSectors.CheckIsExact | components/sdmmc/sdmmc_cmd.c:400-402 | the capacity check is right if and only if the sum does not wrap around, or still exceeds the capacity when it has |
| Features.AudioProvider.GetAudioSamples | main/tflite/audio_provider.cc:176-204 | history, new samples and what was there before, in this order; the history is the end of the new window |
| Features.NextSliceAudio | main/tflite/audio_provider.cc:176-204 | after k full reads the next one leaves samples [320k-160, 320k+320) of the stream, zero before its start, and zeros behind |
| Features.FeatureProvider.PopulateFeatureData | main/tflite/feature_provider.cc:34-120 | a successful call makes 49 slices on the first run and min(49, now/20 - last/20) after it, shifts the spectrogram by as many and appends them; it keeps the spectrogram equal to the last 49 slices made and, with full reads, every slice made from its window of the stream; it fails exactly when the set-up or a slice fails |
| Features.FeatureProvider.ShiftUp | main/tflite/feature_provider.cc:83-95 | the nested copy loops move the slices to keep to the front |
| Features.FeatureProvider.FillSlices | main/tflite/feature_provider.cc:98-118 | the last loop fills the free places in order, one window of audio for each |
| Features.FeatureProvider.Loops | main/tflite/main_functions.cc:129-140 | over any number of rounds of the main loop with times that do not decrease, full reads and no failing slice, the spectrogram stays the last 49 slices made and every slice ever made comes from its own window of the stream; from the first run on they are 49 and one for each step passed, up to 49 a round, from 320 samples each |
| Features.NewestIsCurrent | main/tflite/feature_provider.cc:46-62 | the newest slice stands for the current step if and only if no two rounds in a row were 50 steps or more apart, and for an earlier one otherwise |
| Features.HoldsLatest | main/tflite/feature_provider.cc:57-118 | shifting by n and appending n slices keeps exactly the latest 49, the first run included |
| Recognizer.PreviousResultsQueue.PushBack | main/tflite/recognize_commands.h:60-69 | a result is appended, or dropped when 50 are there |
| Recognizer.PreviousResultsQueue.PopFront | main/tflite/recognize_commands.h:71-84 | the oldest result is taken out |
| Recognizer.PreviousResultsQueue.FromFront | main/tflite/recognize_commands.h:89-100 | the result at an offset from the front, wherever the front is; the last one for an offset outside |
| Recognizer.RecognizeCommands.ProcessLatestResults | main/tflite/recognize_commands.cc:35-142 | one call, on tensors of any shape, does what the specification does to queue, last trigger and report |
| Recognizer.RecognizeCommands.AverageScores | main/tflite/recognize_commands.cc:91-107 | the sums over the queue divided by its length |
| Recognizer.RecognizeCommands.FindTop | main/tflite/recognize_commands.cc:109-117 | the first category of the highest average |
| Recognizer.Top | main/tflite/recognize_commands.cc:109-117 | no average is higher, and no earlier one is as high |
| RecognizerRuns.QueueIsWindow | main/tflite/recognize_commands.cc:58-76 | fed in time order and never more than 50 to a window, the queue holds exactly the results not older than the window and refuses none |
| RecognizerRuns.QueueIsWindowExactly | main/tflite/recognize_commands.h:60-66 | and no longer with the first result that comes in too fast |
| RecognizerRuns.LateResult | main/tflite/recognize_commands.cc:58-66 | after results in time order, with room in the queue, a further one is refused if and only if it is older than the oldest in the window; older than the newest only, it is taken and stands behind it, out of order |
| RecognizerRuns.ReportIsTop | main/tflite/recognize_commands.cc:79-139 | what a call reports is the first category of the highest average over the window, its score that average rounded down and at most 255, or nothing new while the window holds too little |
| RecognizerRuns.Suppression | main/tflite/recognize_commands.cc:120-137 | in any run two triggers in a row for the same category other than silence are more than the suppression time apart |
| RecognizerRuns.NewExactly | main/tflite/recognize_commands.cc:120-139 | in any run a report from enough results is new if and only if its score is above the threshold and it is not the category of the last trigger, or that was silence or the label at the start, or more than the suppression time has passed since; from too few results nothing is new |
| RecognizerRuns.TotalJoins | main/tflite/recognize_commands.cc:91-107 | a total is the sum over the results in the queue of their scores, each counted from -128 |
| U128.BuildsAgree | components/antenna-sdk/src/u128.c:11-163 | on canonical numerals below 2^128 both builds compare as the numbers do and print back the text they were given |
| U128.Str2Text | components/antenna-sdk/src/u128.c:62-84 | the text build keeps digits that fit its 40 characters, and "0" for anything else |
| U128.IsLessText | components/antenna-sdk/src/u128.c:20-33 | shorter is less, and the same length is compared character by character |
| U128.Text2Str | components/antenna-sdk/src/u128.c:118-126 | the text is copied, or refused when the buffer is too short |
| U128.Str2Int | components/antenna-sdk/src/u128.c:87-103 | the value modulo 2^128, and 0 for anything but digits |
| U128.Int2Str | components/antenna-sdk/src/u128.c:128-162 | the canonical numeral is printed, refused exactly when the buffer is too short |
| U128.TurnRound | components/antenna-sdk/src/u128.c:152-158 | the digits are reversed in place and the rest of the buffer is left alone |
| Decimal.PrintInverts | components/antenna-sdk/src/u128.c:128-162 | printing the value of a canonical numeral gives it back |
| Decimal.LexIsNumeric | components/antenna-sdk/src/u128.c:29-31 | for the same number of digits the order of characters is the order of numbers |
| Rau.Rau2Iotx | components/antenna-sdk/src/utils.c:5-64 | the text written is the amount with its point set and useless zeros cut, inside the buffer; refused exactly when the buffer is too short |
| Rau.CopyWithPoint | components/antenna-sdk/src/utils.c:21-32 | the copy loop sets the point 18 digits from the end, and none for exactly 18 digits |
| Rau.CutEnd | components/antenna-sdk/src/utils.c:48-63 | zeros at the end and a point left there are cut |
| Rau.ValueIsExact | components/antenna-sdk/src/utils.c:5-64 | the text of an amount is its exact value divided by 10^18 if and only if it has not 18 digits, and then ends neither in a zero behind the point nor in the point |
| Rau.LeadingZero | components/antenna-sdk/src/utils.c:5-64 | digits that begin with a zero are printed as zero, which is their value only when all of them are zeros |

## Left out

- Lengths, positions and times are unbounded integers unless a width matters to the result (sector
  arithmetic, varints, 128-bit numbers): texts of 2^31 characters, a CIS of 2^31 bytes read without a
  limit, and times that overflow 32 bits are not modelled.
- PbPack.PackList: asks for room for the whole encoding, because `pb_pack_ld` and the fixed-width encoders
  copy without a check; buffers that are too short by more than the last byte are not modelled.
- PbProto.GenAction: the signer is any function from bytes to a signature or a failure, and the key string
  is either well formed or not.
- RingBuf.RingBuffer.Read: the caller's buffer is the sequence of bytes delivered.
- RingBuf.RingBuffer.Write: the caller's buffer is a sequence.
- RingSystem.FifoRefinement: one reader and one writer; the abort, reset and wakeup entry points, which
  release a lock the caller may not hold or drop bytes on purpose, are not modelled.
- JsmnRoundTrip.RoundTrip: one value to a text, in the build without strict mode and parent links.
- TopicTheorems.MatcherIsExact: the rule for names that start with '$' (section 4.7.2 of MQTT 3.1.1) is the
  broker's and not part of the matcher.
- OtaReceiver.Receiver.Handle: a buffer holds any payload; the fixed size of the event buffers is not
  modelled.
- SdCis.Card.GetCisData: register masks and command encoding come from a header that is not part of this
  model; registers are a finite memory, zero behind its end.
- SdCis.Card.RwExtended: the argument of the command, which holds register and count, is not modelled, for
  the same reason.
- SdCis.Card.ReadBytes: the destination is the sequence of bytes that arrive.
- SdInit.Driver.CardInit: SD memory cards in SD mode; SPI mode, MMC and SDIO cards, the inactive state,
  register layouts, heap failures and the decoding of CID and SCR are left out, and a wait that never ends
  is a host that gives up.
- SdSectors.Card.WriteSectors: promises nothing about what is transferred for a sector range that wraps
  around 32 bits; buffers of 4 GB and more and heap failures are left out.
- SdSectors.Card.ReadSectors: the same.
- SdSectors.LimitIsExact: sector sizes from 2 on; for 1 the limit itself wraps around to zero, and every
  transfer is refused.
- Features.FeatureProvider.PopulateFeatureData: times do not decrease, the buffer has the size the model
  needs, capture has started, and a partial read delivers whole samples; the generator is a sequence of results.
- Recognizer.RecognizeCommands.ProcessLatestResults: asks for a minimum count of at least one, as the
  firmware uses; with zero the code can divide by zero.
- Rau.Rau2Iotx: for the empty string asks for one character behind the shortest buffer that is accepted,
  because the code writes it.
- Binding of JSON to structures, ABI encoding, hex conversion, key handling and hashing.
- Wi-Fi, MQTT transport, TLS, OTA image handling, display, sensors, inference, and the capture of audio.
