# Verified model of the market-data path

A Dafny model of the software part of the FPGA trading system: the C++ order gateway that
turns a UART byte stream into published best-bid-and-offer records, the Python scripts that read, store
and replay ITCH 5.0 files, the 32-bit ring counters of the AF_XDP listener, the list of the mobile app,
and the fixed-size strings of the shared-memory structures. `dafny verify dfyconfig.toml` checks it all.

## How it is organised

| files | component | form |
|---|---|---|
| `GatewayProtocol`, `GatewayRuns`, `GatewayStop`, `OrderGateway` | the gateway's three threads | a transition system over atomic steps, theorems about all its runs, and the object whose methods are its steps |
| `UartFraming`, `BboParser`, `BboMeaning`, `BboLines`, `BboJson` | byte stream to record to JSON | a byte loop in a class; functions for the parser, what they mean on every line, a printer as their inverse, and a JSON reader with lookup by name |
| `TcpFanout`, `TcpRuns` | the TCP fan-out | a transition system, theorems about all its runs, and the server object |
| `EndToEnd`, `GatewayServer`, `StreamRuns` | the path from the wire to a TCP client | gateway and server as one transition system, and theorems over all components together |
| `Bytes`, `ItchCodec`, `ItchRoundTrip`, `ItchFile` | decoding of ITCH files | functions for the decoders, the encoder of section 4 of the Nasdaq TotalView-ITCH 5.0 specification, and the parser object |
| `ItchImport`, `ItchReplay`, `ItchRewrite` | importer, replay and payload rewrite | objects and in-place loops proved against functions |
| `RingCounters` | `ring_available`, `ring_free` | functions, with runs over unbounded counters |
| `BboView`, `FixedStrings` | mobile list; fixed-size strings | objects proved against functions |

Every thread step that touches a shared variable is one step of a transition system: each locked
section, each single read of `running_`, and the unlocked `bbo_queue_.empty()` of the publisher's loop
condition. Histories (accepted, dropped, published, delivered) are part of the state. The methods of
the classes are proved to be exactly one step each, so the theorems about runs are theorems about them.

Conventions: prices and spreads are integers in ten-thousandths of a dollar, the unit the FPGA sends;
`unsigned long` and `size_t` have 64 bits; a clock is a parameter.

## What the proofs say about the code

- At most one accepted message can be left unpublished by `stop()`. The bound is reached: the publisher
  leaves while the UART thread is inside a read, and what that read delivers stays in the queue.
- Once it has cleared the flag, `stop()` returns: all threads together have at most four steps a queued
  message plus twelve, and never have to wait for a timeout.
- `stop()` returns at its first test exactly when the gateway was never started or its UART thread has
  ended. On a started gateway that no `stop()` has stopped, that thread ended by itself because the
  port was closed, and the publish thread is left unjoined.
- A line is valid if and only if NODATA stands nowhere in it and its markers stand where `parse` looks
  for them; it is then cut at exactly these delimiters: the unsigned lengths never wrap and
  `substr` never throws, on any line whatsoever. Text that is no hex number reads as 0.
- `parse` drops a line with `NODATA` anywhere in it, not only as its symbol; hence the round trip asks
  for symbols without that text. `read_line` returns its line with the newline although its header
  comment says otherwise; the model keeps it.
- `bbo_to_json` does not escape the symbol: its text reads back if and only if the symbol is free of
  quotes, backslashes and control characters. The parser lets a quote through, and a line that shows
  it is given; a symbol of letters and digits is always safe.
- The payload rewrite keeps the meaning of A, P, X, D, S and R messages. In an E or U message bytes 24
  to 31 are digits of numbers, and the message keeps its meaning if and only if none of these bytes is
  the code of a small letter (bytes 27 to 31 for Q, whose symbol lies elsewhere).
- A zero-length frame within the message limit raises an uncaught exception in `parse_file`, and no other
  frame does. The records behind the last full batch then stay in memory: their number is what
  the batch and the parsed records leave over modulo 10,000. A file that shows it is given.
- `stats['total']` is overwritten by each `parse_file` while `by_type` accumulates: they agree exactly
  when nothing had been counted before. The same file parsed twice shows the difference.
- The replay resets only `per_symbol`: the three counters agree after a replay if and only if no
  replayed symbol had been counted before. They do on first use, not when the same rows are replayed twice.
- The comment in `ring_free` says that the clamp covers indices that wrapped several times. It
  does not: a cached consumer exactly one wrap behind a full ring reports every slot free. It is
  safe exactly when the staleness of the cache, reduced to 32 bits, and the unread entries together stay
  below 2^32, which holds in every run that only produces when `ring_free` allows it.

## Model

| member | source | states |
|---|---|---|
| GatewayProtocol.StepKeepsInv | 09-order-gateway-cpp/src/order_gateway.cpp:58-253 | every step of the main, UART and publish thread keeps the thread, queue and shutdown invariants |
| GatewayProtocol.PushKeepsQueueInv | 09-order-gateway-cpp/src/order_gateway.cpp:172-182 | the drop-oldest push keeps the queue the newest suffix of the accepted messages and the drop log exact, full or not |
| GatewayProtocol.WakeKeepsQueueInv | 09-order-gateway-cpp/src/order_gateway.cpp:213-228 | waking for data, shutdown or timeout and taking the head decides the fate of exactly the next accepted message |
| GatewayProtocol.StepKeepsShutdownInv | 09-order-gateway-cpp/src/order_gateway.cpp:94-122 | once the publisher has left, queued messages and pushes still to come are at most one |
| GatewayRuns.RunInv | 09-order-gateway-cpp/src/order_gateway.cpp:58-253 | the invariant holds in every state of every interleaving |
| GatewayRuns.Conservation | 09-order-gateway-cpp/src/order_gateway.cpp:169-237 | in every reachable state, accepted = published + dropped + in flight + queued, as multisets |
| GatewayRuns.OrderPreserved | 09-order-gateway-cpp/src/order_gateway.cpp:169-237 | the queue is the newest suffix of the accepted sequence, never above 10,000; published and dropped are in-order subsequences |
| GatewayRuns.HistoriesGrow | 09-order-gateway-cpp/src/order_gateway.cpp:153-253 | nothing accepted, decided or published is ever taken back or reordered |
| GatewayRuns.DropNeedsFullQueue | 09-order-gateway-cpp/src/order_gateway.cpp:175-179 | only a push into a full queue drops |
| GatewayRuns.DroppedIffOverrun | 09-order-gateway-cpp/src/order_gateway.cpp:175-181 | message i is lost if and only if it was still queued at the step that accepted message i + 10,000 |
| GatewayRuns.DecidingStep | 09-order-gateway-cpp/src/order_gateway.cpp:169-228 | every message that left the queue did so at one step of the run, with the messages before it already gone |
| GatewayRuns.AtMostOnePushAfterStop | 09-order-gateway-cpp/src/order_gateway.cpp:94-116 | after the flag is cleared it stays clear and at most one more message is accepted, whatever the interleaving |
| GatewayRuns.NothingLeftAtPublisherExit | 09-order-gateway-cpp/src/order_gateway.cpp:207-249 | when the publisher leaves its loop, every message accepted so far was published or dropped as the oldest |
| GatewayRuns.PublisherStaysDone | 09-order-gateway-cpp/src/order_gateway.cpp:207-253 | after its exit the publisher publishes and decides nothing more |
| GatewayRuns.StrandedExactlyTheLatePush | 09-order-gateway-cpp/src/order_gateway.cpp:94-122 | what stays queued is exactly what was accepted after the publisher's last look: at most one message, none if the UART thread had ended |
| GatewayRuns.StopJoinsBoth | 09-order-gateway-cpp/src/order_gateway.cpp:113-136 | after both joins both threads have ended, the flag is clear, and all but at most one accepted message was published or dropped |
| GatewayRuns.EarlyReturnIffNoUartThread | 09-order-gateway-cpp/src/order_gateway.cpp:53-99 | stop(), also from the destructor, returns at its first test if and only if the gateway was never started or its UART thread has ended; then nothing changes but for a started gateway being left unjoined |
| GatewayRuns.StopCanReturnEarly | 09-order-gateway-cpp/src/order_gateway.cpp:94-199 | such a return from a started gateway is reachable, with the publish thread still running |
| GatewayRuns.PublisherCanLeaveDuringRead | 09-order-gateway-cpp/src/order_gateway.cpp:153-249 | a reachable state in which the publisher has left while a read is still open |
| GatewayRuns.OneMessageCanBeStranded | 09-order-gateway-cpp/src/order_gateway.cpp:94-138 | the bound of one stranded message is reached, for any message |
| GatewayRuns.DrainNeverBlocks | 09-order-gateway-cpp/src/order_gateway.cpp:207-249 | after the UART thread has ended the publisher can always step without its timeout |
| GatewayRuns.DrainTerminates | 09-order-gateway-cpp/src/order_gateway.cpp:207-249 | from there any run spends at most four publisher steps a queued message plus three, publishing what was left, in order |
| GatewayStop.UartNeverBlocks | 09-order-gateway-cpp/src/order_gateway.cpp:153-206 | until the UART thread has ended, one of its steps is possible, a retried read among them |
| GatewayStop.UartTerminates | 09-order-gateway-cpp/src/order_gateway.cpp:153-206 | once the flag is clear, the UART thread takes at most three more steps in any run, whatever its read delivers or however it fails, and then has ended |
| GatewayStop.PublisherNeverBlocks | 09-order-gateway-cpp/src/order_gateway.cpp:207-249 | the publisher can always step, if need be by its timeout |
| GatewayStop.StopReturns | 09-order-gateway-cpp/src/order_gateway.cpp:94-138 | stop() returns: after the flag is cleared every run reaches the end of both joins within four steps a queued message plus twelve, of all threads together, and until then some thread can step without a timeout |
| OrderGatewayObject.OrderGateway.MarkRunning | 09-order-gateway-cpp/src/order_gateway.cpp:58-66 | the step that sets running_ and clears stopped_ |
| OrderGatewayObject.OrderGateway.StopFindsFlagClear | 09-order-gateway-cpp/src/order_gateway.cpp:94-99 | the first test of stop(), before start(), while started and after a stop, and when it returns |
| OrderGatewayObject.OrderGateway.StopClearFlag | 09-order-gateway-cpp/src/order_gateway.cpp:108-108 | the step that clears running_ |
| OrderGatewayObject.OrderGateway.MarkStopped | 09-order-gateway-cpp/src/order_gateway.cpp:119-136 | the second join and the stopped mark |
| OrderGatewayObject.OrderGateway.UartLoopTest | 09-order-gateway-cpp/src/order_gateway.cpp:157-157 | the UART loop goes on exactly when it reads the flag set |
| OrderGatewayObject.OrderGateway.UartPortClosed | 09-order-gateway-cpp/src/order_gateway.cpp:194-199 | a closed port clears the flag and ends the UART thread |
| OrderGatewayObject.OrderGateway.Push | 09-order-gateway-cpp/src/order_gateway.cpp:172-182 | the locked push: append, without the oldest message when 10,000 are queued, and one protocol step |
| OrderGatewayObject.OrderGateway.ReadRunning | 09-order-gateway-cpp/src/order_gateway.cpp:207-207 | the first half of the publisher's loop condition |
| OrderGatewayObject.OrderGateway.ReadEmpty | 09-order-gateway-cpp/src/order_gateway.cpp:207-207 | the second half, read outside the lock |
| OrderGatewayObject.OrderGateway.WaitAndTake | 09-order-gateway-cpp/src/order_gateway.cpp:213-228 | the locked wait takes the head if there is one |
| OrderGatewayObject.OrderGateway.DrainOne | 09-order-gateway-cpp/src/order_gateway.cpp:207-249 | one iteration after shutdown publishes exactly the head |
| OrderGatewayObject.OrderGateway.DrainLoop | 09-order-gateway-cpp/src/order_gateway.cpp:207-249 | the whole loop after the UART thread has ended: it ends, the queue empty, its contents published in order |
| UartFraming.UartReader.ReadLine | 09-order-gateway-cpp/src/uart_reader.cpp:46-89 | the byte loop returns the text up to and including the first newline without carriage returns, fails on an empty read, and discards a cut line |
| UartFraming.ReadOneIsLine | 09-order-gateway-cpp/src/uart_reader.cpp:65-86 | a returned line holds one newline, at its end, and no carriage return |
| UartFraming.ReadWithoutNewline | 09-order-gateway-cpp/src/uart_reader.cpp:71-88 | an error before a newline fails the read if nothing but carriage returns came, and throws away what came otherwise |
| UartFraming.FramingIsLossless | 09-order-gateway-cpp/src/uart_reader.cpp:46-89 | the lines and the tail concatenate to the stream without carriage returns, every piece being one line |
| UartFraming.LinesCons | 09-order-gateway-cpp/src/uart_reader.cpp:46-89 | a complete physical line in front of any stream is the first line read |
| UartFraming.CutKeepsLines | 09-order-gateway-cpp/src/uart_reader.cpp:46-89 | cutting a stream anywhere leaves a prefix of its lines |
| CppText.FindIsFirst | 09-order-gateway-cpp/src/bbo_parser.cpp:26-80 | a successful find is the first match from its starting position |
| CppText.TrimPadded | 09-order-gateway-cpp/src/bbo_parser.cpp:129-144 | trimming blanks around a text with no blank at either end gives the text |
| BboMeaning.TrimMeaning | 09-order-gateway-cpp/src/bbo_parser.cpp:129-144 | trimming takes off the six blank characters on both sides, and all of them |
| CppText.Stoul16OfHex | 09-order-gateway-cpp/src/bbo_parser.cpp:100-127 | base-16 conversion of 1 to 8 hex digits is the positional value and fits 32 bits |
| BboMeaning.StoulMeaning | 09-order-gateway-cpp/src/bbo_parser.cpp:100-127 | the conversion reads optional blanks, a sign, an optional 0x or 0X and the longest run of hex digits, wraps a negative value in 64 bits and fails on a larger one |
| BboMeaning.NoDigitsIsZero | 09-order-gateway-cpp/src/bbo_parser.cpp:100-127 | a text without a digit where one is due gives price 0 and 0 shares |
| BboMeaning.LongHex | 09-order-gateway-cpp/src/bbo_parser.cpp:100-127 | hex text of any length: over 64 bits it reads as 0, and shares keep the low 32 bits |
| BboMeaning.HexDigitsMeaning | 09-order-gateway-cpp/src/bbo_parser.cpp:100-127 | hex digits of either case have their values |
| BboMeaning.HexValueMeaning | 09-order-gateway-cpp/src/bbo_parser.cpp:100-127 | the first digit is the most significant |
| BboParser.DelimitedIsSafe | 09-order-gateway-cpp/src/bbo_parser.cpp:26-72 | a field whose closing delimiter cannot start inside the opening one is exactly the text between them: no wrap, no exception |
| BboParser.SpreadIsSafe | 09-order-gateway-cpp/src/bbo_parser.cpp:75-86 | the spread field runs from its marker to the first delimiter or the end of the line: no wrap, no exception |
| BboParser.ParseIsIndexSafe | 09-order-gateway-cpp/src/bbo_parser.cpp:26-86 | all six fields of every possible line are cut in range |
| BboMeaning.ValidIffMarkers | 09-order-gateway-cpp/src/bbo_parser.cpp:12-98 | a line is valid if and only if NODATA stands nowhere in it and `BBO:` with a later `]`, both quotes with their delimiters and some `Spr:0x` stand where they are searched |
| BboMeaning.ParseMeaning | 09-order-gateway-cpp/src/bbo_parser.cpp:12-98 | the record of a valid line is read from the six texts between the first matches of its delimiters |
| BboMeaning.TextsGiveCuts | 09-order-gateway-cpp/src/bbo_parser.cpp:26-86 | a line whose texts are extracted has all its delimiters at first matches |
| BboParser.HexFieldExact | 09-order-gateway-cpp/src/bbo_parser.cpp:100-127 | a hex field of at most eight digits is read exactly, as price and as share count; an empty one as 0 |
| BboLines.NoDataAbsent | 09-order-gateway-cpp/src/bbo_parser.cpp:17-21 | no printed line of a well-formed record holds NODATA across its fields |
| BboLines.NoDataInvalid | 09-order-gateway-cpp/src/bbo_parser.cpp:17-21 | the no-data line is rejected |
| BboLines.PrintedLineParses | 09-order-gateway-cpp/src/bbo_parser.cpp:12-98 | parsing a printed line, in either documented form, gives back the record, for any symbol of visible characters without small letter, closing bracket or NODATA |
| BboLines.ItemIsOneLine | 09-order-gateway-cpp/src/uart_reader.cpp:46-89 | an item ended by CR LF or LF is read as one line, its text and a newline |
| BboLines.StreamRoundTrip | 09-order-gateway-cpp/src/order_gateway.cpp:157-184 | printing any records with no-data lines anywhere and either line end, then reading and parsing, gives back exactly the records in order, timestamps aside |
| BboJson.FixedReadsBack | 09-order-gateway-cpp/src/bbo_parser.cpp:172-181 | a price printed with four decimals reads back as the same ten-thousandths |
| BboJson.PercentIsNearest | 09-order-gateway-cpp/src/bbo_parser.cpp:163-165 | the printed percentage is the nearest thousandth of a percent to spread over mid price |
| BboJson.JsonTree | 09-order-gateway-cpp/src/bbo_parser.cpp:158-186 | the JSON text of a safe symbol is one object with exactly the members type, symbol, timestamp, bid, ask and spread and their values, in this order |
| BboJson.MembersAreTheRecord | 09-order-gateway-cpp/src/bbo_parser.cpp:158-186 | a client that looks members up by name finds "bbo", the symbol, the time, both prices and share counts, the spread and its percentage |
| BboJson.JsonRoundTrip | 09-order-gateway-cpp/src/bbo_parser.cpp:158-186 | a JSON reader that looks members up by name reads back the record and its percentage if and only if the symbol needs no escaping |
| BboJson.JsonKeepsNumbers | 09-order-gateway-cpp/src/bbo_parser.cpp:12-186 | for any line that yields five hex fields of at most eight digits and a safe symbol, the JSON numbers are exactly the integers of the fields |
| EndToEnd.QuotedSymbolIsCorrupted | 09-order-gateway-cpp/src/bbo_parser.cpp:12-186 | a printed line whose symbol holds a quote parses, and the JSON text of its record does not read back |
| EndToEnd.CorruptedLine | 09-order-gateway-cpp/src/bbo_parser.cpp:12-186 | such a line |
| TcpFanout.StepKeepsInv | 09-order-gateway-cpp/src/tcp_server.cpp:80-159 | every accept, broadcast, post and write keeps each client's delivered, pending and missed messages in their places |
| TcpRuns.RunInv | 09-order-gateway-cpp/src/tcp_server.cpp:80-159 | the invariant holds in every state of every interleaving |
| TcpRuns.PruningRemovesNothing | 09-order-gateway-cpp/src/tcp_server.cpp:122-137 | the list holds exactly the open clients, so the pruning pass of a broadcast never removes one |
| TcpRuns.HandlersNeverWait | 09-order-gateway-cpp/src/tcp_server.cpp:80-159 | in every reachable state, during a broadcast too, a client can be accepted and the oldest handler can run |
| TcpFanout.WithNewlineMeaning | 09-order-gateway-cpp/src/tcp_server.cpp:108-114 | a text sent is the message, ended by one added newline unless empty or ended by one |
| TcpRuns.ClientKeeps | 09-order-gateway-cpp/src/tcp_server.cpp:80-159 | what was written to a client is never taken back, and nothing is written after its close |
| TcpRuns.DeliveryIsContiguous | 09-order-gateway-cpp/src/tcp_server.cpp:80-159 | a client received one gap-free, duplicate-free, in-order run of the broadcasts, from the first begun after it was added, and all of them once nothing is outstanding |
| TcpRuns.FirstFailureEndsDelivery | 09-order-gateway-cpp/src/tcp_server.cpp:142-158 | the run ends right before the message of the first failed write, and no broadcast begun after the close is addressed to the client |
| TcpRuns.TcpServer.OnAccept | 09-order-gateway-cpp/src/tcp_server.cpp:85-99 | the accept handler adds the client, as one step |
| TcpRuns.TcpServer.PruneAndCopy | 09-order-gateway-cpp/src/tcp_server.cpp:108-137 | the locked section of broadcast copies the open clients, as one step |
| TcpRuns.TcpServer.PostNext | 09-order-gateway-cpp/src/tcp_server.cpp:140-144 | one handler is posted for the next client of the copy |
| TcpRuns.TcpServer.RunHandler | 09-order-gateway-cpp/src/tcp_server.cpp:142-158 | the oldest handler writes its message, and on an error closes and removes its client |
| TcpRuns.Prune | 09-order-gateway-cpp/src/tcp_server.cpp:122-137 | the erasing loop leaves and copies exactly the open clients, in order |
| TcpRuns.Remove | 09-order-gateway-cpp/src/tcp_server.cpp:153-157 | find and erase take out the first occurrence only |
| EndToEnd.AcceptedAreTheValidLines | 09-order-gateway-cpp/src/order_gateway.cpp:157-184 | in every reachable state the accepted messages, with the one about to be pushed, are exactly the valid records of the lines read so far |
| EndToEnd.AcceptedAreTheRecords | 09-order-gateway-cpp/src/order_gateway.cpp:157-184 | fed a printed stream, under any interleaving, the queue receives exactly the printed records of the lines read |
| EndToEnd.PublishedComeFromTheStream | 09-order-gateway-cpp/src/order_gateway.cpp:153-253 | what is published is an in-order subsequence of the printed records |
| EndToEnd.ShortStreamsLoseNothing | 09-order-gateway-cpp/src/order_gateway.cpp:175-181 | a stream of at most 10,000 records is never dropped from, whatever the threads do |
| EndToEnd.StoppedGatewayPublishedTheStream | 09-order-gateway-cpp/src/order_gateway.cpp:94-138 | after stop() has joined, such a stream was published up to the lines read, in order, but for at most one last record |
| EndToEnd.JsonIsPrintable | 09-order-gateway-cpp/src/bbo_parser.cpp:158-186 | the JSON text of a safe symbol has no control character, so it is one line of a newline-framed stream |
| EndToEnd.TextsReadBack | 09-order-gateway-cpp/src/tcp_server.cpp:108-114 | newline-framed JSON texts, concatenated, split and read, give back the records, whatever incomplete line follows |
| EndToEnd.CutTextAddsNothing | 09-order-gateway-cpp/src/tcp_server.cpp:142-146 | a text broken off anywhere behind complete ones, as by a failed write, adds nothing to what is read |
| EndToEnd.CutKeepsReads | 09-order-gateway-cpp/src/tcp_server.cpp:142-146 | a client that reads at any cut of its bytes reads a prefix |
| EndToEnd.ClientDecodesARun | 09-order-gateway-cpp/src/tcp_server.cpp:80-159 | from its bytes, including those of a write that broke off, a client decodes one gap-free run of the records broadcast, starting with the first after it joined, and at any cut a prefix of it; all of them when it is open and nothing is outstanding |
| GatewayServer.StepKeepsInv | 09-order-gateway-cpp/src/order_gateway.cpp:255-268 | any step of either system keeps the broadcast texts in step with the published messages |
| GatewayServer.BroadcastsArePublished | 09-order-gateway-cpp/src/order_gateway.cpp:230-268 | in every reachable state of both systems the texts broadcast are the JSON texts of the published messages, and of the one handed over, each exactly once, in order; and no broadcast outlives the publishing of its message |
| GatewayServer.SystemsAreFree | 09-order-gateway-cpp/src/order_gateway.cpp:230-268 | neither system holds the other up except for the publisher's own call of broadcast, which can always go on |
| GatewayServer.ClientReadsTheStream | 09-order-gateway-cpp/src/order_gateway.cpp:153-268 | for every stream and every interleaving of the gateway's threads and the server, a client decodes from its bytes one gap-free run of the messages broadcast, from the first after it was accepted, all of them when it is open and nothing is outstanding, and an in-order subsequence of the records printed |
| GatewayServer.EarlyClientReadsEverything | 09-order-gateway-cpp/src/order_gateway.cpp:58-268 | a client accepted before start(), open and with nothing outstanding after stop() has joined, has decoded the records of all lines read, in order, but for at most one last one, of every stream of at most 10,000 records |
| StreamRuns.EveryStreamCanBeRead | 09-order-gateway-cpp/src/order_gateway.cpp:58-268 | for every stream some run of both systems reads it to the end and stops, after which an open client has decoded exactly its records |
| StreamRuns.EveryStreamCanBePublished | 09-order-gateway-cpp/src/order_gateway.cpp:58-253 | and the gateway by itself has published exactly its records |
| Bytes.FromToBE | scripts/itchfile_to_db.py:226-229 | unpacking inverts big-endian packing |
| Bytes.ToFromBE | scripts/itchfile_to_db.py:226-229 | packing inverts unpacking: a field fixes its bytes |
| Bytes.BigEndian | scripts/itchfile_to_db.py:226-229 | the first byte is the most significant |
| Bytes.StripPadded | scripts/itchfile_to_db.py:272-272 | stripping a blank-padded stripped text gives the text |
| Bytes.StripMeaning | scripts/itchfile_to_db.py:272-272 | stripping takes off the ten blank bytes on both sides, and all of them |
| ItchRoundTrip.RoundTripS | scripts/itchfile_to_db.py:224-237 | decoding an encoded system event |
| ItchRoundTrip.RoundTripR | scripts/itchfile_to_db.py:239-262 | decoding an encoded stock directory entry, whatever its undecoded bytes |
| ItchRoundTrip.RoundTripA | scripts/itchfile_to_db.py:264-285 | decoding an encoded add order |
| ItchRoundTrip.RoundTripE | scripts/itchfile_to_db.py:287-304 | decoding an encoded execution |
| ItchRoundTrip.RoundTripX | scripts/itchfile_to_db.py:306-321 | decoding an encoded cancel |
| ItchRoundTrip.RoundTripD | scripts/itchfile_to_db.py:323-336 | decoding an encoded delete |
| ItchRoundTrip.RoundTripU | scripts/itchfile_to_db.py:338-357 | decoding an encoded replacement |
| ItchRoundTrip.RoundTripP | scripts/itchfile_to_db.py:359-382 | decoding an encoded trade |
| ItchRoundTrip.RoundTripQ | scripts/itchfile_to_db.py:384-405 | decoding an encoded cross trade |
| ItchRoundTrip.DecodeInvertsEncode | scripts/itchfile_to_db.py:192-405 | every well-formed message of the nine types has its specified length and decodes to its own fields and payload |
| ItchRoundTrip.DecodesIff | scripts/itchfile_to_db.py:192-405 | a payload of a known type is decoded if and only if it is long enough (27 bytes for R) and its symbol is ASCII |
| ItchRoundTrip.RecordedIff | scripts/itchfile_to_db.py:192-222 | of payloads of any type, exactly those of an unknown type, or long enough with an ASCII symbol, give a record; it keeps the payload, and the type of an unknown one |
| ItchRoundTrip.FieldsDeterminePayload | scripts/itchfile_to_db.py:224-405 | except for R, the decoded fields fix the payload up to tracking number and symbol padding |
| ItchRoundTrip.DirectoryFillerIsLost | scripts/itchfile_to_db.py:248-250 | for R they do not: two directory entries that differ in the skipped byte decode alike |
| ItchFile.ReadFrame | scripts/itchfile_to_db.py:112-121 | one framing step: the next payload, or none at the end or at an incomplete frame |
| ItchFile.FramesInvertFrameAll | scripts/itchfile_to_db.py:112-121 | framing inverts length-prefixing and concatenation, with any tail that holds no frame |
| ItchFile.TruncationKeepsRecords | scripts/itchfile_to_db.py:112-130 | cutting any file anywhere leaves a prefix of its records |
| ItchFile.FileRoundTrip | scripts/itchfile_to_db.py:108-130 | encoding, framing and concatenating any well-formed messages, the last frame cut anywhere, then parsing gives back every field of the complete ones, in order |
| ItchFile.RecordsConservePayloads | scripts/itchfile_to_db.py:123-130 | the records of any file hold exactly its recorded payloads, unchanged and in order, those of unknown types included |
| ItchFile.StopsAtUnique | scripts/itchfile_to_db.py:108-121 | the number of messages a parse processes is fixed by the file and the limit |
| ItchFile.LimitIsExact | scripts/itchfile_to_db.py:108-110 | without empty frames exactly min(max_messages, number of frames) messages are processed, all for none or 0, none for a negative limit |
| ItchFile.ItchParser.FlushBatch | scripts/itchfile_to_db.py:407-424 | handing off the batch loses and reorders nothing |
| ItchFile.ItchParser.Accept | scripts/itchfile_to_db.py:124-137 | one message adds its record, if it decodes, behind all earlier ones |
| ItchFile.CrashesIff | scripts/itchfile_to_db.py:108-124 | the loop stops by the exception if and only if the file holds an empty frame before which, and at which, the limit is not reached |
| ItchFile.ItchParser.ParseFile | scripts/itchfile_to_db.py:93-148 | stored and pending records grow by exactly the records of the processed frames, in non-empty batches of at most 10,000; it raises if and only if an empty frame comes within the limit, and then exactly the remainder modulo 10,000 stays pending, otherwise nothing; the exact stopping point; type counts grow by the messages processed and agree with the total exactly on first use |
| ItchFile.RecordStaysUnflushed | scripts/itchfile_to_db.py:112-147 | for any message a file whose one record is parsed and never stored |
| ItchFile.CountsDisagree | scripts/itchfile_to_db.py:124-133 | for any message a file that, parsed twice, leaves type counts of 2 and a total of 1 |
| ItchImport.ReadBinary | scripts/itch_mysql_importer.py:167-215 | the rows read are the messages of the complete frames, a microsecond apart, up to the limit |
| ItchImport.RowsAreMessages | scripts/itch_mysql_importer.py:185-215 | the rows are the payloads of at least two bytes, in order, one each, with their first byte as type, up to a hundred million and one |
| ItchImport.SymbolColumn | scripts/itch_mysql_importer.py:153-165 | a row has a symbol if and only if its payload has 32 bytes, is of one of eight types and has a visible ASCII byte among bytes 24 to 31; their stripped text, if these are ASCII |
| ItchImport.RowOfMessage | scripts/itch_mysql_importer.py:146-165 | the row of an encoded message: type, payload, the symbol of A and P, none for S, E, X and D |
| ItchImport.FileStatsAgree | scripts/itch_mysql_importer.py:292-299 | for rows in time order, one file's count, first and last are count, least and greatest |
| ItchImport.RowsAscend | scripts/itch_mysql_importer.py:202-206 | rows of a binary file are in time order |
| ItchImport.MergeAgrees | scripts/itch_mysql_importer.py:374-389 | merging by add, LEAST and GREATEST is a homomorphism of concatenation |
| ItchImport.Importer.UpdateSymbolStats | scripts/itch_mysql_importer.py:369-389 | the upserts of a file merge its statistics into the table, in whatever order they run |
| ItchImport.Importer.ImportFile | scripts/itch_mysql_importer.py:263-328 | after any imports of binary files each symbol's row is count, least and greatest timestamp over all rows imported; the inserted batches are the rows in order, all full but the last of a file; type counts sum to the total |
| ItchReplay.RowTotal | scripts/itch_live_feed.py:177-177 | tuple order is total |
| ItchReplay.RowAntisymmetric | scripts/itch_live_feed.py:177-177 | and antisymmetric |
| ItchReplay.RowTransitive | scripts/itch_live_feed.py:177-177 | and transitive |
| ItchReplay.RowMeaning | scripts/itch_live_feed.py:177-177 | the time decides, then symbol, type and payload, each by its first difference, a prefix first |
| ItchReplay.SentIsPrefix | scripts/itch_live_feed.py:175-191 | what was sent is a prefix of the one sorted order of the loaded rows |
| ItchReplay.PacingBound | scripts/itch_live_feed.py:180-188 | every sleep lies in [0, 0.5] and they sum to at most the scaled span, with equality exactly when no scaled gap exceeds half a second |
| ItchReplay.SleepMeaning | scripts/itch_live_feed.py:180-188 | a gap of half a second or more sleeps half a second, a shorter one its length |
| ItchReplay.GapUnit | scripts/itch_live_feed.py:182-182 | at speed 1 timestamps 10^9 apart are one second apart, and the speed divides |
| ItchReplay.SleepIsSpanLessExcess | scripts/itch_live_feed.py:180-188 | the time slept is exactly the scaled span less what the gaps above half a second exceed it by |
| ItchReplay.ResetLoses | scripts/itch_live_feed.py:156-157 | what the reset of per_symbol removes from its sum |
| ItchReplay.CountersAgreeIff | scripts/itch_live_feed.py:156-196 | counters that agreed before a replay agree after it if and only if no replayed symbol had been counted |
| ItchReplay.ReplayTwice | scripts/itch_live_feed.py:155-197 | any rows replayed twice by one simulator leave total_sent at twice the number of rows and per_symbol at once |
| ItchReplay.LiveFeedSimulator.Replay | scripts/itch_live_feed.py:155-201 | whenever it is interrupted, also before it begins, the sent rows are a prefix of the sorted order, all of them if not interrupted; the sleep is the sum of the capped gaps; the three counters have grown by exactly the rows sent |
| ItchReplay.LiveFeedSimulator.ResetSymbols | scripts/itch_live_feed.py:156-157 | the counters of the symbols replayed are set to zero |
| ItchRewrite.RewriteInPlace | scripts/itch_live_feed.py:270-279 | the in-place loop leaves every byte outside 24 to 31 alone, turns small letters among these to capitals for types A, E, X, D, U, P and Q and no others, computes the rewrite the other theorems are about, and raises on an empty payload |
| ItchRewrite.RewriteIsIdempotent | scripts/itch_live_feed.py:272-277 | a second rewrite changes nothing, and when the first does |
| ItchRewrite.RewriteUppercasesTheSymbol | scripts/itch_live_feed.py:272-277 | for A and P payloads of any length, rewriting then decoding is decoding with the symbol upper-cased |
| ItchRewrite.RewriteLeavesAlone | scripts/itch_live_feed.py:272-277 | full-length X, D, S and R payloads are sent unchanged |
| ItchRewrite.RewritePreservesNumbersIff | scripts/itch_live_feed.py:272-277 | a full-length E or U message keeps its fields if and only if bytes 24 to 31 hold no small letter |
| ItchRewrite.RewriteCorruptsMatchNumber | scripts/itch_live_feed.py:272-277 | an execution whose match number ends in a small-letter byte is sent with another one |
| ItchRewrite.RewritePreservesCrossIff | scripts/itch_live_feed.py:272-277 | a full-length cross trade keeps all but its symbol if and only if bytes 27 to 31 hold no small letter |
| RingCounters.WrapAroundSafe | 14-order-gateway-cpp/include/xdp_listener.h:132-150 | over any run of legal produce and consume steps, wrapping any number of times, ring_available is the true unread count and ring_free at most the true room, exactly it when the cache is current |
| RingCounters.StaleCacheSafeIff | 14-order-gateway-cpp/include/xdp_listener.h:136-150 | for any cached consumer from the past, ring_free is safe if and only if its staleness modulo 2^32 and the unread entries add up to less than 2^32 |
| RingCounters.RecentCacheIsSafe | 14-order-gateway-cpp/include/xdp_listener.h:136-150 | a cache less than a full wrap behind is safe |
| RingCounters.WrappedCacheOverruns | 14-order-gateway-cpp/include/xdp_listener.h:143-147 | a cache one wrap behind a full ring reports the whole ring free |
| RingCounters.SlotsAreDistinct | 14-order-gateway-cpp/include/xdp_listener.h:70-98 | unread entries never share a slot, across any wrap, for a size that divides 2^32 |
| BboView.ArrivalsAreDistinct | 11-mobile-app/ViewModels/BboViewModel.cs:108-125 | the reference list holds each symbol received once, and no other |
| BboView.ArrivalsInOrder | 11-mobile-app/ViewModels/BboViewModel.cs:122-125 | and in the order of first arrival |
| BboView.LatestIsLast | 11-mobile-app/ViewModels/BboViewModel.cs:108-119 | the value refined is the last message of a symbol |
| BboView.SymbolsAreDistinct | 11-mobile-app/ViewModels/BboViewModel.cs:108-125 | a list that refines the messages has distinct symbols |
| BboView.CountIsExact | 11-mobile-app/ViewModels/BboViewModel.cs:128-128 | below 2^31 messages the count is the number of messages; the next one makes it negative |
| BboView.BboViewModel.OnBboReceived | 11-mobile-app/ViewModels/BboViewModel.cs:105-137 | a message keeps the list refining the map, the count and the selection rule; the selected symbol does not change |
| BboView.BboViewModel.ClearData | 11-mobile-app/ViewModels/BboViewModel.cs:97-103 | clearing empties list, count and selection |
| BboView.BboViewModel.Tap | 11-mobile-app/MainPage.xaml.cs:15-24 | a tap selects the tapped entry |
| FixedStrings.CStringMeaning | common/bbo_data.h:42-44 | a C string is the prefix up to the first NUL |
| FixedStrings.SetThenGet | common/bbo_data.h:36-44 | set then get gives the prefix up to the first NUL or capacity minus one; the buffer is terminated; the round trip is the identity if and only if the string is NUL-free and shorter than the capacity |
| FixedStrings.StoredBytes | common/bbo_data.h:36-44 | a NUL-free string that does not fit is cut to capacity minus one characters, and every byte behind what is kept is NUL |
| FixedStrings.GetThenSet | common/bbo_data.h:36-44 | setting what was read back changes no byte |
| FixedStrings.SetBuffer | common/order_data.h:37-40 | strncpy and the terminator, in place: the whole buffer is determined by the string, so no stale byte survives |
| FixedStrings.GetBuffer | common/order_data.h:47-49 | reading stops at the first NUL |
| FixedStrings.BboData.SetSymbol | common/bbo_data.h:36-39 | the 16-byte symbol holds the stored string |
| FixedStrings.BboData.GetSymbol | common/bbo_data.h:42-44 | and is read up to its terminator |
| FixedStrings.OrderRequest.SetOrderId | common/order_data.h:37-40 | the 32-byte order id is set, the symbol untouched |
| FixedStrings.OrderRequest.SetSymbol | common/order_data.h:42-45 | the symbol is set, the order id untouched |
| FixedStrings.FillNotification.SetOrderId | common/order_data.h:84-87 | the order id is set, the other arrays untouched |
| FixedStrings.FillNotification.SetExecId | common/order_data.h:89-92 | the 32-byte execution id is set, the other arrays untouched |
| FixedStrings.FillNotification.SetSymbol | common/order_data.h:94-97 | the symbol is set, the other arrays untouched |

## Left out

- Floating-point rounding: prices and spreads are exact integers in ten-thousandths, the spread percentage is rounded half up, sleeps and speeds are reals.
- A second `start()` while running, which returns at once.
- Starting the gateway again after `stop()`: one start/stop cycle is modelled, with further calls of `stop()` before and after it. What destroying the unjoined thread objects does after an early return is not modelled.
- The data race of the unlocked `bbo_queue_.empty()`: it is an atomic read here.
- Which exceptions a publish raises, and the MQTT, Kafka and CSV branches of publishing: a publish always completes.
- Latency measurement, console output, CSV logging (its two decimals are lossy) and clocks.
- Characters outside ASCII in `std::isspace`, whose treatment depends on the locale.
- Boost.Asio internals: handlers of one io_context run first in, first out on one thread, a closed socket fails every later write, and a socket is a number rather than a shared pointer. The server's own shutdown is not modelled.
- OrderGatewayObject.OrderGateway.Publish: touches no shared field of the gateway, so it is a step of the histories alone; what reaches a TCP client is stated by GatewayServer.ClientReadsTheStream.
- EndToEnd.AcceptedAreTheRecords: the stream arrives whole, so read errors fall between lines; for lines cut by an error, EndToEnd.AcceptedAreTheValidLines speaks about whatever lines the reads returned.
- SQL: binding of parameters (the insert names `:trade_id`, which the row supplies only as an empty value), collation of `VARCHAR(8)` keys, overflow of `INT UNSIGNED`, indexes and transactions.
- ItchImport.Importer.ImportFile: binary files only; the pcap path, whose timestamps come from a running clock, is left out.
- The symbol column of the importer is whatever bytes 24 to 31 hold, also for types that carry no symbol there; no meaning is claimed for it.
- ItchReplay.LiveFeedSimulator.Replay: takes the loaded rows as given, with symbols among those asked for, and the heap by its contract (the least row leaves first); the query, its limit per symbol and the delay between symbols are left out.
- Scapy and the packet around a payload.
- RingCounters.WrapAroundSafe: the bodies that move the counters are declared but not shown in the repository; a step is any move that the two helpers allow.
- The numeric fields of the shared-memory structures, which have no helpers.
- BboView.BboViewModel.OnBboReceived: entries are values, so two entries that are equal in every field are not told apart, as references are in C#.
- The VHDL sources, the disruptor, the market maker and the order execution engine, the mobile app's connection handling: not part of this model.
