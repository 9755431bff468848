# Verified model of the apix message bus and its support library

apix is a poll-driven message bus. Bytes from many descriptors wait in compacting buffers, are framed
and parsed as SRRP packets, and become pending requests, responses and stations; a CRC-16 correlates a
response with the request it answers. This project models that path from the bytes to the sends, and
the library modules beside it (circular lists, ring buffer, timers, JSON path lookup, error table), and
proves what they keep over every input and every run.

`dafny verify dfyconfig.toml` checks everything.

## How it is built

| files | what they hold |
|---|---|
| `Options`, `Sequences`, `Bytes`, `Hex`, `Decimal`, `Binary` | small shared notions: C strings, searches, number formats |
| `Gf2`, `Crc16Table`, `Crc16` | polynomial division over two elements, the table, the checksum loops |
| `Srrp`, `WireText`, `SrrpRoundTrip`, `Resynchronisation` | readers and writers; the texts themselves; what is read back; where a reader that lost the thread looks next |
| `Framing`, `Inbox`, `TimedFraming`, `Recovery` | the parse loop on unread bytes; a descriptor over timed polls; exactly when a stream of packets comes out whole, and what is saved from behind junk |
| `ByteQueue`, `Atbuf`, `Ringbuf` | the byte queue, and the two buffers that implement it in an array |
| `BusModel`, `BusLife`, `BusSafety`, `BusTheorems`, `Traffic` | the bus as a step system on values, its invariant, and what follows over every run |
| `Destinations`, `BusStations`, `StationLife` | which station a header names; the station list as a map; which stations are registered over every run, and what that means for a request |
| `Forwarding`, `Correlation`, `StreamQueues`, `ByteRuns` | from a forwarded request to the relayed answer, from packets and from bytes in pieces |
| `ApiBus` | the bus as the source runs it, loops over lists and buffers, proved to make exactly those steps |
| `CircularList`, `Timer`, `TimerRuns`, `ErrTable` | the remaining library modules |
| `Json`, `JsonNumbers`, `JsonPaths`, `JsonTree`, `JsonLookup`, `JsonAnswers` | path lookup in text, trees, and what the lookup means on the text of a tree |

Code that changes things in place is a class or a method with loops, proved against a function on
values; the theorems are about those functions, so they hold of the methods. Recurring devices:

- Every call of `apibus_send` is an event in a ghost trace; each accepted request gets a number, which
  exists only in the model.
- A poll uses one clock reading, in seconds, and a run is any sequence of polls whose clock does not go
  back. A run of bytes is defined as long as no poll leads the reader out of its arrays (`Runs`); whether
  a buffer fills on the way is what the class tells (`RunPolls`), and what `Smooth` excludes.
- A text is what stands before a NUL. The parse loop sees the unread bytes followed by the NUL that the
  buffer keeps behind them.
- sscanf's "%x" is modelled as section 7.21.6.2 of ISO/IEC 9899:2011 has it: white space, a sign and 0x
  may stand in front of the digits, a field width counts all but the white space, and 0x alone is no
  number.
- `Overrun` (SRRP), `Undefined` (JSON numbers) and `ok == false` of the ring buffer's peek stand for the
  inputs on which the C code leaves an array or an integer type; nothing is claimed beyond them.
  `Aborted`, `Full` and the other `ok == false` stand for a failing `assert`.

## Where the code does less than one might expect

Each of these is stated exactly, mostly as an if-and-only-if with the guard that decides it.

- A written packet is read back if and only if its header starts with '/', lacks "?{", is shorter than
  128 bytes, and its data starts with '{' (`RoundTrip`).
- The reader compares lengths only: a packet whose header stands elsewhere than the writers put it can
  be accepted with an announced length that is not that of its text (`AcceptedLength`,
  `AcceptedLengthCanDiffer`).
- A stream of packets comes out of a descriptor whole if and only if it survives its cuts and pauses: a
  chunk that ends just before a packet's final NUL blocks everything behind it until a pause lets that
  NUL be dropped alone, and a pause in the middle of a packet loses it (`StreamComesOutIff`). Without
  pauses only the cuts decide (`FramingExact`).
- Resynchronisation examines only the first occurrence of each leader, kind by kind, so that it can pass
  over a nearer packet or overlook every packet (`OffsetExact`, `NearestIff`, `OverlookedIff`). Behind junk
  a request is always saved, another packet exactly when no kind searched for earlier seems to start in
  its text (`LateKeepsPacketIff`).
- A forwarded request is read by the service as it was accepted if and only if the announced length covers
  its text and NUL and no more than was there (`ForwardedReadsBackIff`).
- Bytes received into a buffer fail its assertion when they leave no room. A chunk shorter than a quarter
  of the buffer that fits beside the unread bytes never does (`LightNeverFills`, `SmoothIsPolled`).
- `atbuf_write` fails its assertion if and only if the bytes exactly fill the spare room; `ringbuf_write`
  loses everything when the ring fills; a wrapped `ringbuf_peek` for less than the right-hand run
  underflows its second length (`Atbuf.Write`, `Ringbuf.Write`, `LeftCopyIsSafe`).
- `timer_start` does not carry microseconds, so a timer is due too early exactly when they add up to more
  than a million (`StartFiresOnTimeIff`); a repeating timer is due again at the same instant exactly when
  a whole number of repetitions ends there (`DueAgainAtOnceIff`).
- The wait `timer_loop` returns takes no account of deadlines that handlers set (`NothingMissedIff`,
  `RestartIsMissed`).
- `json_walk` does not look a path up in the tree: each component goes to the first field behind the last
  one found, one level further in, whose key contains it (`GetIntIsTraced`). An earlier sibling or a cousin
  can answer (`EarlierSiblingAnswers`, `CousinAnswers`).
- The grammar in the comment of src/srrp.h:10-32 ends every packet with a CRC after the NUL and allows
  split packets; the writers produce neither and the readers expect neither. The model follows the code.

## Model

| member | source | states |
|---|---|---|
| `BusSafety.PollKeeps` | src/apix.c:333-377 | one poll, whatever packets arrive and at any later time, keeps the whole invariant between polls and only extends the trace and the record of accepted requests |
| `BusSafety.RunSound` | src/apix.c:243-377 | the invariant holds in every state that a run of polls with a clock that never goes back can reach; part of it is that every station left was heard of within 600 seconds |
| `BusTheorems.Conservation` | src/apix.c:243-313 | over every run, accepted requests = pending + answered + timed out + not found |
| `BusTheorems.EndIsUnique` | src/apix.c:243-313 | every send other than a forwarding goes to the descriptor its request came from, the request is off the list, and nothing else but one earlier forwarding was ever sent for it |
| `BusTheorems.EndedAfterForward` | src/apix.c:278-299 | an answer or a timeout is only sent for a request whose own bytes were forwarded earlier in the trace |
| `BusTheorems.FinishedStays` | src/apix.c:243-313 | a request that has met its end is never pending again and its history never grows, however the run goes on |
| `BusTheorems.SettledInTime` | src/apix.c:247-254 | a request is settled by any poll three seconds or more after the one that accepted it |
| `BusTheorems.PendingIsCurrent` | src/apix.c:243-282 | between polls each pending request has been forwarded, is waiting for less than three seconds, its source is registered and was alive at its send time; the response queue is empty and station ids are unique |
| `BusTheorems.SortedBySendTime` | src/apix.c:38-49 | the pending list is sorted, newest send time first |
| `BusTheorems.TimeoutsAreATail` | src/apix.c:243-282 | in every poll, whatever arrives with it, the overdue requests are exactly a tail of what was pending: they leave with one timeout each, in list order, nothing else times out, the others stay in place, and in front of them stand only requests that arrived in this poll |
| `BusTheorems.ResponseConsumesNewestMatch` | src/apix.c:284-313 | a response consumes no request if none matches, and otherwise exactly the most recently accepted match, to whose origin it is relayed unchanged |
| `BusTheorems.QueuesNewestFirst` | src/apix.c:38-66 | accepted packets go to the queue of their kind, newest first, in front of what it held |
| `StreamQueues.ArrivalsFill` | src/apix.c:346-354 | the same for all descriptors of a poll, in their order |
| `BusSafety.ClearKeepsSeated` | src/apix.c:96-106 | expiring stations never removes the source of a pending request |
| `BusStations.FindIsLookup` | src/apix.c:72-82 | on unique ids, find_station is lookup in the map the list stands for |
| `BusStations.SeeSourceIsUpdate` | src/apix.c:258-262 | a request registers its source, or moves only its alive time and keeps its first descriptor |
| `BusStations.ClearIsFilter` | src/apix.c:96-106 | expiry drops exactly the stations not heard of for more than 600 seconds |
| `BusStations.RequestGoesToDestination` | src/apix.c:258-281 | a new request whose header is a slash, the digits of n and anything that is no digit is forwarded to the descriptor of station n, looked up after its source was registered or refreshed, and is answered "not found" if and only if there is none |
| `Destinations.DestinationOf` | src/apix.c:264-271 | a header that is a slash, white space, a sign, digits and anything else names the low 16 bits of that number, negative ones counted back from zero, held within a 64-bit long |
| `Destinations.PlainDestination` | src/apix.c:264-271 | the same for a number as it is printed |
| `Destinations.NoDestinationIff` | src/apix.c:264-270 | a header names no station if and only if it is not of that form |
| `StationLife.ResponseRefreshes` | src/apix.c:301-309 | a response whose header names station n shows that n is alive, if it is registered, and changes no other station |
| `StationLife.PollStations` | src/apix.c:243-377 | one poll, station by station, told from what arrives: a request from it registers or refreshes it, a response that names it refreshes it if it is registered, and otherwise it goes once more than 600 seconds have passed |
| `StationLife.RunStations` | src/apix.c:72-377 | over every run the stations of the bus, with alive time and descriptor, are exactly those that what arrived accounts for |
| `StationLife.StaysRegistered` | src/apix.c:96-106 | a registered station stays, with its descriptor, through every poll up to 600 seconds after it was alive |
| `StationLife.AnswerKeepsStation` | src/apix.c:301-309 | a response that names a registered station keeps it for 600 seconds |
| `StationLife.RegisteredWasHeard` | src/apix.c:96-106 | a station that is registered after a run was heard of no more than 600 seconds before, as a request's source or in a response's header |
| `StationLife.NewRequestFate` | src/apix.c:243-282 | in a poll with any arrivals each new request is forwarded if its header names a station registered before the poll, or the source of this request or of one accepted after it in the same poll, and is answered "not found" otherwise |
| `Traffic.AnswersAreMatched` | src/apix.c:284-299 | over every run, whatever is sent as an answer is a response that arrived, sent unchanged to the origin of a request with the same source, the same header and the checksum the response carries |
| `Traffic.ForwardsAreAddressed` | src/apix.c:264-281 | over every run, a request is forwarded, its bytes unchanged, only to a descriptor that once brought a request from the station its header names |
| `Traffic.OverdueTimesOut` | src/apix.c:247-254 | a request that has waited for three seconds is timed out by the next poll, even if its answer arrives with it |
| `Forwarding.ForwardedReadsBackIff` | src/apix.c:278 | the bytes forwarded for an accepted packet are read at the service, whatever follows them, as that packet if and only if the announced length covers the text and its NUL and no more than was there |
| `Correlation.ServiceCrc` | src/apix.c:46-47 | crc16 of the header continued over the data is the 16-bit remainder of header and data joined |
| `Correlation.AnswerMatches` | src/apix.c:291-298 | an answer written with the parsed source, header and checksum is read back as written and passes the three match tests |
| `Correlation.RelayedByPoll` | src/apix.c:284-313 | a poll in which one matching response arrives in time ends by relaying it to the origin of the newest matching request, which leaves the list |
| `Correlation.KeptByRequestPass` | src/apix.c:243-282 | the request pass keeps every request that is waiting and not overdue, whatever it does to the others |
| `Correlation.AnsweredByPoll` | src/apix.c:284-313 | a matching response that arrives in time, among any other arrivals, is relayed in that poll to the origin of a request it matches, unless another response answers that request first |
| `Correlation.EndToEnd` | src/apix.c:38-313 | over every run: a pending request is read by the service as accepted exactly under that condition, the answer to it is read by the bus and matches, and the poll it arrives in, whatever arrives with it, relays it to the origin of a matching request unless another response answers that request first |
| `Correlation.EndToEndAlone` | src/apix.c:38-313 | arriving alone, the answer is the poll's last send, to the origin of that request or of a later indistinguishable one, which leaves the list |
| `Correlation.RequestToSelf` | src/apix.c:243-282 | a station's first request, addressed to itself, is forwarded to its own descriptor and is pending after the poll |
| `ByteRuns.ByteRunIsRun` | src/apix.c:333-377 | every run of polls on bytes that never leads the reader out of its arrays is a run of polls on the packets parsed from them |
| `ByteRuns.FreshRunIsRun` | src/apix.c:333-377 | from empty buffers and with a clock that does not go back, it ends as the run of these packets, whose clock does not go back either, so that all theorems about runs hold from the bytes on |
| `ByteRuns.BytesConserve` | src/apix.c:19-377 | over every such run, accepted requests = pending + answered + timed out + not found |
| `ByteRuns.BoxTurns` | src/apix.c:346-354 | over every run, what is left unread at a descriptor depends on what arrived there and when, and on nothing else |
| `ByteRuns.KeptOrAnswered` | src/apix.c:243-313 | a pending request that is not overdue is still pending after a poll or was answered in it |
| `ByteRuns.NextPoll` | src/apix.c:346-354 | a packet on its way to a descriptor comes out in the next poll or is still on its way after it, whatever happens at the others |
| `ByteRuns.PiecesRelayed` | src/apix.c:333-377 | a response on its way to a descriptor, in any pieces over several polls and between any other packets of its stream, is relayed, whatever arrives elsewhere meanwhile, unless another response answers the request first |
| `ByteRuns.EndToEndBytes` | src/apix.c:19-377 | from the bytes of any run to the relay: the service answers a pending request, and its answer, coming out of the stream it is in at some descriptor before the request is overdue, reaches the origin of a matching request, unless another response answers this one first |
| `ByteRuns.AloneComes` | src/apix.c:19-70 | an answer that comes alone into an empty buffer comes out, in any pieces, once all of its bytes but the NUL are there, unless a poll is late |
| `StreamQueues.StreamFillsQueues` | src/apix.c:38-66 | parsing alone, poll after poll and leaving aside what each poll handles, puts a stream that survives its cuts and pauses into the queues, each kind newest first, in front of what was there |
| `StreamQueues.RunAcceptsFrom` | src/apix.c:38-49 | over every run of polls, with everything handled in each, the requests accepted from a descriptor are those among the packets that come out of it, in order |
| `StreamQueues.StreamIsAccepted` | src/apix.c:19-377 | of a stream that survives its cuts and pauses, the bus accepts over the run exactly the requests, in order, whatever other descriptors bring |
| `ApiBusModule.Sinkfd.Recv` | src/apix-posix.c:142-154 | received bytes are appended to the unread ones and the receive time is set; the assertion fails exactly when they leave no room, and never for fewer than a quarter of the buffer that fit beside the unread ones |
| `ApiBusModule.ApiBus.AcceptPacket` | src/apix.c:38-66 | the packet enters the queue of its kind as in the model |
| `ApiBusModule.ApiBus.ParseBuffer` | src/apix.c:19-70 | parsing a buffer in place accepts exactly the packets of the model's run and leaves exactly its rest, with resynchronisation after the timeout only, unless the reader overruns |
| `ApiBusModule.ApiBus.SkipUnparsed` | src/apix.c:27-35 | the buffer is left with what resynchronisation leaves of its unread bytes |
| `ApiBusModule.ApiBus.HandleRequest` | src/apix.c:243-282 | the loop that deletes while it walks the list makes exactly the model's request pass |
| `ApiBusModule.ApiBus.HandleResponse` | src/apix.c:284-313 | the nested loops make exactly the model's response pass |
| `ApiBusModule.ApiBus.ClearUnaliveStation` | src/apix.c:96-106 | the loop leaves exactly the stations still alive, in order |
| `ApiBusModule.ApiBus.FindStation` | src/apix.c:72-82 | the first station with the id, or none |
| `ApiBusModule.ApiBus.Poll` | src/apix.c:333-377 | from bytes to sends: for any packet reader, the poll says whether bytes filled a buffer or the reader overran, and otherwise is exactly one step of the model on the packets parsed at each descriptor, each buffer keeping exactly its unparsed rest |
| `ApiBusModule.ApiBus.RunPolls` | src/apix.c:333-377 | any number of polls in a row is a run of bytes of the model up to the first that ends with a full buffer or an overrun; that poll's verdict is exactly what the unread bytes, the arriving bytes and the spare rooms after compaction give; a smooth run has no such poll |
| `ApiBusModule.LightNeverFills` | src/atbuf.c:103-121 | with the spare rooms that compaction leaves, chunks of less than a quarter of the buffer that fit beside the unread bytes fill none |
| `ApiBusModule.SmoothIsPolled` | src/apix.c:333-377 | told from the bytes alone: when every chunk is light and the reader stays inside its arrays, every poll ends normally |
| `SrrpRoundTrip.ScanDigits` | src/srrp.c:29 | digits alone, as the writers print them, are read as the number they stand for, up to the field width |
| `Srrp.ScanOne` | src/srrp.c:142-157 | an accepted scan has one of the five leaders, the fixed length its reader expects, and 16-bit fields |
| `WireText.WireFormat` | src/srrp.c:166-277 | the bytes of each kind of packet, leader by leader, and the fields of what the writer returns; the announced length is that of the bytes |
| `WireText.DigitTexts` | src/srrp.c:175-265 | hexadecimal digits are printed in lower case and read in both |
| `WireText.NumberRead` | src/srrp.c:29 | white space, a sign, a base prefix and digits, within the field width, are read as the signed number they stand for |
| `WireText.HeadRead` | src/srrp.c:29 | the head of any text of that form is read: the sequence number may have any number of digits, the length up to four |
| `WireText.RequestRead` | src/srrp.c:29 | behind it a request's source, of up to four digits |
| `WireText.ResponseRead` | src/srrp.c:75-76 | or a response's source and its checksum, of any number of digits |
| `WireText.SubPubRead` | src/srrp.c:121 | or nothing, for the other three kinds |
| `WireText.AcceptedFields` | src/srrp.c:20-150 | an accepted packet has exactly the fields that were scanned, and its text ends in a colon, its header, a question mark and its data |
| `WireText.WhiteSpace` | src/srrp.c:29 | the white space in front of a number is the blank and the control characters from tab to carriage return |
| `WireText.NumberFound` | src/srrp.c:29 | nothing else is |
| `WireText.NarrowIsResidue` | src/srrp.c:41-45 | a 16-bit field keeps the residue of the number, or all ones beyond 64 bits |
| `WireText.LongHeaderOverruns` | src/srrp.c:47-52 | a written packet leads the reader out of its header array if and only if its header has 128 bytes or more |
| `WireText.OverrunIff` | src/srrp.c:33-52 | for any bytes, exactly when the reader leaves its arrays |
| `SrrpRoundTrip.RoundTrip` | src/srrp.c:20-277 | for all five kinds, with anything behind it: a written packet is read back whole (leader, seat, length, source, checksum, header, data, bytes) if and only if it is readable |
| `SrrpRoundTrip.PrefixRejected` | src/srrp.c:32-56 | every strict prefix of a readable packet's text is rejected |
| `SrrpRoundTrip.AcceptedShape` | src/srrp.c:20-157 | whatever is accepted has a readable header and data, a leader, 16-bit fields, and a length made of the reader's fixed part and the two |
| `SrrpRoundTrip.AcceptedLength` | src/srrp.c:45-57 | an accepted packet's length is that of its text and NUL if and only if its header stands where the writers put it |
| `SrrpRoundTrip.AcceptedLengthCanDiffer` | src/srrp.c:29-57 | a request with a two-digit sequence number is accepted one byte short of its text and NUL |
| `SrrpRoundTrip.TwoDigitRequestExists` | src/srrp.c:29-57 | such a request, written out |
| `Resynchronisation.OffsetExact` | src/srrp.c:279-314 | 0 when a packet may start at the front; otherwise -1 if and only if no leader's first occurrence is followed by a digit, and else the first occurrence of the first such leader in the order of the search |
| `Resynchronisation.OffsetSound` | src/srrp.c:279-314 | a non-negative offset points inside the text at a leader followed by a digit |
| `Resynchronisation.OffsetIgnoresBefore` | src/srrp.c:291-311 | the byte read in front of the buffer never decides the offset |
| `Resynchronisation.OffsetInsideUnread` | src/apix.c:28-34 | the assertion offset < used always holds |
| `Resynchronisation.NearestIff` | src/srrp.c:279-314 | the offset is that of the nearest packet start if and only if that is at the front, or is the first of its kind and no kind searched for earlier qualifies |
| `Resynchronisation.OverlookedIff` | src/srrp.c:291-313 | packet starts are overlooked altogether if and only if none is at the front and no leader's first occurrence qualifies |
| `Resynchronisation.LaterStartOverlooked` | src/srrp.c:293-313 | a text with a packet start for which the offset is -1 |
| `Resynchronisation.NearerResponsePassedOver` | src/srrp.c:293-299 | a text in which a nearer response is passed over for a request |
| `Recovery.ResyncExact` | src/apix.c:27-35 | of unparsable bytes nothing stays if they look like a packet from the start or no leader qualifies, and otherwise everything from the first occurrence of the first leader that qualifies |
| `Recovery.LateKeepsPacketIff` | src/apix.c:19-36 | junk in front of a written packet: a late poll leaves exactly the packet's bytes if and only if no kind searched for earlier seems to start in its text |
| `Recovery.PacketAfterJunk` | src/apix.c:19-69 | then the next poll takes the packet and leaves nothing |
| `Recovery.RequestAfterJunk` | src/apix.c:19-69 | a request behind junk is always saved |
| `Framing.Extract` | src/apix.c:21-69 | the loop leaves a suffix of the unread bytes, a strictly shorter one if it accepted anything |
| `Framing.ParseWith` | src/apix.c:19-70 | a call leaves a suffix of the unread bytes, and once the timeout has passed always a strictly shorter one |
| `Framing.ReadOneProgressive` | src/apix.c:68 | every accepted packet has a positive length, so each round advances |
| `Framing.ExtractStream` | src/apix.c:21-69 | the first n bytes of a stream, not cut before a NUL, come out as the packets complete by then, and the part of the next one stays |
| `Framing.ExtractCutOff` | src/apix.c:21-69 | cut just before a NUL, the packets up to and including that one come out and nothing stays |
| `TimedFraming.AllOutIff` | src/apix.c:19-70 | for any reader that takes frames whole, from any point inside a packet or in front of a stray NUL: everything comes out if and only if the stream survives |
| `TimedFraming.StreamComesOutIff` | src/apix.c:19-70 | written packets sent as one stream, in any chunks and at any times, come out of a descriptor as exactly those packets in order, leaving nothing unread, if and only if the stream survives its cuts and pauses, which is told from where the chunks end and when they arrive |
| `TimedFraming.FramingExact` | src/apix.c:19-70 | when no poll is late that is so if and only if no chunk ends just before a packet's NUL |
| `TimedFraming.TurnCutOff` | src/apix.c:21-69 | at a cut just before a NUL the packets up to and including that one come out, and the NUL is due next |
| `TimedFraming.NextTurn` | src/apix.c:19-70 | for any packet of a stream: when the cuts and pauses up to it are harmless, the next poll takes it or leaves it on its way |
| `TimedFraming.LastComesIff` | src/apix.c:19-70 | the packets sent so far come out, up to the last of them, if and only if the cuts and pauses up to it are harmless; one just before its own NUL always is |
| `TimedFraming.FirstComesIff` | src/apix.c:19-70 | without late polls the packet whose bytes are next comes out if and only if its text has arrived, wherever the chunks end |
| `TimedFraming.StrayNulStalls` | src/apix.c:21-36 | behind a stray NUL nothing comes out and nothing is lost until a late poll |
| `TimedFraming.StrayNulDropsAll` | src/apix.c:24-35 | that late poll drops everything unread |
| `TimedFraming.TurnsWeigh` | src/apix.c:19-70 | over any polls, packets taken and unread bytes never hold more text than was there and arrived |
| `Crc16.Crc` | src/crc16.c:54-61 | the loop over the table computes the remainder of the message followed by sixteen zero bits |
| `Crc16.CrcContinue` | src/crc16.c:63-69 | the same, continued bit by bit from any register |
| `Crc16Table.EntryIsRaised` | src/crc16.c:19-52 | every one of the 256 entries is its index times x^16 reduced by the generator |
| `Crc16.TableStepIsEightBits` | src/crc16.c:59 | one look-up is eight steps of bit-by-bit division |
| `Crc16.TableCrcIsBitCrc` | src/crc16.c:54-69 | for every message and start value the table-driven checksum is the bit-by-bit one |
| `Crc16.TableCrcIsRemainder` | src/crc16.c:7-16 | for every start value it is the remainder of long division by x^16 + x^12 + x^5 + 1 |
| `Crc16.TableCrcConcat` | src/crc16.c:63-69 | continuing over a second piece gives the checksum of the pieces joined |
| `Crc16.AdjacentBytesDetected` | src/crc16.c:54-69 | changing one byte or two adjacent bytes, anywhere in a message of any length, changes the checksum |
| `Crc16.OddErrorsDetected` | src/crc16.c:54-69 | flipping any odd number of bits changes the checksum |
| `AtbufModel.Atbuf.Tidy` | src/atbuf.c:103-121 | compaction happens exactly when nothing is unread, less than a quarter is spare or more than a quarter is garbage; it keeps the unread bytes, moves them to the front, restores the NUL behind them, and leaves no garbage or a quarter spare |
| `AtbufModel.Atbuf.Realloc` | src/atbuf.c:42-52 | growth keeps the unread bytes and the NUL |
| `AtbufModel.Atbuf.ReadAdvance` | src/atbuf.c:64-73 | the oldest bytes are dropped, all of them at most |
| `AtbufModel.Atbuf.Append` | src/atbuf.c:75-81 | bytes stored at the write position are appended |
| `AtbufModel.Atbuf.Write` | src/atbuf.c:137-149 | takes all bytes if and only if they do not exactly fill the spare room, and grows if and only if they do not fit |
| `AtbufModel.Atbuf.Read` | src/atbuf.c:130-135 | returns the oldest bytes and leaves exactly the others |
| `AtbufModel.Atbuf.Text` | src/atbuf.c:54-57 | the C string at the read position ends inside the buffer |
| `AtbufModel.Atbuf.Run` | src/atbuf.c:64-149 | any run of reads and writes is a run of the byte queue, up to the first write that exactly fills the spare room |
| `ByteQueue.QueueConserves` | src/atbuf.c:123-149 | over every run, bytes out followed by bytes held = bytes at the start followed by bytes written |
| `RingbufModel.LeftCopyIsSafe` | src/ringbuf.c:128-132 | the second copy's length is not negative if and only if at least the right-hand run is asked for |
| `RingbufModel.StoredAppends` | src/ringbuf.c:87-115 | storing behind the content, around the end or not, appends |
| `RingbufModel.RingedDrop` | src/ringbuf.c:76-80 | moving the read offset drops the oldest bytes |
| `RingbufModel.Ringbuf.Store` | src/ringbuf.c:87-113 | the one or two copies put as many bytes as fit in exactly the places behind the content |
| `RingbufModel.Ringbuf.Write` | src/ringbuf.c:82-117 | a write that leaves room appends; one that fills the ring empties it |
| `RingbufModel.Ringbuf.Read` | src/ringbuf.c:119-143 | returns the oldest bytes and leaves exactly the others, or says that it would split the right-hand run |
| `RingbufModel.Ringbuf.Run` | src/ringbuf.c:70-143 | any run is a run of the byte queue, up to the first write that would fill the ring or read that would split the right-hand run |
| `CircularList.ListAdd` | src/list.h:57-78 | the entry becomes the first of the ring |
| `CircularList.ListAddTail` | src/list.h:88-91 | the entry becomes the last of the ring |
| `CircularList.ListDel` | src/list.h:112-117 | the rest stays a ring in order, the entry is poisoned, also when it was in no other ring |
| `CircularList.ListDelInit` | src/list.h:152-156 | the rest stays a ring in order and the entry is a ring of its own, also when it was one already |
| `CircularList.ListReplace` | src/list.h:133-139 | the new node stands where the old one stood, also for the head of an empty list |
| `CircularList.ListReplaceInit` | src/list.h:141-146 | the same, and the old node is a ring of its own |
| `CircularList.ListMove` | src/list.h:163-167 | the entry leaves its ring, if it is in one, and becomes the first of another |
| `CircularList.ListMoveTail` | src/list.h:174-179 | the entry leaves its ring, if it is in one, and becomes the last of another |
| `CircularList.ListMoveToFront` | src/list.h:163-167 | within one ring the entry becomes the first, the others keep their order |
| `CircularList.ListMoveToBack` | src/list.h:174-179 | within one ring the entry becomes the last, the others keep their order |
| `CircularList.ForEachSafe` | src/list.h:393-397 | safe iteration that deletes any subset of the entries visits each exactly once in order and leaves exactly the rest in order |
| `TimerModel.ComparesRightlyIffNormal` | src/posix/timer.c:134-136 | timercmp tells which time is earlier, against every carried time, if and only if its first argument is carried |
| `TimerModel.StartIsExact` | src/posix/timer.c:87-101 | timer_start sets the exact deadline and repetition, and a carried deadline if and only if there is nothing to carry |
| `TimerModel.StartFiresOnTimeIff` | src/posix/timer.c:87-101 | the timer is due exactly from its deadline on if and only if the microseconds add up to one million at most |
| `TimerModel.CatchUpLoop` | src/posix/timer.c:144-147 | the do-while loop terminates with the value of CatchUp, for any deadline |
| `TimerModel.CatchUpIsLeast` | src/posix/timer.c:144-147 | the new deadline is old + k * repeat for the least k >= 1 that reaches now, hence within now .. now + repeat |
| `TimerModel.DueAgainAtOnceIff` | src/posix/timer.c:134-147 | a timer that fired is due again at the same time if and only if a whole number of repetitions ends there |
| `TimerModel.FiresExactlyOnce` | src/posix/timer.c:131-159 | each due timer fires exactly once in a pass and no other fires |
| `TimerModel.HandledAlone` | src/posix/timer.c:131-159 | what a pass does to a timer does not depend on the others |
| `TimerRuns.NotDueStays` | src/posix/timer.c:131-138 | a timer that is not due stays in its place as it is |
| `TimerRuns.DueIsHandled` | src/posix/timer.c:140-153 | the handler of a due timer is given that timer with its deadline unset, or moved on by the least number of repetitions that reaches now, and what it leaves takes the timer's place |
| `TimerRuns.IdlePass` | src/posix/timer.c:131-138 | a pass at which nothing is due changes nothing and calls no handler |
| `TimerRuns.FiresInOrder` | src/posix/timer.c:131-153 | handlers are called in list order |
| `TimerRuns.FiresWhenDue` | src/posix/timer.c:131-159 | over any number of passes, whatever handlers do to other timers, a timer stays unchanged until the first pass that finds it due, which fires it |
| `TimerRuns.StartedFires` | src/posix/timer.c:87-159 | a timer started without a carry fires in the first pass at or after its deadline and in none before |
| `TimerModel.NextWakeIsEarliest` | src/posix/timer.c:127-151 | the wake-up time is the earliest of now + 1 s and all deadlines that are set once the pass has moved the due ones on, before their handlers run: none is earlier and it is one of them |
| `TimerModel.NothingMissedIff` | src/posix/timer.c:131-168 | no timer that the pass leaves has a deadline before the wake-up time if and only if no handler leaves its own timer one |
| `TimerModel.RestartIsMissed` | src/posix/timer.c:153-168 | a due timer whose handler starts it again less than a second ahead is missed: the pass waits the whole second |
| `TimerModel.WaitIsClose` | src/posix/timer.c:161-168 | the wait is the time left in milliseconds, rounded down or, when the wake-up time is behind in its second, up, as truncating division does |
| `TimerModel.WaitOfPass` | src/posix/timer.c:120-169 | the wait that a pass returns is in 0 .. 1000 ms |
| `TimerModel.TimerLoop.Pass` | src/posix/timer.c:120-172 | the loop over a list that handlers may shorten fires the due timers in order, leaves what their handlers leave, and returns the wait to the wake-up time |
| `Json.SeekKey` | src/json.c:36-57 | the brace-counting loop computes Seek |
| `Json.JsonObject.JsonWalk` | src/json.c:29-102 | loops and recursion compute Walk; walk_idx moves only on success and errno only on failure |
| `Json.JsonObject.ReadInt` | src/json.c:166-210 | the scanning loops read the number at walk_idx, or report which error |
| `Json.JsonObject.JsonGetInt` | src/json.c:212-217 | json_get_int computes GetInt and sets errno on failure only |
| `JsonNumbers.NumberRead` | src/json.c:166-209 | behind the last component a number is read if and only if a comma or a closing brace closes it, past spaces; anything else there is a type error |
| `JsonNumbers.NoNumberRead` | src/json.c:171-178 | what does not start with a digit, past separators, is a type error |
| `JsonNumbers.BraceErrorIff` | src/json.c:199-202 | a brace error is reported there if and only if the text ends before the number is closed |
| `JsonNumbers.ObjectNeeded` | src/json.c:67-94 | behind a component that is not the last, the end of the text is a key error and anything but an opening brace a type error |
| `JsonNumbers.NeverAborts` | src/json.c:29-35 | a path of components never fails the assertion |
| `JsonNumbers.BadPathAborts` | src/json.c:29-35 | a path that does not start with a slash and something else always does |
| `JsonPaths.SeekIsFirst` | src/json.c:41-57 | a search stops just past the first occurrence of the key at depth one, and fails if and only if there is none |
| `JsonPaths.WalkDepth` | src/json.c:29-102 | for any text and any path with non-empty brace-free components, a successful walk stops inside the text, just past the last component, at a brace depth equal to their number |
| `JsonLookup.WalkObject` | src/json.c:29-102 | inside any document, the walk from an object on comes to what the trace of the path says, and stops at the end of the last component in the field reached |
| `JsonLookup.GetIntIsTraced` | src/json.c:29-217 | for every tree of named fields, every path of names and every way of setting colons, commas and spaces, json_get_int returns exactly what the trace leads to: each component to the first field in document order, behind the last one found and one level further in, whose key contains it |
| `JsonAnswers.ErrorIffNoChain` | src/json.c:29-217 | for every such path, of any length and whether or not it leads anywhere in the tree, json_get_int reports an error if and only if no chain of fields in document order answers it |
| `JsonAnswers.FieldFoundIff` | src/json.c:41-57 | the search for a field's own key comes to that field if and only if no earlier sibling's key contains it |
| `JsonAnswers.TraceIsFind` | src/json.c:29-102 | a path that no earlier sibling hides is traced to what tree lookup finds |
| `JsonAnswers.ClearPathIsLookedUp` | src/json.c:29-217 | json_get_int returns what tree lookup returns for every path to a number that no earlier sibling hides |
| `JsonAnswers.GetIntIsLookup` | src/json.c:29-217 | the same for every path to a number when no key is a substring of a sibling's |
| `JsonAnswers.EarlierSiblingAnswers` | src/json.c:41-57 | an earlier sibling whose key ends in the wanted one answers for it |
| `JsonAnswers.AbsentAtTopIsKeyError` | src/json.c:58-59 | a key that no field of the outermost object contains is a key error |
| `JsonAnswers.CousinAnswers` | src/json.c:67-94 | a path that leads nowhere in the tree returns the number of another object's field |
| `ErrTable.CalcTag` | src/err.c:20-29 | the loop mixes every fourth byte into each byte of the tag |
| `ErrTable.XorTwice` | src/err.c:26 | mixing a byte in twice undoes it |
| `ErrTable.FindIsMap` | src/err.c:31-88 | after every run of registrations lookup agrees with the map of first messages |
| `ErrTable.RunIsDistinct` | src/err.c:63-66 | no error number is listed twice |
| `ErrTable.FirstMessageWins` | src/err.c:63-88 | the first message registered for a number is returned ever after |
| `ErrTable.NeverRegistered` | src/err.c:83-88 | a number never registered gives the unknown text |
| `ErrTable.FindInBucket` | src/err.c:31-45 | looking in the bucket an error number hashes to is looking in the whole list |
| `ErrTable.Errors.ErrxRegister` | src/err.c:63-81 | registration keeps every bucket equal to the list's entries that hash to it, in order, and refuses a known number |
| `ErrTable.Errors.ErrxStrerr` | src/err.c:83-88 | returns the message the list holds, or the unknown text |
| `ErrTable.Errors.Run` | src/err.c:63-88 | any run on a new table keeps buckets and list in agreement and answers as the map does |

## Left out

- Topics: subscribe, unsubscribe and publish (src/apix.c:119-174) read through an unset pointer or have no not-found case; topic messages are queued and dropped, and their sends are not in the trace.
- Sinks: sockets, select, serial lines, descriptors that come and go; the open descriptors are an argument of a poll, arrival is "append to the receive buffer", a send to an unknown descriptor is still an event.
- Poll: the idle sleep, and several clock readings within one poll.
- Memory: allocation failure, `free`, and overflow of `size_t` and loop counters.
- Finish: `memcpy(raw, buf, len)` copies the announced length even past the terminator; the model's raw bytes end with the memory given, and `data` is the text itself rather than a pointer into raw.
- AcceptedLengthCanDiffer: shows the family with one extra sequence digit; AcceptedLength gives the exact condition.
- EndToEnd: the request's packet is one that the reader returned; EndToEndBytes needs no such premise.
- ByteRun: does not follow what a full buffer does; RunPolls says when there is one.
- Realloc: shrinking is not modelled, because the source never asks for it.
- ListDel: the two poison addresses are one null.
- CircularList: list_empty, the other iteration macros, list_splice and list_cut.
- TimerLoop: timer_stop and timer_trigger, the choice of the loop by thread, a handler that touches other timers or destroys the last timer of its loop (which frees the list head the walk still uses), and a timer triggered without a handler.
- JsonWalk: string values; keys compared past the end of the text stop at its NUL.
- ErrTable: the built-in registrations, errx_fini, and the pointers of the bucket chains (each chain is a sequence); the tag is read as on a little-endian machine.
- src/log.c, src/opt.c, src/stringx.c, src/svcx.c, src/stdlibx.c, src/posix/task.c, src/posix/module.c: would only add easy members, or only threads and dynamic loading.
