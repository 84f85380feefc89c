# Portal network content transfer, history and lookups

A Dafny model of the core of the `portalnetwork` package, and proofs about it.

**Content streams.** Content is cut into 512-byte chunks, numbered, sent as uTP packets, acknowledged,
sorted, compiled and split again. `ContentStream.dfy` has the facts about chunks and orderings,
`UtpSocket.dfy` the socket, writer and reader as classes, `PortalNetworkUtp.dfy` the four roles and their
handlers. Every class method is proved equal to a function on socket values (`View()`); `OfferAccept.dfy`
and `FindFound.dfy` are state machines over two such sockets and everything ever sent, built from those same
functions, and hold the theorems about whole runs. `Packets.dfy` and `WireFormat.dfy` take packets to bytes
and back and show that the wire is transparent to both protocols. `VariantPrefix.dfy` is the multi-item
stream, `Requests.dfy` the table of open requests and the routing of incoming buffers, `Offers.dfy` OFFER
and ACCEPT and what they leave in the two databases, `FindContent.dfy` FINDCONTENT.

**History.** `HeaderAccumulator.dfy` proves the epoch-wise accumulator to be the plain list of headers;
`History.dfy` has the store and its operations, `HistoryRuns.dfy` what runs of them keep: restart, height,
the hash-linked chain, stored epochs, lookup by number, the gossip queue; `HistoryStore.dfy` tells the store
from the events.

**Lookups, gossip, Bloom filters.** `RoutingTable.dfy` (offers at most once between evictions),
`ContentLookup.dfy`, `NodeLookup.dfy`, `Bloom.dfy`.

`Bytes.dfy` holds bytes, `Option`, `Result` and concatenation.

## The network

What was ever sent is kept as a set. Any packet may be delayed, dropped or reordered without limit. What an
offerer or a FINDCONTENT writer sends is taken at most once, and the FINDCONTENT reader's SYN once, because
the reader keeps duplicates and a second SYN rebuilds it; what an accepter sends (and what the FINDCONTENT
reader acknowledges) may be taken any number of times. `handleDataPacket` is two steps, cut at its await;
every other handler is one step.

## Where the code does less than it seems to

- `start` never ends on content without a chunk: `UtpSockets.StartTerminates` says exactly when it ends. The
  run theorems therefore ask for a non-empty content, and `Offers.StreamIsEmpty` says when a stream is empty.
- The offerer sends the accepter's number minus 1, so an accepter's initial number of 0 cannot be encoded:
  `OfferAccept.NumbersFitExactly`.
- In FINDCONTENT the SYN-ACK handler replaces the reader, so DATA that overtakes the SYN-ACK is lost:
  `FindFound.ReaderHolds` has the exact condition for complete content, `FindFound.LossyRun` a run that loses
  some for good.
- Connection ids one apart towards the same peer prefix collide: `Requests.NeighboursCollide`, and
  `Requests.RoutedExactly` has the exact condition.
- A request that answers under an id takes the packets sent under it, although its counterpart sends under the
  next: `Requests.RoutedOnlyTo`.
- A selective ACK lists every number noted, so from the 256th on an unexpected DATA packet is not acknowledged:
  `OfferAccept.ResumedAcknowledges`, and `OfferAccept.OrderedRun` for which orders of arrival succeed regardless.
- Because of a strict comparison, `getBlockByNumber` finds nothing for the first block of the current epoch:
  `HistoryRuns.NumberResolves`.
- An offerer's database reads are pushed in the order in which they finish, not in key order.
  `Offers.SwappedReads` is an exchange in which two keys get each other's bytes, and
  `Offers.OwnBytesWhateverTheOrder` says exactly when no order can do that.
- An OFFER of nothing new is answered twice: `Offers.BaseProtocol.HandleOffer`.
- A stream with chunks missing may stop inside a length. Whether `parsePrefix` then ends depends on what the
  LEB128 library, which is not part of this model, reads past the buffer it is shown: `VariantPrefix.ParseEnds`
  has the exact condition, `VariantPrefix.BoundedEnds` the case of a library that stays inside,
  `VariantPrefix.NeverEnds` one that does not. `ParsePrefix`, `DropPrefixes` and `Streamer` ask for that
  condition and no more.

## Model

| member | source | states |
|---|---|---|
| OfferAccept.ReachableInv | packages/portalnetwork/src/wire/utp/PortalNetworkUtp/PortalNetworkUTP.ts:278-376 | every state of every OFFER/ACCEPT run (packets dropped, delayed, reordered, ACKs repeated, `handleDataPacket` interrupted at its await) keeps one invariant over both sockets and everything ever sent |
| OfferAccept.CausallySafe | packages/portalnetwork/src/wire/utp/PortalNetworkUtp/PortalNetworkUTP.ts:278-376 | in every run no packet under way is of a kind its receiver refuses, nothing has been refused, and a reader exists whenever DATA or FIN can arrive |
| OfferAccept.ReaderKeepsEverything | packages/portalnetwork/src/wire/utp/Socket/UtpSocket.ts:163-188 | at every moment of every run the reader compiles to exactly the chunks ever handed to the accepter, so it is never replaced once it holds data |
| OfferAccept.FinishedMeansDelivered | packages/portalnetwork/src/wire/utp/Socket/UtpSocket.ts:136-161 | the offerer's socket has reported success if and only if in the run, after the stream began, an ACK for every chunk's number was handled, and then the reader compiles to the whole content |
| OfferAccept.ListIsAcknowledged | packages/portalnetwork/src/wire/utp/Socket/UtpSocket.ts:148-150 | a chunk's number is in the socket's list exactly when the run has acknowledged it since the stream began |
| OfferAccept.FinStreams | packages/portalnetwork/src/wire/utp/Socket/UtpSocket.ts:190-203 | a FIN delivers, once, the in-order concatenation of the chunks that arrived before it: the content if and only if none is missing |
| OfferAccept.SuccessfulRun | packages/portalnetwork/src/wire/utp/PortalNetworkUtp/PortalNetworkUTP.ts:278-436 | for every non-empty content and all initial numbers some run ends with the success report and the content streamed |
| OfferAccept.OrderedRun | packages/portalnetwork/src/wire/utp/Socket/UtpSocket.ts:163-188 | for every content of up to 255 chunks and every order of them (and for longer ones as long as from the 256th on each follows the one before) some run hands over the DATA in exactly that order and ends with the success report, and the FIN then streams the content |
| OfferAccept.ResumedAcknowledges | packages/portalnetwork/src/wire/utp/Socket/UtpSocket.ts:177-187 | in every run a data handler that resumes notes the socket's number and sends an ACK of it: plain if its packet was expected, else listing exactly the numbers noted so far, this one included; with more than 255 nothing |
| OfferAccept.ExpectedExactly | packages/portalnetwork/src/wire/utp/Socket/UtpSocket.ts:165-171 | in every run a DATA packet counts as expected exactly when its number follows that of the DATA handed over before it (2 for the first) |
| OfferAccept.AccepterFollows | packages/portalnetwork/src/wire/utp/Socket/UtpSocket.ts:164-173 | in every run the number to acknowledge is that of the last DATA or FIN, the next expected follows the last DATA, and the state says what came last |
| OfferAccept.FinAcknowledged | packages/portalnetwork/src/wire/utp/Socket/UtpSocket.ts:199-201 | in every run, once the FIN has been taken an ACK of it has been sent |
| OfferAccept.OffererState | packages/portalnetwork/src/wire/utp/PortalNetworkUtp/PortalNetworkUTP.ts:337-345 | in every run the offerer is connected exactly when the stream has begun |
| OfferAccept.OffererExpects | packages/portalnetwork/src/wire/utp/PortalNetworkUtp/PortalNetworkUTP.ts:338-355 | the number the offerer expects next follows that of the STATE packet handled last, ACKs of its FIN apart |
| OfferAccept.NumbersFitExactly | packages/portalnetwork/src/wire/utp/Socket/UtpSocket.ts:104-114 | no number sent in any run leaves sixteen bits, if and only if the accepter's initial number is at least 1 and leaves room for one increment a chunk and one for the FIN |
| OfferAccept.TightBound | packages/portalnetwork/src/wire/utp/Utils/math.ts:14-16 | whatever `randUint16` returns (the accepter's 0 apart), every run stays within sixteen bits if and only if the content has at most 32767 chunks |
| OfferAccept.CompareIsAllAcked | packages/portalnetwork/src/wire/utp/Socket/UtpSocket.ts:212-225 | the comparison of the two sorted lists holds exactly when every data number is among the acknowledged ones |
| OfferAccept.OfferStarts | packages/portalnetwork/src/wire/utp/PortalNetworkUtp/PortalNetworkUTP.ts:337-345 | the first STATE packet sets off exactly the DATA packets numbered 2, 3, ... and the FIN, and keeps the invariant |
| OfferAccept.OfferHearsAck | packages/portalnetwork/src/wire/utp/PortalNetworkUtp/PortalNetworkUTP.ts:348-357 | a later ACK, repeated SYN-ACK included, keeps the invariant, the success report included |
| OfferAccept.ResumeInv | packages/portalnetwork/src/wire/utp/Socket/UtpSocket.ts:177-187 | the part of `handleDataPacket` after its await keeps the invariant whatever was handled in between |
| FindFound.ReachableInv | packages/portalnetwork/src/wire/utp/PortalNetworkUtp/PortalNetworkUTP.ts:278-376 | every state of every FINDCONTENT/FOUNDCONTENT run keeps the invariant of that pair |
| FindFound.ReaderHolds | packages/portalnetwork/src/wire/utp/PortalNetworkUtp/PortalNetworkUTP.ts:319-335 | the reader compiles to the chunks that arrived, in order, without those that overtook the SYN-ACK (its handler replaces the reader): to the content if and only if all arrived and none overtook |
| FindFound.RejectsOnlyEarlyFin | packages/portalnetwork/src/wire/utp/Socket/UtpSocket.ts:190-203 | in any run the one step a role refuses is a FIN that arrives before everything else, when there is no reader |
| FindFound.FinStreams | packages/portalnetwork/src/wire/utp/Socket/UtpSocket.ts:190-203 | the FIN delivers the in-order concatenation of the chunks the reader still has |
| FindFound.TightBound | packages/portalnetwork/src/wire/utp/Utils/math.ts:14-16 | every run stays within sixteen bits for all initial numbers if and only if the content has at most 32767 chunks |
| FindFound.SuccessfulRun | packages/portalnetwork/src/wire/utp/PortalNetworkUtp/PortalNetworkUTP.ts:278-436 | for every non-empty content and all numbers some run streams the content |
| FindFound.LossyRun | packages/portalnetwork/src/wire/utp/PortalNetworkUtp/PortalNetworkUTP.ts:319-335 | for every non-empty content some run lets the first chunk overtake the SYN-ACK, and however it goes on the reader never again compiles to the content |
| FindFound.OvertakenForGood | packages/portalnetwork/src/wire/utp/PortalNetworkUtp/PortalNetworkUTP.ts:319-335 | what overtook the SYN-ACK is settled once the SYN-ACK has been taken |
| FindFound.SynAckAnswered | packages/portalnetwork/src/wire/utp/PortalNetworkUtp/PortalNetworkUTP.ts:319-335 | in every run the SYN-ACK resets the reader's numbers, gives it an empty reader and is itself acknowledged |
| FindFound.ReaderCounts | packages/portalnetwork/src/wire/utp/Socket/UtpSocket.ts:172-199 | in every run the reader's own number is 2 plus the packets taken since the SYN-ACK |
| FindFound.WriterKept | packages/portalnetwork/src/wire/utp/PortalNetworkUtp/PortalNetworkUTP.ts:286-318 | in every run the writer's chunks are filed one below the numbers they leave under, and the numbers acknowledged to it are kept once each |
| FindFound.FinAnswered | packages/portalnetwork/src/wire/utp/Socket/UtpSocket.ts:190-203 | a FIN that is not the very first packet is acknowledged |
| ContentStream.CompiledInAnyOrder | packages/portalnetwork/src/wire/utp/Protocol/read/ContentReader.ts:46-55 | for any subset of the chunks delivered in any order, `run` gives the in-order concatenation of the delivered chunks, and the content if and only if none is missing |
| ContentStream.ChunksInIsContent | packages/portalnetwork/src/wire/utp/Protocol/write/ContentWriter.ts:48-68 | the chunks with index in a set concatenate to the content if and only if the set has every index |
| ContentStream.ChunkShape | packages/portalnetwork/src/wire/utp/Protocol/write/ContentWriter.ts:56-65 | 512 bytes to a chunk, in place, the last one the rest and not empty |
| ContentStream.SortedEqualIffSameBag | packages/portalnetwork/src/wire/utp/Socket/UtpSocket.ts:212-225 | the sorted lists are equal if and only if the two hold the same numbers equally often |
| ContentStream.SortNumbersSorts | packages/portalnetwork/src/wire/utp/Socket/UtpSocket.ts:213-222 | sorting ascends and permutes |
| UtpSockets.StartTerminates | packages/portalnetwork/src/wire/utp/Protocol/write/ContentWriter.ts:35-44 | the send loop ends, after exactly as many rounds as there are chunks, if and only if there is at least one chunk |
| UtpSockets.FirstSegmentsAre | packages/portalnetwork/src/wire/utp/Protocol/write/ContentWriter.ts:36-41 | the packets sent are exactly those that carry chunk i under the socket's number plus i |
| UtpSockets.ContentWriter.constructor | packages/portalnetwork/src/wire/utp/Protocol/write/ContentWriter.ts:18-28 | every chunk is filed under its number and entered in `dataNrs` |
| UtpSockets.ContentWriter.Chunks | packages/portalnetwork/src/wire/utp/Protocol/write/ContentWriter.ts:48-68 | chunk i, and nothing else, is filed under the starting number plus i: ceil(length / 512) of them |
| UtpSockets.ContentWriter.Start | packages/portalnetwork/src/wire/utp/Protocol/write/ContentWriter.ts:30-46 | sends every chunk in order, the i-th under the socket's number plus i, and terminates |
| UtpSockets.ContentReader.AddPacket | packages/portalnetwork/src/wire/utp/Protocol/read/ContentReader.ts:26-35 | appends the packet to the reader's list, and to the packets in order if and only if it has the next number; those keep consecutive numbers from the starting one |
| UtpSockets.ContentReader.Run | packages/portalnetwork/src/wire/utp/Protocol/read/ContentReader.ts:46-55 | leaves the packets sorted by number and returns their payloads joined |
| UtpSockets.UtpSocket.SendSynAckPacket | packages/portalnetwork/src/wire/utp/Socket/UtpSocket.ts:104-107 | the packet carries the numbers of before; then `ackNr` goes up |
| UtpSockets.UtpSocket.SendDataPacket | packages/portalnetwork/src/wire/utp/Socket/UtpSocket.ts:109-114 | the packet carries the numbers of before; then `seqNr` goes up |
| UtpSockets.UtpSocket.SendFinPacket | packages/portalnetwork/src/wire/utp/Socket/UtpSocket.ts:125-128 | the FIN's number is remembered and the socket's number is not moved |
| UtpSockets.UtpSocket.SendSelectiveAckPacket | packages/portalnetwork/src/wire/utp/Packets/PacketSenders.ts:68-83 | an ACK that lists all acknowledged numbers, or nothing with more than 255 of them |
| UtpSockets.UtpSocket.Compare | packages/portalnetwork/src/wire/utp/Socket/UtpSocket.ts:212-225 | sorts both lists in place and tells whether they hold the same numbers equally often |
| UtpSockets.UtpSocket.HandleStatePacket | packages/portalnetwork/src/wire/utp/Socket/UtpSocket.ts:136-161 | the new socket, the report and the packets are those of the specification used in the runs |
| UtpSockets.StateReport | packages/portalnetwork/src/wire/utp/Socket/UtpSocket.ts:136-161 | the FIN's ACK closes; a reading socket answers; a writing one notes the number unless 0, 1 or known and reports whether both lists hold the same numbers equally often |
| UtpSockets.UtpSocket.AcceptDataPacket | packages/portalnetwork/src/wire/utp/Socket/UtpSocket.ts:163-177 | the part before the await: the packet goes to the reader, which is made if there is none and kept otherwise |
| UtpSockets.UtpSocket.AcknowledgeDataPacket | packages/portalnetwork/src/wire/utp/Socket/UtpSocket.ts:178-187 | the part after the await: acknowledges the number the socket has by then, selectively if the packet was unexpected |
| UtpSockets.UtpSocket.HandleFinPacket | packages/portalnetwork/src/wire/utp/Socket/UtpSocket.ts:190-203 | compiles the reader's packets and acknowledges the FIN |
| PortalNetworkUtp.ContentRequest.constructor | packages/portalnetwork/src/wire/utp/PortalNetworkUtp/PortalNetworkUTP.ts:66-130 | the socket's initial numbers for each of the four roles |
| PortalNetworkUtp.InitialSockets | packages/portalnetwork/src/wire/utp/PortalNetworkUtp/PortalNetworkUTP.ts:66-130 | which ids, numbers and content a new socket of each role has |
| PortalNetworkUtp.Refusals | packages/portalnetwork/src/wire/utp/PortalNetworkUtp/PortalNetworkUTP.ts:278-435 | exactly which packets each role refuses; a RESET changes nothing |
| PortalNetworkUtp.DataHandled | packages/portalnetwork/src/wire/utp/PortalNetworkUtp/PortalNetworkUTP.ts:362-377 | DATA handled without interruption: reader, numbers, list and the one ACK, plain or selective or none |
| PortalNetworkUtp.ContentRequest.Init | packages/portalnetwork/src/wire/utp/PortalNetworkUtp/ContentRequest.ts:33-53 | which roles send a SYN, and the offerer's writer; without content an offerer does neither |
| PortalNetworkUtp.ContentRequest.HandleSynPacket | packages/portalnetwork/src/wire/utp/PortalNetworkUtp/PortalNetworkUTP.ts:278-309 | new socket and packets of each role, or the exception |
| PortalNetworkUtp.ContentRequest.AnswerSyn | packages/portalnetwork/src/wire/utp/PortalNetworkUtp/PortalNetworkUTP.ts:286-292 | the writer files its chunks one below the numbers they leave under |
| PortalNetworkUtp.ContentRequest.HandleStatePacket | packages/portalnetwork/src/wire/utp/PortalNetworkUtp/PortalNetworkUTP.ts:310-361 | new socket, report and packets of each role, or the exception |
| PortalNetworkUtp.ContentRequest.BeginStream | packages/portalnetwork/src/wire/utp/PortalNetworkUtp/PortalNetworkUTP.ts:337-345 | the SYN-ACK of an offer: all DATA, then the FIN |
| PortalNetworkUtp.ContentRequest.HandleDataPacket | packages/portalnetwork/src/wire/utp/PortalNetworkUtp/PortalNetworkUTP.ts:362-377 | readers accept and acknowledge, writers throw |
| PortalNetworkUtp.ContentRequest.HandleFinPacket | packages/portalnetwork/src/wire/utp/PortalNetworkUtp/PortalNetworkUTP.ts:421-435 | readers deliver the compiled content to the caller; without a reader they throw; writers return false |
| PortalNetworkUtp.ContentRequest.HandlePacket | packages/portalnetwork/src/wire/utp/PortalNetworkUtp/PortalNetworkUTP.ts:237-270 | the handler of the packet's kind and no other |
| Requests.SocketKeyInjective | packages/portalnetwork/src/wire/utp/PortalNetworkUtp/PortalNetworkUTP.ts:25-27 | socket keys tell peer prefixes and both ids apart |
| Requests.SameKey | packages/portalnetwork/src/wire/utp/PortalNetworkUtp/PortalNetworkUTP.ts:25-27 | keys are the same exactly when the first five characters and both ids are |
| Requests.KeyText | packages/portalnetwork/src/wire/utp/PortalNetworkUtp/PortalNetworkUTP.ts:25-27 | the text of two keys, one with an id below 0 |
| Requests.KeyTaken | packages/portalnetwork/src/wire/utp/PortalNetworkUtp/PortalNetworkUTP.ts:47-64 | a key is taken if and only if a request with that prefix and those ids is open |
| Requests.RoutedExactly | packages/portalnetwork/src/wire/utp/PortalNetworkUtp/PortalNetworkUTP.ts:47-64 | packets from the counterpart of an open request reach it if and only if no other open request is in the way: for a SYN sender one that answers with the same id, for an answerer one with the next id |
| Requests.RoutedWhenApart | packages/portalnetwork/src/wire/utp/PortalNetworkUtp/PortalNetworkUTP.ts:47-64 | with connection ids per peer prefix at least 2 apart, every packet is routed to the request opened with the same connection id |
| Requests.NeighboursCollide | packages/portalnetwork/src/wire/utp/PortalNetworkUtp/PortalNetworkUTP.ts:47-64 | a concrete table with ids 7 and 8 in which packets for 7 reach 8 |
| Requests.RouteFinds | packages/portalnetwork/src/wire/utp/PortalNetworkUtp/PortalNetworkUTP.ts:47-64 | which open request a packet goes to: the one that answers under its id, else the one that sends under it, else the one that answers under the id before, else none |
| Requests.RoutedOnlyTo | packages/portalnetwork/src/wire/utp/PortalNetworkUtp/PortalNetworkUTP.ts:47-64 | the request reached is one whose counterpart sends under that id if and only if no request that answers under the id itself is open |
| Requests.DispatchedExactly | packages/portalnetwork/src/wire/utp/PortalNetworkUtp/PortalNetworkUTP.ts:229-265 | which buffers throw, and by which bytes the others are routed |
| Requests.ReachesItsRequest | packages/portalnetwork/src/wire/utp/PortalNetworkUtp/PortalNetworkUTP.ts:229-272 | encoded under its own id by the counterpart, routed and decoded, a packet is handled by its request exactly as if it had been handed over directly |
| Requests.PortalNetworkUTP.GetRequestKey | packages/portalnetwork/src/wire/utp/PortalNetworkUtp/PortalNetworkUTP.ts:47-64 | the first of the three keys that is open, or none |
| Requests.PortalNetworkUTP.HandleUtpPacket | packages/portalnetwork/src/wire/utp/PortalNetworkUtp/PortalNetworkUTP.ts:229-272 | routes and decodes the buffer; the routed request alone changes, as its handler says; unroutable, short or unknown packets throw |
| Requests.PortalNetworkUTP.Open | packages/portalnetwork/src/wire/utp/PortalNetworkUtp/PortalNetworkUTP.ts:155-155 | files the request under its own key and keeps the table well filed |
| Requests.PortalNetworkUTP.HandleNewRequest | packages/portalnetwork/src/wire/utp/PortalNetworkUtp/PortalNetworkUTP.ts:132-227 | the request filed, its socket's state and content (several items prefixed for an offer), and the SYN if the role sends one; an offer of no contents is filed without a SYN |
| WireFormat.Transparent | packages/portalnetwork/src/wire/utp/Packets/create.ts:65-151 | a packet whose numbers fit is encoded without error and, decoded, is handled by every role in every state exactly as the packet itself |
| WireFormat.FirstBytes | packages/portalnetwork/src/wire/utp/Packets/create.ts:65-151 | the first byte of each kind of packet, where its numbers are, and the bytes of a list of numbers |
| WireFormat.OfferAcceptOnWire | packages/portalnetwork/src/wire/utp/Packets/Packet.ts:112-139 | every packet of every OFFER/ACCEPT run whose initial numbers leave room survives the wire |
| WireFormat.FindFoundOnWire | packages/portalnetwork/src/wire/utp/Packets/Packet.ts:112-139 | every packet of every FINDCONTENT run of at most 32767 chunks survives the wire |
| Packets.Encode | packages/portalnetwork/src/wire/utp/Packets/Packet.ts:112-139 | writes the fields in place in the BEP 29 layout, then the payload, or fails exactly when some field is out of range |
| Packets.EncodeHeaderStream | packages/portalnetwork/src/wire/utp/Packets/PacketHeader.ts:40-56 | fails exactly when a number is out of range; otherwise as long as the header's length, with the numbers and the extension of the layout |
| Packets.PacketRoundTrip | packages/portalnetwork/src/wire/utp/Packets/Packet.ts:27-70 | reading what was written restores every header field, the bitmask and the payload |
| Packets.HeaderBytes | packages/portalnetwork/src/wire/utp/Packets/Packet.ts:112-134 | where in the buffer every field and the bitmask of a version 1 header are, as in BEP 29 |
| Packets.ReadBytes | packages/portalnetwork/src/wire/utp/Packets/Packet.ts:27-70 | which bytes every field, the bitmask and the payload are read from, and which buffers are too short |
| Packets.ReadThenWrite | packages/portalnetwork/src/wire/utp/Packets/Packet.ts:27-70 | writing what was read gives the same buffer if and only if the buffer is canonical: version 1, extension 0 or an unchained, complete extension 1 |
| Packets.BigEndianRoundTrip | packages/portalnetwork/src/wire/utp/Packets/Packet.ts:121-126 | big-endian numbers of any width come back |
| Packets.WriteUIntBE | packages/portalnetwork/src/wire/utp/Packets/Packet.ts:121-126 | writes the bytes of a number at an offset and nothing else |
| Packets.WriteNumbers | packages/portalnetwork/src/wire/utp/Packets/Packet.ts:121-126 | the six numbers follow one another in the BEP 29 layout |
| VariantPrefix.RoundTrip | packages/portalnetwork/src/wire/utp/Utils/variantPrefix.ts:18-71 | whatever the decoder reads past its buffer, the stream of any non-empty list of items, empty ones included, comes apart into that very list |
| VariantPrefix.ParseEnds | packages/portalnetwork/src/wire/utp/Utils/variantPrefix.ts:34-47 | the rounds of `parsePrefix` come to an end if and only if the buffer begins with a complete number or, once it is used up, what the decoder reads after it makes the counts agree |
| VariantPrefix.CutShortStops | packages/portalnetwork/src/wire/utp/Utils/variantPrefix.ts:38-45 | a buffer that stops inside a number is given up in the round after its end if and only if the decoder finds nothing there or a byte with a clear top bit |
| VariantPrefix.BoundedEnds | packages/portalnetwork/src/wire/utp/Utils/variantPrefix.ts:34-47 | with a decoder that stays inside its buffer `parsePrefix` ends on every buffer |
| VariantPrefix.NeverEnds | packages/portalnetwork/src/wire/utp/Utils/variantPrefix.ts:38-45 | a buffer and a decoder with which it does not end |
| VariantPrefix.AlwaysSeparable | packages/portalnetwork/src/wire/utp/Utils/variantPrefix.ts:58-71 | with a decoder that stays inside its buffer `dropPrefixes` ends on every stream, cut short or not |
| VariantPrefix.ParsePrefix | packages/portalnetwork/src/wire/utp/Utils/variantPrefix.ts:34-47 | ends whenever the source does, with the first round whose count agrees; a complete number gives its exact value and byte count |
| VariantPrefix.DropPrefixes | packages/portalnetwork/src/wire/utp/Utils/variantPrefix.ts:58-71 | returns the items of any stream on which the source ends, the last one cut short if the stream is |
| VariantPrefix.EncodedIsPrefix | packages/portalnetwork/src/wire/utp/Utils/variantPrefix.ts:8-11 | an encoded length is self-delimiting and has its value |
| VariantPrefix.EncodedBytes | packages/portalnetwork/src/wire/utp/Utils/variantPrefix.ts:9-9 | seven bits a byte, the lowest first, the top bit on all but the last, and no byte too many (section 7.6 of DWARF Version 5) |
| VariantPrefix.StandardExamples | packages/portalnetwork/src/wire/utp/Utils/variantPrefix.ts:9-9 | the examples of that standard |
| VariantPrefix.ValueOfOneMore | packages/portalnetwork/src/wire/utp/Utils/variantPrefix.ts:39-39 | one more byte adds its seven bits on top |
| VariantPrefix.DecodePrefix | packages/portalnetwork/src/wire/utp/Utils/variantPrefix.ts:39-40 | decoding a complete number gives its value and byte count whatever follows |
| Offers.EndToEnd | packages/portalnetwork/src/subprotocols/protocol.ts:308-338 | for any offered keys and any set the accepter lacks, if all DATA is handled before the FIN, in any order, the accepted keys are emitted with the bytes the offerer read for them in turn, and with no others |
| Offers.Transfer | packages/portalnetwork/src/subprotocols/protocol.ts:308-338 | if the reads finished in key order: each wanted key is emitted with the bytes the offerer has under its content id, or none; once filed, the accepter has for every offered key it lacked what the offerer has, keeps what it had, and wants nothing more of the same OFFER |
| Offers.HashedReads | packages/portalnetwork/src/subprotocols/protocol.ts:321-324 | an exchange whose content ids are not its keys reads what is filed under the ids |
| Offers.OwnBytesWhateverTheOrder | packages/portalnetwork/src/subprotocols/protocol.ts:317-330 | in every run and every order in which the database reads may finish, each key gets the bytes stored for it, if and only if the same bytes are stored for all requested keys (as when there is one) |
| Offers.OrderImmaterial | packages/portalnetwork/src/subprotocols/protocol.ts:317-330 | every order of finishing keeps the items in place if and only if all are the same |
| Offers.SwappedReads | packages/portalnetwork/src/subprotocols/protocol.ts:317-330 | two keys whose reads finish in the other order get each other's bytes in every run |
| Offers.OfferAndAccept | packages/portalnetwork/src/subprotocols/protocol.ts:278-429 | an OFFER handled on one node and its answer on the other: both derive the same keys in the same order and the same connection id, and open the two ends of one stream |
| Offers.KeysAreWanted | packages/portalnetwork/src/subprotocols/protocol.ts:373-373 | the keys asked for are exactly the offered ones the accepter lacks |
| FindContents.HandleFindContent | packages/portalnetwork/src/subprotocols/protocol.ts:445-530 | content is looked up under the key's content id: none, inline below 900 bytes, or a writer opened on it and a connection id |
| FindContents.TakeFound | packages/portalnetwork/src/subprotocols/history/history.ts:112-124 | a connection id opens the reading end and sends its SYN |
| FindContents.FindAndFound | packages/portalnetwork/src/subprotocols/protocol.ts:504-530 | a FINDCONTENT handled on one node and its answer on the other open exactly the two ends of one exchange, on the holder's content, with exactly its SYN sent |
| Offers.ContentEmits | packages/portalnetwork/src/wire/utp/PortalNetworkUtp/PortalNetworkUTP.ts:385-419 | the stream comes apart into the bytes in the order in which the reads finished, and into no others |
| Offers.StreamRoundTrip | packages/portalnetwork/src/wire/utp/PortalNetworkUtp/PortalNetworkUTP.ts:385-403 | the accepter's choice of prefix or none undoes the offerer's |
| Offers.StreamIsEmpty | packages/portalnetwork/src/wire/utp/PortalNetworkUtp/PortalNetworkUTP.ts:177-192 | there is nothing to send if and only if the one requested item is empty |
| Offers.ChosenIsOrdered | packages/portalnetwork/src/subprotocols/protocol.ts:308-310 | the chosen keys are exactly those whose bit is set |
| Offers.ChosenInOrder | packages/portalnetwork/src/subprotocols/protocol.ts:308-310 | the chosen keys keep their order, each after as many as there are set bits before it, and there are no others |
| Offers.StreamedAs | packages/portalnetwork/src/wire/utp/PortalNetworkUtp/PortalNetworkUTP.ts:183-191 | one item is streamed as it is, several each with its length in front |
| Offers.DeliveredShort | packages/portalnetwork/src/wire/utp/PortalNetworkUtp/PortalNetworkUTP.ts:401-418 | with fewer items than keys the first keys get them and the others an event without content |
| Offers.BaseProtocol.FlagWanted | packages/portalnetwork/src/subprotocols/protocol.ts:355-369 | a bit for every key not in the database, and whether anything was accepted |
| Offers.BaseProtocol.HandleOffer | packages/portalnetwork/src/subprotocols/protocol.ts:343-429 | opens a reader for the wanted keys in order and answers with their bits and its id; nothing wanted is answered twice; nothing offered once |
| Offers.BaseProtocol.RequestedData | packages/portalnetwork/src/subprotocols/protocol.ts:317-330 | the stored bytes of each key, nothing for a key that is missing, in the order in which the reads finish |
| Offers.BaseProtocol.HandleAccept | packages/portalnetwork/src/subprotocols/protocol.ts:302-340 | opens a writer on exactly the accepted keys' content under the accepter's id, or nothing |
| Offers.Streamer | packages/portalnetwork/src/wire/utp/PortalNetworkUtp/PortalNetworkUTP.ts:385-419 | one event for each key, in order, with its item, for any stream on which the source ends; no keys throws |
| HeaderAccumulators.BuiltRefinesList | packages/portalnetwork/src/subprotocols/history/headerAccumulator.ts:49-66 | any accumulator built by `updateAccumulator` is that of the plain list of its headers |
| HeaderAccumulators.BuiltShape | packages/portalnetwork/src/subprotocols/history/headerAccumulator.ts:49-66 | historical root i is the root of records 8192i to 8192i + 8191, the current epoch is the rest and has 1 to 8192 records, height is count minus 1, every total difficulty is the prefix sum across epoch boundaries |
| HeaderAccumulators.AppendRefines | packages/portalnetwork/src/subprotocols/history/headerAccumulator.ts:49-66 | appending to the accumulator is appending to the list, at and between epoch boundaries |
| HeaderAccumulators.EpochShape | packages/portalnetwork/src/subprotocols/history/headerAccumulator.ts:55-64 | record j of epoch i is that of header 8192i + j |
| HeaderAccumulators.DifficultySums | packages/portalnetwork/src/subprotocols/history/headerAccumulator.ts:50-64 | total difficulty is a sum over the headers |
| HeaderAccumulators.HeaderAccumulator.FromGenesis | packages/portalnetwork/src/subprotocols/history/headerAccumulator.ts:21-36 | the accumulator of the one-header list |
| HeaderAccumulators.HeaderAccumulator.UpdateAccumulator | packages/portalnetwork/src/subprotocols/history/headerAccumulator.ts:49-66 | the new accumulator and the position of the record |
| HeaderAccumulators.HeaderAccumulator.HeightCountsHeaders | packages/portalnetwork/src/subprotocols/history/headerAccumulator.ts:128-130 | `currentHeight` is the number of headers appended less the genesis, however many epochs were closed |
| HistoryRuns.RestartRebuilds | packages/portalnetwork/src/subprotocols/history/history.ts:59-76 | after any calls on any database `init` could start from, running `init` again rebuilds exactly the accumulator in memory |
| HistoryRuns.HeightNeverDecreases | packages/portalnetwork/src/subprotocols/history/history.ts:171-194 | over any interleaving of headers and snapshots the height never decreases |
| HistoryRuns.ChainKept | packages/portalnetwork/src/subprotocols/history/history.ts:340-384 | from genesis without snapshots, every run keeps the accumulator that of the headers its calls appended, a hash-linked chain numbered from 0, and every historical root's full epoch in the store |
| HistoryRuns.ChainFromCalls | packages/portalnetwork/src/subprotocols/history/history.ts:340-353 | every header of that chain after genesis came in one of the calls, under its own hash |
| HistoryRuns.CloseEpoch | packages/portalnetwork/src/subprotocols/history/history.ts:355-367 | a full epoch is in the store, readable, before the accumulator drops its records |
| HistoryRuns.StreamIsTrusted | packages/portalnetwork/src/subprotocols/history/history.ts:50-57 | epochs from the Stream handler are stored only under the root of their content |
| HistoryRuns.NumberResolves | packages/portalnetwork/src/subprotocols/history/history.ts:264-310 | with the epochs retrievable from store or network, a number up to the height resolves to the hash of that header, and to nothing if and only if it is 8192 times the number of historical epochs; above the height to nothing |
| HistoryRuns.EpochMissing | packages/portalnetwork/src/subprotocols/history/history.ts:290-300 | a number in an epoch that neither store nor network has resolves to nothing |
| HistoryRuns.NeverAnotherBlock | packages/portalnetwork/src/subprotocols/history/history.ts:264-322 | with collision-free hashes and honest answers by hash, the block returned is the one with that number, and exactly when one is returned |
| HistoryRuns.QueueKept | packages/portalnetwork/src/subprotocols/history/history.ts:447-457 | every push ever made, repeated pushes of one item counted, is still queued or has been handed to gossip, nothing else is, and fewer than 26 are queued after each call |
| HistoryStore.StoreKept | packages/portalnetwork/src/subprotocols/history/history.ts:337-440 | in every run the store holds under each content key the value of the last event about it, and otherwise, the accumulator's key apart, what it held at first |
| HistoryStore.EventsExactly | packages/portalnetwork/src/subprotocols/history/history.ts:339-439 | every header with its own hash, valid body, receipt, epoch and snapshot emits its event, after that of a full epoch it closes; any other call changes nothing |
| HistoryStore.AcceptedIsStored | packages/portalnetwork/src/subprotocols/history/history.ts:378-431 | in every run accepted content is in the store afterwards |
| HistoryStore.StreamPassesOn | packages/portalnetwork/src/subprotocols/history/history.ts:50-57 | streamed content is passed on as it came, epochs under the root of their content |
| HistoryStore.SnapshotAdopted | packages/portalnetwork/src/subprotocols/history/history.ts:171-194 | a snapshot is adopted and stored exactly when it can be read and is higher |
| HistoryStore.NoHigherSnapshot | packages/portalnetwork/src/subprotocols/history/history.ts:184-194 | in every run the height is at least that of every snapshot that came |
| HistoryStore.NextIsAppended | packages/portalnetwork/src/subprotocols/history/history.ts:342-369 | on a chain a header is appended exactly when it is given under its own hash, has the next number and names the last header |
| HistoryStore.GossipWaits | packages/portalnetwork/src/subprotocols/history/history.ts:452-456 | in every run nothing is handed to gossip before 26 items have been pushed |
| History.HistoryProtocol.constructor | packages/portalnetwork/src/subprotocols/history/history.ts:59-76 | the accumulator from the database, or from genesis |
| History.HistoryProtocol.AppendHeader | packages/portalnetwork/src/subprotocols/history/history.ts:355-376 | closes a full epoch, appends and persists, in that order |
| History.HistoryProtocol.AddBlockHeader | packages/portalnetwork/src/subprotocols/history/history.ts:340-384 | the whole header branch, the unawaited inner call and its late queue reset included |
| History.HistoryProtocol.ReceiveSnapshot | packages/portalnetwork/src/subprotocols/history/history.ts:171-217 | adopts and stores a snapshot if and only if it is higher |
| History.HistoryProtocol.AddContentToHistory | packages/portalnetwork/src/subprotocols/history/history.ts:331-458 | every content type's effect on accumulator, store, events and gossip queue |
| History.HistoryProtocol.OnStream | packages/portalnetwork/src/subprotocols/history/history.ts:50-57 | recomputes an epoch's hash from its content before storing it |
| History.HistoryProtocol.GetBlockByNumber | packages/portalnetwork/src/subprotocols/history/history.ts:264-322 | which hash is asked for and when its block is returned |
| RoutingTables.OfferedAtMostOnce | packages/portalnetwork/src/client/routingTable.ts:37-64 | in any log of offers and evictions that the operations can leave, two offers of one key to one peer have an eviction of that peer between them |
| RoutingTables.PortalNetworkRoutingTable.ContentKeyKnownToPeer | packages/portalnetwork/src/client/routingTable.ts:37-54 | tests and sets, for that peer and key alone |
| RoutingTables.PortalNetworkRoutingTable.EvictNode | packages/portalnetwork/src/client/routingTable.ts:60-64 | forgets the peer and its keys and keeps the log property |
| RoutingTables.PortalNetworkRoutingTable.OfferUnknown | packages/portalnetwork/src/subprotocols/history/history.ts:481-489 | offers the peer only keys it does not know, each once even if listed twice |
| RoutingTables.PortalNetworkRoutingTable.Gossip | packages/portalnetwork/src/subprotocols/history/history.ts:465-490 | every peer near any item knows every key of the batch afterwards; only such peers are offered anything; nothing is offered twice |
| ContentLookups.ContentLookup.StartLookup | packages/portalnetwork/src/subprotocols/contentLookup.ts:36-154 | terminates over any finite universe, asks each node at most once and only reachable ones; if it fails, exactly the nodes reachable from the initial peers through returned ENRs were asked; content found is the last peer's and is offered to the contacted ones |
| ContentLookups.ContentLookup.Round | packages/portalnetwork/src/subprotocols/contentLookup.ts:55-152 | one round asks a new node or shortens the worklist, and keeps the invariant |
| ContentLookups.ContentLookup.AddCloser | packages/portalnetwork/src/subprotocols/contentLookup.ts:122-149 | the worklist after each insertion in turn; exactly the named nodes not asked yet join it and the routing table |
| ContentLookups.ContentLookup.Poke | packages/portalnetwork/src/subprotocols/contentLookup.ts:104-116 | offers the key to each contacted peer that was not offered it before, and keeps the log property |
| ContentLookups.InsertedIds | packages/portalnetwork/src/subprotocols/contentLookup.ts:129-144 | insertion one place before the first farther peer loses nobody, even with a negative index |
| ContentLookups.InsertedAt | packages/portalnetwork/src/subprotocols/contentLookup.ts:129-144 | where a new peer ends up: one place before the first farther one, before the last if that one is in front, or at the end |
| ContentLookups.ClosedContains | packages/portalnetwork/src/subprotocols/contentLookup.ts:122-149 | a set holding the initial peers and all its members name holds everything reachable |
| ContentLookups.AllAsked | packages/portalnetwork/src/subprotocols/contentLookup.ts:56-61 | with an empty worklist the nodes asked are exactly the reachable ones |
| NodeLookups.NodeLookup.StartLookup | packages/portalnetwork/src/subprotocols/nodeLookup.ts:29-88 | terminates whatever peers answer, sends at most 19 FINDNODES, all to different peers; peers taken off plus queued are initial plus new; every new peer is strictly closer than the farthest initial one; unless the node was found or more than 16 new peers were, everyone an asked peer named that is closer than itself has been asked; only peers that answer the ping enter the table |
| NodeLookups.NodeLookup.Round | packages/portalnetwork/src/subprotocols/nodeLookup.ts:35-76 | one round ends the lookup, adds new peers or shortens the queue, and keeps the invariant |
| NodeLookups.NodeLookup.TakeAnswer | packages/portalnetwork/src/subprotocols/nodeLookup.ts:52-75 | the node sought ends the lookup; the closer peers before it that were not asked go, in turn, to the front of the queue and to the new ones |
| NodeLookups.UnshiftedAt | packages/portalnetwork/src/subprotocols/nodeLookup.ts:68-69 | new peers go in front, the last one first, and what was queued stays behind as it was |
| NodeLookups.TakenAsNamed | packages/portalnetwork/src/subprotocols/nodeLookup.ts:54-73 | the peers taken in are those named, closer and not asked, in order and as often as named |
| NodeLookups.TakenUntilSought | packages/portalnetwork/src/subprotocols/nodeLookup.ts:55-64 | nothing named after the node sought is taken in |
| NodeLookups.AnswerKeeps | packages/portalnetwork/src/subprotocols/nodeLookup.ts:52-75 | taking in an answer keeps everyone initial or new asked or queued, and everyone closer that was named |
| Blooms.NoFalseNegatives | packages/portalnetwork/src/subprotocols/types.ts:38-94 | starting from any number of empty filters, after any sequence of `add` and `or` among them, `check` passes every element added to a filter or to one or-ed into it |
| Blooms.Perform | packages/portalnetwork/src/subprotocols/types.ts:38-94 | one `add` or `or` keeps what every filter holds and adds what it should |
| Blooms.PositionOfLogs | packages/portalnetwork/src/subprotocols/history/receiptManager.ts:311-324 | a position is set in the filter of the logs if and only if it is one of an address or a topic of one of the logs |
| Blooms.LogsCovered | packages/portalnetwork/src/subprotocols/history/receiptManager.ts:311-324 | every address and topic of every log passes `check` |
| Blooms.LogsBloom | packages/portalnetwork/src/subprotocols/history/receiptManager.ts:311-324 | the nested loops set exactly those positions |
| Blooms.Bloom.Add | packages/portalnetwork/src/subprotocols/types.ts:38-52 | sets exactly the element's three positions, each read off two bytes of its hash |
| Blooms.LocationIs | packages/portalnetwork/src/subprotocols/types.ts:43-48 | a position is the low eleven bits of the big-endian pair of bytes |
| Blooms.PositionIsBit | packages/portalnetwork/src/subprotocols/types.ts:46-49 | position 8j + m is bit m of byte 255 - j |
| Blooms.Bloom.Check | packages/portalnetwork/src/subprotocols/types.ts:58-75 | true if and only if all three positions are set |
| Blooms.Bloom.MultiCheck | packages/portalnetwork/src/subprotocols/types.ts:81-83 | true if and only if every topic passes |
| Blooms.Bloom.Or | packages/portalnetwork/src/subprotocols/types.ts:88-94 | joins the positions of both filters, also when a filter is or-ed with itself |
| Blooms.PositionsJoined | packages/portalnetwork/src/subprotocols/types.ts:90-92 | or-ing byte by byte joins the sets of positions |

## Left out

- OfferAccept.ReachableInv: (and `FindFound.ReachableInv`) the RangeError a number beyond sixteen bits would raise in the middle of the send loop is not a step; `OfferAccept.NumbersFitExactly` and the two `TightBound` say exactly when none can occur.
- UtpSockets.UtpSocket.HandleStatePacket: timestamps, windows, round-trip estimates, `nextAck` and the `received` and `expected` lists, which only reach the log or the header.
- VariantPrefix.ParsePrefix: the LEB128 library is modelled as counting bytes up to the first with a clear top bit, over the buffer it is shown and then over whatever follows it; lengths beyond 64 bits are not cut off.
- PortalNetworkUtp.ContentRequest.HandleFinPacket: hands the content to its caller; the events made of it are those of `Offers.Streamer`.
- Requests.PortalNetworkUTP.HandleNewRequest: a call without any `contents` argument, which throws for the writing roles.
- PortalNetworkUtp.ContentRequest.HandlePacket: a RESET changes nothing, because the handler deletes by request code and no socket is filed under one.
- PortalNetworkUtp.ContentRequest.HandleStatePacket: completion tracking of FOUNDCONTENT_WRITE, which never compares its lists.
- Requests.PortalNetworkUTP.Open: node ids of fewer than five characters.
- Offers.Streamer: the selector and hash of each Stream event, which come from decoding the key.
- FindContents.HandleFindContent: the closer peers named when there is no content.
- Offers.BaseProtocol.HandleOffer: delivery of the response, and the SSZ form of the messages.
- History.HistoryProtocol.AddContentToHistory: body validation and saving of receipts (the outcome is a parameter of the call), the chain id, and the list limits of SSZ.
- HistoryRuns.ChainKept: hashing, SSZ and RLP are function parameters; decoding undoes encoding and different epochs have different roots.
- RoutingTables.PortalNetworkRoutingTable.OfferUnknown: `sendOffer` to a peer without a known ENR sends nothing, yet counts as an offer here, so at most once stays an upper bound.
- ContentLookups.ContentLookup.StartLookup: failures while computing a distance or decoding an ENR, and the order of the worklist, which insertion one place early does not keep sorted.
- NodeLookups.NodeLookup.StartLookup: a peer without an answer is one with an empty answer; the k-buckets are a set of known nodes.
- Blooms.Bloom.constructor: building a filter from given bytes.
- Transports, discv5 sessions, JSON-RPC, CLI, proxy and user interfaces.
- Merkle multiproofs of the accumulator, block execution, receipt storage and log filtering.
- `generateRandomNodeIdAtDistance`, which goes through floating point.
- Rendezvous.
