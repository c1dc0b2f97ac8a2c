# android-tether: a verified model

android-tether moves packets between a macOS `utun` interface and an Android phone over RNDIS on USB.
This project models the parts of it where bytes and threads can go wrong, and proves what they promise:

* **Framing and the tunnel** (`Rndis`, `Frame`, `Tunnel`): the data packet builder, the cursor that walks a
  USB transfer (a class, refining the recursive `Frames`), and the way of a packet over the wire and back.
* **The USB I/O engine** (`Dispatch`, `Arp`, `UsbIo`, `Stats`): receive buffers, the transmit queue, ARP
  answers, counters and the meter that subtracts them. The device and the other threads are the environment
  and are left open at every step.
* **The DoT worker pool** (`DotPool`): small steps of any number of workers over a shared counter, with every
  query and connection outcome and every interleaving; and the resolver's batch around it.
* **The switch-over to encrypted DNS** (`Switchover`, `DotRefinement`, `DotSystem`, `TxThread`): the TX thread,
  resolver workers and the `warm` flag as a state machine; the DoT pool is proved to be an instance of it, and so
  are whole runs of batch after batch beside the TX thread; the TX loop itself is a class each of whose steps is a
  step of that machine, with other threads running in between.
* **All threads together** (`Keepalive`, `Pipeline`): TX thread, main loop, channel, engine, USB, and a peer engine,
  at any moment.
* **Checksums and DNS replies** (`Checksum`, `DnsProxy`): both checksum loops against RFC 1071 section 1, and
  the reply builder (header layout of RFC 791 section 3.1).
* **DHCP** (`DhcpOptions`, `DhcpMessage`, `DhcpExchange`, `DhcpMeaning`): three option scanners against the
  meaning of the option format of RFC 2132 section 2, the two client frames built in place, and the exchange of
  RFC 2131 section 3.1 over any stream of received transfers, through the one buffer they all share.

Each module states, beside the laws that relate its operations, what stands on the wire in bytes and numbers
(`...OnWire`), so that both ends agreeing on something else would not do.

`Bytes` holds the byte type, byte orders and buffer writes they share. A byte string is `seq<byte>`; 32-bit
arithmetic that can wrap is written `% U32`. Where the code mutates a buffer or an object, the model is a
method or a class, proved equal to a specification function; the lemmas are about those functions. Ghost
fields record history (what was read, polled, enqueued, submitted), so that invariants speak of whole runs.

## Where the code does not do what it, or its documentation, says

For each there is an input on which the code goes wrong, and the exact condition under which it does not.

* The documentation says at most 32 OUT transfers are pending. ARP replies skip the limit: `UsbIo.LimitExceeded`
  starts an engine and has it reach 32 + n for every n, and `UsbIo.UsbIo.Run` keeps the exact bound, 32 plus
  the ARP replies submitted. So 32 bounds all runs with n replies if and only if n is 0.
* The documentation says no DNS leaks are possible in DoH and DoT mode. While `warm` is clear,
  recognised queries go to the phone too (`Switchover.ColdQueryIsKept`; the first query of every run is such a
  one, `Switchover.FirstQueryIsKept`). A packet is withheld if and only if
  it is a recognised query and `warm` was seen set (`Switchover.Safety`); recognised means UDP over IPv4 to
  port 53 from our own address (`DnsProxy.RecognisesIff`).
* The OFFER loop, unlike the other two scanners, looks into an option that is cut short: it may believe it or
  panic (`DhcpOptions.OfferDiffers`; exactly when: `DhcpOptions.OfferPanicsIff`; what it believes:
  `DhcpOptions.OfferVisits`).
* The DHCP length gate assumes an IP header without options: `DhcpExchange.OverrunIff` says for which frame and
  header lengths a frame passes it and is then read past its end; with a plain header that is none. What the code
  makes of such a frame depends on what stands behind it in the receive buffer (`DhcpExchange.StaleBytesMatter`):
  it is ignored, or the code panics. Below, "trouble" is a panic or a read past the end of the buffer itself.
* `build_discover` checks for 314 bytes and then writes a 552-byte structure at offset 42. Buffers of 314 to 593
  bytes are written past their end, which is an outcome of its own (`DhcpMessage.BuildDiscover`); the only caller
  passes 2048.
* `8 + dp_data_offset` is 32-bit: on offsets from 2^32 - 8 on it wraps, and the cursor yields a slice at the
  wrong place (`Rndis.OffsetWraps`, if and only if: `Rndis.DeclaredOffset`).
* An empty frame does not survive framing: it is built and then skipped (`Rndis.ItemFrames`).
* The checksum sums are 32-bit. Up to 65537 words they are exact on every input, from 65538 words on they are
  not (`Checksum.ExactIff`).
* DNS reply length fields are exact if and only if the response has at most 65507 bytes
  (`DnsProxy.LengthsExactIff`); DoT responses, at most 4096 bytes, always are.

Wrapping, not panicking, is what unsigned overflow does in a release build.

## Model

| member | source | states |
|---|---|---|
| Rndis.BuildDataPacket | src/rndis.rs:235-257 | the buffer starts with the packet, is otherwise untouched; a short buffer is an error naming both sizes and changes nothing |
| Rndis.PacketIter.Next | src/rndis.rs:274-311 | one step of the cursor refines the recursive decoder; a yielded slice lies inside one PACKET message at its declared place; the cursor strictly advances per message |
| Rndis.Collect | src/proto_rndis.rs:86-95 | a whole walk over arbitrary bytes ends and yields exactly the decoder's frames, as disjoint slices in increasing order, each with all that lies behind it |
| Rndis.SightsFrames | src/rndis.rs:274-311 | seen with what lies behind them or without, the frames are the same |
| Rndis.DeclaredOffset | src/rndis.rs:304-309 | a slice sits at 8 plus the declared offset if and only if the offset is below 2^32 - 8, and always has the declared length |
| Rndis.OffsetWraps | src/rndis.rs:304 | a message on which the 32-bit sum wraps and the cursor yields its first byte |
| Rndis.FramesConcat | src/rndis.rs:274-311 | framing is a homomorphism: after a well-framed transfer, the frames of a concatenation are the concatenated frames |
| Rndis.ItemFrames | src/rndis.rs:286-303 | a data packet alone comes back exactly when its frame is not empty; any other whole message yields nothing |
| Rndis.StreamRoundTrip | src/rndis.rs:235-311 | any interleaving of data packets and other messages, then any zero padding, decodes to the non-empty frames sent, in order |
| Rndis.PacketOnWire | src/rndis.rs:235-257 | a data packet of less than 65536 bytes is 1,0,0,0, its length, 36,0,0,0, the frame's length, 28 zeros and the frame; exactly that decodes to the frame |
| Rndis.CursorOnWire | src/rndis.rs:275-284 | for any bytes, in numbers: the cursor stops at fewer than 8, at length 0 and at a length beyond the end, else takes its message and goes on behind it |
| Rndis.DataOnWire | src/rndis.rs:286-309 | of a message it takes the data if and only if it starts with 1,0,0,0, has 44 bytes, a data offset of 36 or more, some data and all of it |
| Frame.IpToEth | src/frame.rs:7-49 | returns 0 and leaves the buffer alone exactly when there is no frame, else the buffer starts with it |
| Frame.EthToUtun | src/frame.rs:51-73 | the same for the way back |
| Frame.RoundTrip | src/frame.rs:7-73 | out and back, a packet is itself with its canonical address family; the frame is addressed from us to the gateway |
| Frame.CanonicalIff | src/frame.rs:19-42 | nothing but the address family changes, and it is unchanged if and only if it was 2 or 30 |
| Frame.ReturnTrip | src/frame.rs:7-73 | a received IP frame sent out again keeps type and payload, with our addresses |
| Frame.OutOnWire | src/frame.rs:13-48 | by family or version in bytes: type 8,0 or 0x86,0xDD between our addresses and the packet; anything else, too short or too long is no frame |
| Frame.InOnWire | src/frame.rs:51-73 | type 8,0 gives family 2, type 0x86,0xDD family 30, any other nothing |
| Tunnel.Forward | src/main.rs:470-485 | what the TX loop sends for one packet, over reused buffers, whatever they held before |
| Tunnel.Transparent | src/frame.rs:7-73 | for every list of packets, to any gateways, in one padded transfer: those that fit come out of dispatch in order, exactly once, canonical, and nothing else |
| Tunnel.TransparentExactly | src/frame.rs:7-73 | packets of family 2 or 30 that fit come back byte for byte |
| Tunnel.JoinWires | src/main.rs:483 | packets submitted one by one make up the same bytes as one transfer |
| Tunnel.WireOnWire | src/main.rs:469-485 | the USB packet for a utun packet of 5 to 2038 bytes, byte by byte |
| Tunnel.LearnsSender | src/usb_io.rs:203-215 | the gateway address learned from a peer's transfer is that peer's source address |
| Arp.BuildReply | src/arp.rs:9-44 | the 42 reply bytes are written and the rest is kept; a short buffer is an error |
| Arp.HandleRequest | src/arp.rs:47-74 | answers exactly the frames `Answer` answers, with that frame, or with an error if it does not fit the buffer; otherwise touches nothing |
| Arp.AnswersRequests | src/arp.rs:47-74 | an ARP body a peer builds is answered if and only if it is a request for our address, to that peer |
| Arp.AnswerMeaning | src/arp.rs:9-44 | the answer goes to the asker about the address asked, and no host answers an answer |
| Arp.ReplyOnWire | src/arp.rs:21-43 | the reply is the two addresses, 8,6, 0,1, 8,0, 6,4, 0,2 and the four addresses of ARP |
| Arp.RequestOnWire | src/arp.rs:53-73 | a frame of type 8,6 with any other types and any padding is answered if and only if its operation is 0,1 and it asks for our address; the answer goes to the sender ARP names |
| Arp.OthersOnWire | src/arp.rs:54-62 | a frame of fewer than 42 bytes or of another type is not |
| Dispatch.Conservation | src/usb_io.rs:188-236 | every frame has exactly one outcome: forwarded once, answered once, or dropped or ignored |
| Dispatch.ForwardedIff | src/usb_io.rs:227-235 | a frame is forwarded if and only if it has 14 to 2062 bytes and type 8,0 or 0x86,0xDD, and its payload is kept |
| Dispatch.OutcomeOnWire | src/usb_io.rs:188-236 | the outcome of any frame by its length and type in bytes |
| Dispatch.LearnedLast | src/usb_io.rs:203-215 | the gateway address ends as the source of the last frame, of any type, of 14 bytes or more whose source does not start with 0xFF |
| Dispatch.LearnedNothing | src/usb_io.rs:203-215 | without such a frame it is unchanged |
| UsbIo.UsbIo.OnFrame | src/usb_io.rs:188-236 | one frame: reply, interface write, both counters and gateway address, each exactly as dispatch decides |
| UsbIo.UsbIo.Unwrap | src/usb_io.rs:185-239 | one transfer: all its frames in order, replies collected, counters equal to the packets forwarded |
| UsbIo.UsbIo.RefillTx | src/usb_io.rs:110-128 | FIFO and counters kept, pending never above the larger of 32 and its value on entry; stops only full or with an empty channel |
| UsbIo.UsbIo.DrainOut | src/usb_io.rs:136-152 | each completion is followed by the next packet, so pending stays where it was until the channel is empty; stops only with nothing pending or nothing completed |
| UsbIo.UsbIo.DrainOutAndRefill | src/usb_io.rs:130-155 | the same; terminates while senders are finite, and with none, queued plus pending falls by exactly the completions taken |
| UsbIo.UsbIo.Balance | src/usb_io.rs:110-155 | queued plus pending plus completed equals enqueued plus ARP replies |
| UsbIo.UsbIo.HandleTransfer | src/usb_io.rs:182-247 | everything done so far on the receiving side is a function of the transfers received; each ARP answer is submitted once; in the middle of it, part of that |
| UsbIo.UsbIo.ProcessRxCompletion | src/usb_io.rs:158-254 | true exactly for a successful completion, whose buffer is back in flight; a failed one loses one buffer and nothing else |
| UsbIo.UsbIo.ReceiveOne | src/usb_io.rs:54-69 | one poll is acted on: its bytes dispatched, or its buffer taken off `active_rx` exactly, so that the saturating subtraction never saturates |
| UsbIo.UsbIo.ReceiveAll | src/usb_io.rs:54-91 | takes completions until a poll finds nothing; every poll so far has been acted on, and `active_rx` is the pending receives and 16 minus the failures polled |
| UsbIo.UsbIo.Turn | src/usb_io.rs:53-107 | in one turn, the ready receives are taken and the transmit side served; losing the sixteenth buffer, and only that, sets `device_gone` and clears `running` together |
| UsbIo.UsbIo.Cycle | src/usb_io.rs:53-107 | a turn and the look at `running` behind it keep the loop's invariant; a poll for each time it was seen set; the counters do not fall |
| UsbIo.UsbIo.Run | src/usb_io.rs:29-108 | over every run, by what the device delivered and what the looks at `running` found: it ends only with the device gone or `running` seen cleared; the interface, the ARP replies and the gateway address are those of the transfers polled, in order; `device_gone` if and only if 16 of them failed; FIFO, exact counters and the bound of 32 plus ARP replies; transmit side served |
| UsbIo.UsbIo.GatewayAtEnd | src/usb_io.rs:203-215 | the same at the end of a run of the engine, over all frames of all transfers polled |
| UsbIo.LimitExceeded | src/usb_io.rs:241-247 | for every n, a started engine that was sent 32 packets and polled n requests has 32 + n transfers pending, n of them replies |
| Stats.TotalsGrow | src/main.rs:535-538 | totals over a log that grows do not fall |
| Stats.ReportsAddUp | src/main.rs:535-557 | reports that are differences of looks add up to the last look |
| Stats.Watch | src/main.rs:493-557 | beside a whole run of the engine, with a look before any of its turns: no subtraction underflows, no look sees less than the one before, the reports are their differences |
| DotPool.NextInv | src/main.rs:133-168 | every step of every worker keeps claims, attempts, replies, connections and the flag in order, and never clears the flag |
| DotPool.ExactlyOnce | src/main.rs:112-168 | in every state of every run: no index held twice, no query attempted or answered twice, each reply built from its own packet and response, `warm` before any reply |
| DotPool.EveryQueryAttempted | src/main.rs:112-171 | if `running` stays set and a worker started: when all are done each query was attempted once, every response became one reply, the counter is queries plus workers |
| DotPool.AskedOnce | src/main.rs:142-143 | a first query answered with at most 4096 bytes is the answer |
| DotPool.AskedAgain | src/main.rs:144-150 | a first query that fails, or brings more, then a connection and a second query that do not: that is the answer, and the worker keeps the new connection |
| DotPool.NotConnected | src/main.rs:151 | no connection: the worker goes on with the one it has, without an answer |
| DotPool.FailedTwice | src/main.rs:148-150 | a second query that fails: it goes on with the new one, without an answer |
| DotPool.WrittenWarm | src/main.rs:156-165 | an answer in hand is the next reply written, built from the packet that asked |
| DotPool.WrittenCold | src/main.rs:156-165 | the same with the flag clear, which is set before |
| DotPool.AnsweredIff | src/main.rs:142-154 | over whole runs: an attempted query has no answer if and only if it failed and then connecting or the second query failed; one if and only if the first or the second query succeeded |
| DotPool.NoneStartedAfterStop | src/main.rs:137-140 | once `running` is cleared no query is started |
| DotPool.ConnectionsReturn | src/main.rs:117-176 | each worker hands back exactly one connection, the one it got or its own replacement, none twice, and no other comes back |
| DotPool.StepDecreases | src/main.rs:135-168 | each step of a live worker uses up a measure, whatever the environment does |
| DotPool.BoundedRun | src/main.rs:135-171 | so every schedule has finitely many live steps, bounded in advance |
| DotPool.Resolver.Expand | src/main.rs:94-103 | grows the pool only at its end, to at most four and at most one per query, and to no less unless the last attempt to connect failed |
| DotPool.Resolver.Spawn | src/main.rs:109-122 | the pooled connections go to one worker each, last first; a new one is opened only for an empty pool |
| DotPool.Resolver.Join | src/main.rs:133-171 | whatever the schedule, the workers all finish, by a run of the state machine |
| DotPool.Resolver.RunWorkers | src/main.rs:112-171 | one batch of threads over the shared flags, the interface and the pool's connections, from spawn to join: a run of the state machine |
| DotPool.Resolver.Reclaim | src/main.rs:173-178 | all returned connections are pooled again; the truncation is a no-op |
| DotPool.Resolver.ProcessBatch | src/main.rs:77-179 | a whole batch: terminates, takes every waiting query, has one worker per query up to four unless connecting fails, the pool stays within four, never shrinks, and is what the workers returned: connections it had or opened since |
| Switchover.NextInv | src/main.rs:446-459 | every atomic step of every thread keeps the record of decisions right |
| Switchover.RunInv | src/main.rs:156-165 | over every run, `warm` never goes back and what was written stays written |
| Switchover.Safety | src/main.rs:446-461 | over every interleaving: `warm` before any encrypted reply; withheld if and only if recognised and seen warm; none checked after a reply goes to the phone; the resolver gets exactly the delivered queries in order |
| Switchover.SeenByTx | src/main.rs:414-488 | whatever happens in the system, the TX thread sees a step of its own or interference |
| Switchover.OthersInterfere | src/main.rs:133-168 | every step of every other thread is, to the TX thread, at most: flag set, replies written after it, resolver gone |
| Switchover.InterferesInv | src/main.rs:446-461 | and any number of such steps keeps what the TX thread relies on |
| Switchover.NoneKeptAfterReply | src/main.rs:446-461 | from the first encrypted reply on, for the rest of every run, no recognised query goes to the phone |
| Switchover.ColdQueryIsKept | src/main.rs:456-461 | whatever went before, a recognised query checked while the flag is clear goes to the phone, and to the resolver while that is up |
| Switchover.FirstQueryIsKept | src/main.rs:446-461 | the first query of every run is such a one |
| Switchover.KeptReachesWire | src/main.rs:469-485 | a kept query that fits a frame is not dropped by the forwarding path |
| DotRefinement.PoolRefines | src/main.rs:133-168 | every step of the DoT pool is one step of a switch-over worker, or invisible there |
| DotSystem.TxRefines | src/main.rs:446-461 | every step of the TX thread beside a pool is that step of the protocol |
| DotSystem.Safety | src/main.rs:316-366 | over every interleaving of any number of DoT batches with the TX thread: the switch-over promises hold, and the pool promises of the batch at work |
| TxThread.TxThread.Look | src/main.rs:446-450 | is the read step of the protocol |
| TxThread.TxThread.Send | src/main.rs:451-455 | is the offer step of the protocol |
| TxThread.TxThread.Check | src/main.rs:456-459 | is the check step of the protocol |
| TxThread.TxThread.Handle | src/main.rs:446-485 | one packet with other threads running in between: one decision, both channels carry exactly what was decided, sent to an address the gateway had |
| TxThread.TxThread.Others | src/main.rs:422-487 | whatever other threads do between two steps, what was sent is the wire form of the first packets kept, and what was decided on are the first packets read |
| TxThread.TxThread.Batch | src/main.rs:436-486 | the packets read are the packets decided on, in order, but for one read after `running` was cleared; fewer than 64 only for an empty read, a stop or a gone I/O thread; once `warm` is set no recognised query goes to the phone |
| TxThread.TxThread.Run | src/main.rs:422-487 | the whole loop: it ends only with its polls or with `running` cleared, there is such a batch for each poll that finds packets, and nothing is read outside them |
| TxThread.SentDecodes | src/main.rs:436-486 | what the I/O thread was given decodes to exactly the kept packets that fit, in order |
| Pipeline.RepliesAddNothing | src/usb_io.rs:241-247 | ARP replies between the data transfers change nothing a peer delivers |
| Keepalive.BuildKeepalive | src/main.rs:499-527 | the keepalive is an ARP request for 0.0.0.0 from us, wrapped |
| Keepalive.KeepaliveOnWire | src/main.rs:499-527 | the keepalive byte by byte |
| Keepalive.KeepaliveIsSilent | src/main.rs:499-527 | no host forwards it, and only one without an address answers it |
| Pipeline.KeepalivesAddNothing | src/main.rs:526-527 | neither do keepalives between them |
| Pipeline.EndToEnd | src/usb_io.rs:110-155 | TX thread, main loop, channel, engine and a peer engine, at any moment, each of them between any two of its steps: the peer's interface has received a prefix of the packets kept that fit, in order, none lost, doubled or invented; all of them once everything is through |
| Pipeline.InterfaceToInterface | src/main.rs:436-486 | without encrypted DNS, the same of the packets read from our interface |
| Checksum.FoldStep | src/dhcp.rs:20-22 | a carry fold shrinks the sum, keeps it modulo 65535 and keeps it from 0 |
| Checksum.IpChecksum | src/dns_proxy.rs:110-124 | the loop is the RFC 1071 checksum of the zero-padded input, up to 65537 words; beyond, of the wrapped sum |
| Checksum.DhcpChecksum | src/dhcp.rs:13-24 | the loop is the RFC 1071 checksum of the input without a last odd byte, within the same bound |
| Checksum.OnesSumIsResidue | src/dhcp.rs:14-22 | folding carries at the end is one's complement addition word by word |
| Checksum.LoopsAgree | src/dns_proxy.rs:110-124 | the values of the two loops agree on even lengths, and on odd ones after padding |
| Checksum.LoopsDiffer | src/dhcp.rs:15-19 | a single byte that is not zero counts in the one and not in the other |
| Checksum.ExactIff | src/dns_proxy.rs:111 | a length is summed exactly on all inputs if and only if it is at most 65537 words |
| Checksum.StoreVerifies | src/dns_proxy.rs:90-93 | storing the checksum in its zeroed field makes any header verify |
| Checksum.DetectsChangedWord | src/dhcp.rs:13-24 | a verifying header with one word changed no longer verifies, except between the two zeros |
| Checksum.KnownAnswer | src/dns_proxy.rs:110-124 | the numerical example of RFC 1071 section 3 |
| DnsProxy.RecognisesIff | src/dns_proxy.rs:35-68 | a datagram with any IP options is recognised if and only if it has 44 bytes with its family word, is protocol 17 to port 53 and from our address; the query found is its payload |
| DnsProxy.OthersNotRecognised | src/dns_proxy.rs:36-47 | nothing shorter, of another family or another IP version is |
| DnsProxy.RecognisedIsReplyable | src/dns_proxy.rs:49-75 | everything `build_reply` indexes is there in a recognised packet |
| DnsProxy.BuildReply | src/dns_proxy.rs:70-108 | the pushes and patches build the reply |
| DnsProxy.ReplyFields | src/dns_proxy.rs:70-108 | addresses and ports swapped, address family kept, response unchanged, at their offsets |
| DnsProxy.HeaderVerifies | src/dns_proxy.rs:90-93 | the IP header of every reply verifies |
| DnsProxy.ReplyOnWire | src/dns_proxy.rs:70-108 | the reply byte by byte |
| DnsProxy.LengthsExactIff | src/dns_proxy.rs:74-102 | IP and UDP length fields are exact if and only if the response has at most 65507 bytes |
| DnsProxy.ReplyInvolution | src/dns_proxy.rs:70-108 | replying three times is replying once |
| DnsProxy.ReplyToAsker | src/dns_proxy.rs:35-108 | the reply to a recognised query comes from the address asked, port 53, to us and the asking port |
| DhcpOptions.Decomposition | src/dhcp.rs:143-148 | every byte string is its longest well-formed prefix, encoded, then a rest where all scanners stop or are cut |
| DhcpOptions.ReadsBack | src/dhcp.rs:143-173 | any list of pads and options is read back, up to END or a cut entry |
| DhcpOptions.ParseOptions | src/dhcp.rs:136-175 | last option 1, 3 and 6 of length 4 or more; dns2 from the last option 6 of length 8 or more |
| DhcpOptions.OptionsOnWire | src/dhcp.rs:143-148 | for any bytes, in numbers: 0 is skipped, 255 ends, anything else is a code, a length and that much data, if it is there |
| DhcpOptions.TypeAndServer | src/dhcp.rs:236-242 | the message type is in the last option 53, the server in the last option 54 of 4 bytes |
| DhcpOptions.LastIs | src/dhcp.rs:149-170 | the value reported is that of the last option that qualifies |
| DhcpOptions.LastNone | src/dhcp.rs:137-140 | and none when no option does |
| DhcpOptions.AckType | src/dhcp.rs:316-328 | the ACK loop visits exactly the options the parser visits |
| DhcpOptions.OfferScan | src/dhcp.rs:229-244 | the OFFER loop: those options, then what it makes of a cut entry, panic included |
| DhcpOptions.OfferVisits | src/dhcp.rs:229-244 | unless it panics, the OFFER loop scans the options everybody sees and then a cut one with the data there is |
| DhcpOptions.OfferAgrees | src/dhcp.rs:229-244 | it agrees with the other two on options with no cut entry |
| DhcpOptions.OfferAgreesIff | src/dhcp.rs:229-244 | it does so if and only if a cut entry neither panics nor brings a type or a server that differs |
| DhcpOptions.OfferPanicsIff | src/dhcp.rs:236-242 | it panics if and only if a message type is cut before its data or a server address before its fourth byte |
| DhcpOptions.OfferDiffers | src/dhcp.rs:236-242 | two cut entries on which it differs from the ACK loop |
| DhcpMessage.BuildDiscover | src/dhcp.rs:26-118 | the writes produce the DISCOVER frame in front of zeros; a buffer under 314 bytes is an error, one under 594 is written past its end |
| DhcpMessage.BuildRequest | src/dhcp.rs:120-134 | the same for the REQUEST, written over a DISCOVER |
| DhcpMessage.HeaderVerifies | src/dhcp.rs:113-115 | the IP header of both verifies |
| DhcpMessage.FrameFields | src/dhcp.rs:40-95 | exact lengths, ports 68 and 67, broadcast, our address and transaction, the cookie |
| DhcpMessage.RequestReadsBack | src/dhcp.rs:120-134 | scanning a REQUEST gives type 3, the address, the server and the parameter list, for all of them |
| DhcpMessage.ClientOnWire | src/dhcp.rs:40-115 | both frames byte by byte, checksum 0x79C2 included |
| DhcpMessage.OptionsSent | src/dhcp.rs:98-133 | and their option bytes |
| DhcpMessage.DiscoverReadsBack | src/dhcp.rs:98-111 | scanning a DISCOVER gives type 1 and the parameter list |
| DhcpExchange.CheckFrame | src/dhcp.rs:201-227 | the checks of both handlers on a frame in the receive buffer: ignored, read, or, read past its end, ignored or a panic by what stands there; past the end of the buffer it is left open |
| DhcpExchange.GateReads | src/dhcp.rs:201-227 | a server's frame with any IP options is read as its address and its options, whatever stands behind it |
| DhcpExchange.GateOnWire | src/dhcp.rs:201-227 | a frame is read if and only if it has 282 bytes, is IPv4, UDP and to port 68 and has cookie and transaction where its header length puts them, and is read there |
| DhcpExchange.OverrunIff | src/dhcp.rs:201-222 | for every length and IP header length: the length gate lets a frame be read past its end if and only if IP options push the message back that far |
| DhcpExchange.StaleBytesMatter | src/dhcp.rs:218-227 | one such frame, with stale bytes behind it that make it panic and others that do not |
| DhcpExchange.StaleStays | src/usb_device.rs:251-256 | a receive overwrites the front of the buffer only |
| DhcpExchange.SentOnWire | src/dhcp.rs:178-185 | what is sent: DISCOVER and REQUEST for transaction 0x12345678, each in one packet |
| DhcpExchange.LeaseFields | src/dhcp.rs:331-340 | each field of the lease by option number: the last 3, 1 and 6 long enough, or the default |
| DhcpExchange.DefaultFields | src/net_types.rs:16-20 | the five defaults |
| DhcpMeaning.OfferFramesMeaning | src/dhcp.rs:200-260 | over any transfer, cut options and stale bytes included: the first trouble, else the last address offered and the last server named |
| DhcpMeaning.AckFramesMeaning | src/dhcp.rs:285-345 | over any transfer: the first lease acknowledged before any trouble, else the trouble, or nothing |
| DhcpMeaning.OfferPhaseMeaning | src/dhcp.rs:195-265 | over any stream: the first receive that does not keep the client waiting decides, by failure, trouble or OFFER |
| DhcpMeaning.AckPhaseMeaning | src/dhcp.rs:275-351 | the same for the ACK |
| DhcpMeaning.AckStepMeaning | src/dhcp.rs:276-351 | a receive keeps the client waiting, or brings its first readable lease, its failure or its trouble |
| DhcpMeaning.FirstDecisive | src/dhcp.rs:195-351 | every stream has such a receive, or none in time |
| DhcpExchange.AwaitOffer | src/dhcp.rs:195-265 | the receive loop of 50 attempts, over the buffer it reuses, is the OFFER phase |
| DhcpExchange.AwaitAck | src/dhcp.rs:275-351 | the second one is the ACK phase |
| DhcpExchange.Discover | src/dhcp.rs:177-363 | result and sent transfers are those of the exchange, for every stream received and every send outcome |
| DhcpMeaning.ErrorWithoutOffer | src/dhcp.rs:195-267 | no OFFER in 50 receives: an error, only the DISCOVER sent |
| DhcpMeaning.BrokenBeforeOffer | src/dhcp.rs:195-267 | a failed receive, or trouble, before any OFFER: that is the outcome, only the DISCOVER sent |
| DhcpMeaning.RequestFollowsOffer | src/dhcp.rs:248-273 | the REQUEST carries the last address of the first transfer with an OFFER, and the last server seen up to it |
| DhcpMeaning.LeaseFromFirstAck | src/dhcp.rs:275-351 | the first receive within 50 that decides gives the first lease acknowledged in it, else its failure or trouble |
| DhcpMeaning.DefaultsWithoutAck | src/dhcp.rs:355-362 | without one, the fixed defaults |
| DhcpMeaning.Handshake | src/dhcp.rs:177-363 | for every OFFER and every ACK a server fills in, whatever else they carry: the client asks that server for that address and gets the lease the ACK states, missing options defaulted |
| DhcpMeaning.SendFails | src/dhcp.rs:185-273 | a send that fails is the outcome, and nothing more is sent |
| DhcpMeaning.HandshakeRequest | src/dhcp.rs:267-273 | after a message of type 2: the address and server asked for, by option number |
| DhcpMeaning.HandshakeLease | src/dhcp.rs:330-340 | after one of type 5: the lease field by field, by option number |

## Left out

* USB itself: device discovery, endpoints and control transfers. A submit adds one pending transfer, a returned completion takes one away.
* The RNDIS handshake, queries and set requests (src/rndis.rs, src/proto_rndis.rs): straight-line codecs.
* utun, routes, `scutil`, launchd, command line, configuration, IPC, logging and rates in floating point.
* TLS, HTTP and TCP: a query or a connection attempt succeeds or fails as the environment likes.
* Time: time-outs and sleeps are choices of the environment.
* Memory orderings: atomics are sequentially consistent.
* 64-bit counters and lengths that wrap: they are unbounded here. A debug build's overflow panics are not modelled.
* A thread that panics, outside the DHCP scanner.
* A failed write to the utun interface: it is logged like one that went through, as the counters do.
* The gratuitous ARP packet, sent before the channel exists; when a keepalive is due.
* Values kept but never used: the lease options of the OFFER phase, the frame log and send counts.
- DhcpMessage.BuildDiscover: what a write past the end of the buffer leaves behind is not said. Independent bytes of the zeroed buffer are written in one go and in layout order, the IP and UDP headers field by field.
- DhcpExchange.Discover: what the code reads past the end of the receive buffer itself is left open, as the outcome `Undefined`. `Crash` is a panic; `Refused(Usb)` stands for any transfer error.
- UsbIo.UsbIo.Run: endpoints, channel, counters and the shared flags are fields of one object; what polls and looks at `running` will find and what is sent are scripts of any length.
- UsbIo.UsbIo.TryRecv: a channel with nobody left to send reads as empty, as in the code. A sender that finds the channel full does not wait; its packet is not enqueued.
- Stats.Watch: the counters are not looked at within a turn; there, no step makes them fall, as `RefillTx`, `DrainOutAndRefill`, `ReceiveOne` and `ReceiveAll` state.
- TxThread.TxThread.Run: a read that fails and one that returns nothing are the same.
- DotPool.Resolver.ProcessBatch: queries that arrive while the channel is drained are in the receiver from the start.
- Pipeline.EndToEnd: that everything is through is said for an I/O thread that still listens.
- Switchover.Safety: workers are spawned and answer freely, so DoH and DoT are both covered; only the DoT resolver is proved to be an instance of it.
