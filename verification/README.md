# Verified models of the VPP side projects

This Dafny project models the stateful cores of the VPP side projects and proves what they are for:

- the flow table with its hash chains and timer wheel (`Dlist`, `FlowState`, `FlowTimers`, `FlowLag`, `FlowMap`, `FlowTable`, `FlowHash`);
- the batched receive path of the turbotap interface (`Turbotap`);
- the netlink synchroniser (`Rtnl`), the route-attribute parser (`Octets`, `RtAttr`) and the mirror of kernel objects (`Netns`);
- the socket layer of the LD_PRELOAD library: epoll items and deferred close (`Epoll`), fd-set algebra (`FdSets`) and `readv` (`Readv`);
- the adaptive measurement loop (`RateSearch`).

Code that changes state in place is a class whose methods follow the source statement by statement and are proved against functions of the old state. What the source promises is proved about those functions. Pools are maps from index to element, indexes come from an allocator (`Vppinfra.PoolGet`), and everything the program asks of its environment (allocated buffers, received lengths, answers of the kernel or of vppcom, clocks) is a parameter.

Where the code and its intention part, the code is modelled as it is:

- `flowtable_update` searches a chain and keeps the last flow it looked at. It updates the flow with the given signature, or fails when there is none, exactly when no flow of the other address family is taken for it and the search finds something or there is no chain for the hash at all; in every other case it changes another flow of the chain and reports success (`FlowTable.FlowTable.Update`). The IPv6 hash ignores protocol and ports, so this happens for every absent IPv6 flow between two hosts that have another (`FlowHash.SecondFlowNotFound`), and for an IPv4 flow that an IPv6 flow is taken for (`FlowHash.OtherFamilyUpdated`). A new table and one packet are enough to reach it (`FlowHash.UpdateAfterOne`).
- A search compares only as many bytes as its own signature has, so a flow of one address family can be taken for one of the other (`FlowHash.FamiliesAlias`). A packet does to the map what is meant exactly when that does not happen to its signature (`FlowMap.PacketExact`), and all packets of a frame do exactly when none is confused with a key of the table or of an earlier packet (`FlowMap.FrameExact`); it never happens within one family (`FlowHash.OneFamilySeparate`). All invariants hold in either case.
- When the link dump request cannot be sent, `rtnl_sync_timeout` still waits for its answer with the socket open: the reset it calls does nothing in state OPENING (`Rtnl.TickOpens`). A later request that cannot be sent starts over (`Rtnl.DoneAdvances`).
- `rtnl_entry_match` answers -1 for an attribute that is too long, and its callers take that for a match (`Netns.MatchExact`). RTA_ENCAP is stored in another form than it is compared in (`Netns.EncapExact`): an object added to an empty mirror is deleted again by its own DEL exactly when the two forms coincide or there is none (`Netns.DeletedAgain`), and an MPLS route whose label does not begin with the byte its own header begins with never is (`Netns.MplsRouteLost`). The neighbour key takes only the low byte of the interface index (`Netns.NeighKey`).
- `vcom_fd_set` does not put back the except set (`FdSets.ClearRestore`).
- A blocking `readv` hides an error as 0 exactly when the pass that decides it failed before its first byte (`Readv.ErrorHidden`), that is, when a read is answered with an error and only empty buffers have been read before it (`Readv.FailedExact`); a connection reset is an example (`Readv.ResetHidden`).
- The measurement loop may end with neighbouring rates more than `maxRateInterval` apart, because equal drop rates count against a pair when the target ratio is above 1. Whether it can is decided before the first measurement: exactly when halving one of the first gaps comes upon one that sticks (`RateSearch.GapsExact`). A target ratio of at most 2 never sticks (`RateSearch.TwoNeverSticks`); 4 does with the default interval on a link of 10000 (`RateSearch.FourSticks`).

`dafny verify dfyconfig.toml` checks everything.

## Model

| member | source | states |
|---|---|---|
| FlowTable.FlowTable.constructor | flowtable/0001-Add-flowtable-feature.patch:1505-1539 | the empty table, with 300 empty slots whose pool indexes are their numbers, meets the whole invariant `Valid` that every method below keeps |
| FlowTable.FlowTable.Places | flowtable/0001-Add-flowtable-feature.patch:1092-1291 | in every valid state each live flow is on exactly one hash chain, the one the bihash gives for its hash, and on exactly one of the 300 slots, and its stored indexes name those elements; until its deadline passes the slot is the one of its deadline |
| FlowTable.FlowTable.Census | flowtable/0001-Add-flowtable-feature.patch:1092-1242 | the timers pool holds 300 elements and one per live flow, the chain pool one per hash and one per flow, and flows_cpt is the number of live flows |
| FlowTable.FlowTable.LookupCreate | flowtable/0001-Add-flowtable-feature.patch:1169-1242 | returns a live flow whose compared bytes agree with the signature if there is one, changing nothing, and otherwise adds one default flow, 60 seconds ahead, and changes no other; the flow returned has the signature itself exactly when no flow of the other family aliases it; the invariant holds again |
| FlowTable.FlowTable.EntryRemove | flowtable/0001-Add-flowtable-feature.patch:1092-1111 | removes exactly one flow, closes its chain and its hash entry when it was the last one, and keeps the chains well formed |
| FlowTable.FlowTable.Resched | flowtable/0001-Add-flowtable-feature.patch:1159-1167 | moves the flow to the slot of its new deadline; no other flow changes, the invariant and the up-to-date wheel are kept |
| FlowTable.FlowTable.InsertTimer | flowtable/0001-Add-flowtable-feature.patch:1150-1157 | using the number of a slot as its pool index is sound: the timer element goes to the tail of the wheel's slot lifetime seconds ahead |
| FlowTable.FlowTable.IndexUpdate | flowtable/0001-Add-flowtable-feature.patch:1244-1291 | for any monotone clock the invariant holds for the new time after the splice; when the wheel was up to date and the clock moved by at most a second, every overdue flow is in the current slot in deadline order |
| FlowTable.FlowTable.Expire | flowtable/0001-Add-flowtable-feature.patch:1113-1148 | removes only flows whose deadline has passed, at most 256; with an up-to-date wheel either none that is due is left or exactly 256 went, those with the earliest deadlines |
| FlowTable.FlowTable.Update | flowtable/0001-Add-flowtable-feature.patch:1027-1090 | updates the flow with the signature, or answers -1 and changes nothing when there is none, exactly when no flow aliases the signature and the search finds a flow or the hash has no chain; otherwise it changes a flow of another signature on the chain and answers 0; in either case the one flow changed takes the lifetime given, unless that is 0xFFFF, the offload mark and the context, and keeps its signature, places, counters, deadline and interface |
| FlowTable.FlowTable.UpdateThenPacket | flowtable/0001-Add-flowtable-feature.patch:1082-1087 | a live unaliased flow that is updated has, after its next packet at any later time, the lifetime given and its deadline that long ahead, the offload mark and the context given, and when not offloaded the interface of the packet |
| FlowTable.FlowTable.Process | flowtable/0001-Add-flowtable-feature.patch:1293-1434 | a whole frame, given room for the flows it may add: each packet touches its key exactly when no key there is confused with it, all of them do what is meant exactly when the frame is clear of such confusion, and then for every key: the straight counter rises by the number of its packets that are not reverse, the reverse counter by the others, both in 32 bits, the deadline is its lifetime away, it has the interface of its last packet unless it is offloaded, a new key starts at zero with 60 seconds, and a key without a packet is as it was; then expiry removes exactly the keys it reports, none before its deadline, at most 256, and with an up-to-date wheel all that are due or the 256 with the earliest deadlines; after a jump of the clock, and 299 seconds without another, expiry again leaves nothing that is due unless it removed 256 |
| FlowTable.FlowTable.Recovered | flowtable/0001-Add-flowtable-feature.patch:1244-1291 | once the clock has moved by at most a second a frame for 299 seconds, every overdue flow is in the current slot, whatever jump came before |
| FlowTable.FlowTable.HandleIp | flowtable/0001-Add-flowtable-feature.patch:1357-1400 | one packet is counted on one flow, the one with its signature exactly when no flow of the other family is taken for it: the counter of its direction, the deadline and, unless it is offloaded, the interface; no other flow changes, a flow is added just when the search finds nothing, and the answer is whether the flow is offloaded; on the map it is exactly one touch just when nothing is confused with it |
| FlowTimers.CurrentOverdue | flowtable/0001-Add-flowtable-feature.patch:1113-1148 | no flow before its deadline is ever in the slot that expiry empties, whatever the jumps of the clock |
| FlowTimers.TurnSplice | flowtable/0001-Add-flowtable-feature.patch:1255-1287 | moving the leftovers of the old slot in front of the new one keeps the timer invariant for any later time, and deadline order for a step of one second |
| FlowTimers.MoveTimer | flowtable/0001-Add-flowtable-feature.patch:1159-1167 | taking a timer element out and putting it in the slot of the new deadline keeps the timer invariant and the order of the current slot |
| FlowMap.SignaturesUnique | flowtable/0001-Add-flowtable-feature.patch:1169-1242 | no two live flows have the same signature |
| FlowMap.PacketExact | flowtable/0001-Add-flowtable-feature.patch:1357-1400 | looking up, rescheduling and counting a packet is one touch of its key in the map exactly when its signature is not aliased |
| FlowMap.FrameExact | flowtable/0001-Add-flowtable-feature.patch:1310-1427 | every packet of a frame does to the map what is meant exactly when none is confused with a key of the old table or of an earlier packet |
| FlowMap.TouchAllEntry | flowtable/0001-Add-flowtable-feature.patch:1366-1391 | what the packets of a frame mean for every single key, in numbers: counters by direction modulo 2^32, deadline, interface of the last packet, and 60 seconds for a key first seen |
| FlowMap.FrameCounts | flowtable/0001-Add-flowtable-feature.patch:1310-1427 | so a frame in which every packet does what is meant counts every key exactly |
| FlowMap.PacketCounted | flowtable/0001-Add-flowtable-feature.patch:1357-1391 | the same for one packet and the flow it is counted on |
| FlowMap.TableFields | flowtable/0001-Add-flowtable-feature.patch:824-851 | the entry of a flow in the map has the flow's own counters, deadline, lifetime and information |
| FlowMap.SeparateIsClear | flowtable/0001-Add-flowtable-feature.patch:1072 | a frame is clear of confusion when no two of the signatures in play are taken for each other |
| FlowMap.FrameEnd | flowtable/0001-Add-flowtable-feature.patch:1425-1427 | the removals of expiry, seen on the map |
| FlowState.ChainAdd | flowtable/0001-Add-flowtable-feature.patch:1234-1241 | pushing a new flow at the head of its chain keeps all chains well formed, disjoint, non-empty and free of hidden flows |
| FlowState.ChainRemove | flowtable/0001-Add-flowtable-feature.patch:1096-1101 | unlinking a flow from its chain keeps them so, the chain itself possibly empty for a moment |
| FlowState.ChainExhausted | flowtable/0001-Add-flowtable-feature.patch:1185-1199 | a chain searched in vain means that no live flow anywhere matches |
| FlowState.FirstMatch | flowtable/0001-Add-flowtable-feature.patch:1185-1199 | the first match on a chain is the flow with that very signature exactly when no flow of the other family aliases it |
| Dlist.AddTailPool | flowtable/0001-Add-flowtable-feature.patch:1150-1157 | adding at the tail turns one ring into itself with the element at the end and leaves every other ring of the pool as it was |
| Dlist.AddHeadPool | flowtable/0001-Add-flowtable-feature.patch:1240 | the same at the head |
| Dlist.RemovePool | flowtable/0001-Add-flowtable-feature.patch:1096-1097 | unlinking and freeing an element removes exactly it from its ring |
| Dlist.SplicePool | flowtable/0001-Add-flowtable-feature.patch:1261-1286 | the pointer updates of the wheel put the whole ring of the old slot in front of the new slot's, and leave the old one empty |
| Dlist.EmptyExact | flowtable/0001-Add-flowtable-feature.patch:814-819 | the test for an empty list is exact on well-formed pools |
| FlowHash.PortsNotHashed | flowtable/0001-Add-flowtable-feature.patch:950-961 | IPv6 signatures with the same addresses have the same hash |
| FlowHash.HashOfTcp4 | flowtable/0001-Add-flowtable-feature.patch:950-955 | the hash of a TCP connection over IPv4, as a number |
| FlowHash.HashOfSome6 | flowtable/0001-Add-flowtable-feature.patch:956-961 | the hash of an IPv6 signature, as a number, in which bytes of the source address count twice |
| FlowHash.SecondFlowNotFound | flowtable/0001-Add-flowtable-feature.patch:1056-1080 | an IPv6 flow that is absent while its hosts have another meets the failing condition of the update |
| FlowHash.FamiliesAlias | flowtable/0001-Add-flowtable-feature.patch:1072 | an IPv6 and an IPv4 signature with one hash of which the search takes the one for the other |
| FlowHash.OtherFamilyUpdated | flowtable/0001-Add-flowtable-feature.patch:1069-1089 | while only that IPv6 flow lives, the IPv4 signature is absent and aliased, the other failing condition of the update |
| FlowHash.OneFamilySeparate | flowtable/0001-Add-flowtable-feature.patch:1072 | within one address family signatures are never confused, whatever the hash |
| FlowHash.UpdateAfterOne | flowtable/0001-Add-flowtable-feature.patch:1027-1090 | for any two signatures with one hash, a new table that has seen one packet of the first answers an update for the second with 0 and changes lifetime, offload mark and context of the first's flow |
| Turbotap.Main.constructor | turbotap/turbotap/turbotap.c:465-470 | the lists are empty at the start, and the state is valid |
| Turbotap.Interface.constructor | turbotap/turbotap/turbotap.c:352-354 | a new interface is valid, tries a full batch of 256 first, and gives a message the least number of buffers that holds a frame |
| Turbotap.Main.RxIface | turbotap/turbotap/node.c:96-304 | one call: when the stack has less than the ready messages need, that and 32 more are asked for; messages are offered as long as more than a message's buffers are left, so all ready ones exactly when the stack has more than they need; as many of the received ones are enqueued as the frame has room for; buffers after and buffers enqueued are buffers before and buffers allocated as multisets, every packet lies in the very buffers offered for its message and carries it, each is enqueued once by its first buffer, to the drop node when the interface is down; the next batch size is unchanged when nothing came, loses what was taken when less than a full batch was, but not below that, and doubles up to 256 otherwise |
| Turbotap.Main.RxRun | turbotap/turbotap/node.c:96-304 | any run of calls on any interfaces: the stack afterwards and everything enqueued are the stack before and everything allocated, as multisets |
| Turbotap.ChainSeen | turbotap/turbotap/node.c:67-82 | following the links of a packet from its first buffer meets exactly its buffers, their lengths add up to the message, and the first buffer records the rest |
| Turbotap.CarriesMore | turbotap/turbotap/node.c:67-82 | adding a buffer to a chain of full ones makes the chain that carries that much more |
| Turbotap.Main.BuildChain | turbotap/turbotap/node.c:189-226 | the buffers popped for a message form a chain that carries it, and headers of other buffers are untouched |
| Turbotap.Main.Fill | turbotap/turbotap/node.c:136-160 | message i is offered the next buffers from the top of the stack; the number offered is the greatest, up to the batch size, such that each message found more than its buffers left |
| Turbotap.BuiltFromOffered | turbotap/turbotap/node.c:143-226 | chain m is a prefix of the iovecs of message m |
| Turbotap.Main.Receive | turbotap/turbotap/node.c:183-275 | the loop over a batch: every message that the frame has room for becomes a packet, where a downed interface moves on to the drop node's frame after its first; each buffer is enqueued, set aside or still on the stack |
| Turbotap.Main.PutBack | turbotap/turbotap/node.c:280-288 | the buffers set aside come back, last first, and none stays |
| Turbotap.Main.UpdateReady | turbotap/turbotap/node.c:290-299 | after less than a full batch the next size is what is left of the batch or what was taken, whichever is more; after a full one it doubles, up to 256 |
| Turbotap.StackBack | turbotap/turbotap/node.c:228-288 | the stack after the call is free of duplicates and, with the packets, what it was before |
| Rtnl.ReadyOnlyAfterFiveDumps | netlink/librtnl/rtnl.c:297-430 | over every run a stream is READY only after the five dumps were asked for and completed in order with consecutive numbers since the socket was last opened, all requests but perhaps the first having been sent, with no notification or foreign number before the last completion |
| Rtnl.SocketDiscipline | netlink/librtnl/rtnl.c:297-390 | over every run opens and closes alternate, a syncing stream has its socket open exactly outside OPENING and always has a timer, and a READY stream has it open |
| Rtnl.SyncCompletes | netlink/librtnl/rtnl.c:361-390 | a tick and five undisturbed answers make any waiting stream READY |
| Rtnl.SyncRecovers | netlink/librtnl/rtnl.c:361-390 | two ticks and five undisturbed answers make a stream READY from any dump whose timer has run out, whatever was lost before |
| Rtnl.OpenStarts | netlink/librtnl/rtnl.c:432-442 | opening a new stream makes it synchronise, with its timer due at once; one that is opened already stays as it is |
| Rtnl.TickOpens | netlink/librtnl/rtnl.c:366-379 | a tick in OPENING opens the socket and asks for links with the next 32-bit number and two seconds, or waits ten seconds more with the socket closed when it cannot be opened; a link request that cannot be sent is waited for all the same |
| Rtnl.LostDumpRestarts | netlink/librtnl/rtnl.c:380-388 | a tick after the timer of a dump has run out closes the socket, goes to OPENING and waits a second |
| Rtnl.TickIdle | netlink/librtnl/rtnl.c:518-524 | any other tick changes nothing, except that a timer in the past is cleared |
| Rtnl.DoneAdvances | netlink/librtnl/rtnl.c:307-359 | the completion of a dump asks for the next one in the order link, address, IPv4, IPv6, neighbour with the next 32-bit number and a timer of one second; a request that cannot be sent closes the socket and starts over a second later; after the neighbours the stream is READY without a timer |
| Rtnl.InterferenceRestarts | netlink/librtnl/rtnl.c:392-404 | any message with a foreign number or a notification flag sends a syncing stream back to OPENING, with the socket closed and the next attempt due at once |
| Rtnl.OtherNoted | netlink/librtnl/rtnl.c:406-430 | every other message leaves the state alone |
| Rtnl.ReadUntil | netlink/librtnl/rtnl.c:470-482 | a buffer is handled message by message up to one that is cut short, which is not looked at, or an unreadable error, which is handled last |
| Rtnl.ReadOn | netlink/librtnl/rtnl.c:456-484 | and buffer after buffer as long as none ends so and the socket is open |
| Rtnl.RunKeeps | netlink/librtnl/rtnl.c:297-498 | the invariant behind these holds after every run of open, read and clock events |
| Rtnl.RtnlStream.HandleDone | netlink/librtnl/rtnl.c:307-359 | is the step that `DoneAdvances` describes |
| Rtnl.RtnlStream.HandleTimeout | netlink/librtnl/rtnl.c:361-390 | is the step that `TickOpens` and `LostDumpRestarts` describe |
| Rtnl.RtnlStream.HandleMessage | netlink/librtnl/rtnl.c:392-430 | is the step that `InterferenceRestarts`, `DoneAdvances` and `OtherNoted` describe; only an unreadable error ends the read |
| Rtnl.RtnlStream.DumpRequest | netlink/librtnl/rtnl.c:126-151 | every request takes the next 32-bit sequence number, sent or not |
| Rtnl.RtnlStream.ProcessRead | netlink/librtnl/rtnl.c:456-484 | all buffers until an error or a closed socket |
| Rtnl.RtnlStream.ProcessClock | netlink/librtnl/rtnl.c:518-524 | a timer in the past is cleared and handled |
| RtAttr.ParseRtattr | netlink/librtnl/netns.c:202-221 | ends with 0 exactly when the block is a concatenation of padded attributes, and then the table holds the last attribute of every type up to max and keeps the other entries |
| RtAttr.SplitExact | netlink/librtnl/netns.c:202-221 | the attributes found are the only ones whose padded concatenation the block is |
| RtAttr.RoundTrip | netlink/librtnl/netns.c:202-221 | attributes written out are read back |
| RtAttr.FirstAttr | netlink/librtnl/netns.c:202-221 | the first attribute of a block, byte by byte: length and type with the low byte first, the payload behind them, the rest of the block from the next multiple of 4 |
| RtAttr.AddressBlock | netlink/librtnl/netns.c:202-221 | the eight bytes of an attribute with an IPv4 address read as it |
| RtAttr.PaddedBlock | netlink/librtnl/netns.c:202-221 | and those of a one-byte attribute with its padding |
| RtAttr.LastOfMeans | netlink/librtnl/netns.c:206-207 | the table entry of a type is its last attribute in the block |
| Netns.Netns.constructor | netlink/librtnl/netns.c:654-689 | a new namespace has empty pools, has told its subscribers nothing, and is mirrored |
| Netns.Netns.Rcv | netlink/librtnl/netns.c:337-583 | a malformed message does nothing, other kinds of objects are never touched, and a message whose attributes fit and whose RTA_ENCAP agrees with its stored form changes the keyed table and the notifications exactly as it means, after which folding all notifications gives the tables |
| Netns.Netns.RecvRtnl | netlink/librtnl/netns.c:615-640 | the dispatch by message type |
| Netns.StepRefines | netlink/librtnl/netns.c:337-583 | on a pool with unique keys, NEW leaves exactly one entry with its key, merged, and DEL removes exactly that entry or answers -1; keys stay unique |
| Netns.MergeKey | netlink/librtnl/netns.c:280-311 | merging never changes the key |
| Netns.MirrorStep | netlink/librtnl/netns.c:312-322 | the fold of the notifications stays equal to the table |
| Netns.RunIsAfter | netlink/librtnl/netns.c:337-583 | over any run of the handlers on messages that the mirror can represent, of all kinds mixed, each table is what its messages mean applied in order, and the subscribers have the same tables |
| Netns.KeyAfterRun | netlink/librtnl/netns.c:337-583 | after any such run a key is in the mirror exactly when a NEW for it was not followed by a DEL |
| Netns.FieldAfterRun | netlink/librtnl/netns.c:280-311 | after any such run each field holds the zero-padded value of the last NEW that carried it since the entry was made |
| Netns.UnsetAfterRun | netlink/librtnl/netns.c:280-311 | and zeros when none did |
| Netns.Netns.RcvAll | netlink/librtnl/netns.c:337-583 | handling one message after the other from empty pools is such a run |
| Netns.OpenAndReceive | netlink/librtnl/netns.c:654-689 | a namespace from its opening through all its messages goes through such a run |
| Netns.MatchExact | netlink/librtnl/netns.c:254-278 | matching is equality of keys for all entries exactly when every unique attribute fits its field |
| Netns.EncapExact | netlink/librtnl/netns.c:290-298 | a message whose attributes fit makes an entry with its own key exactly when it has no RTA_ENCAP or one stored as it is compared |
| Netns.DeletedAgain | netlink/librtnl/netns.c:290-298 | an object whose attributes fit, added to an empty mirror, is deleted again by its own DEL exactly when it carries no RTA_ENCAP or one stored as it is compared; otherwise the DEL answers -1 |
| Netns.MplsRouteLost | netlink/librtnl/netns.c:290-298 | that DEL answers -1 for every route over a tunnel whose inner attribute fits and whose label does not begin with the byte its own header begins with |
| Netns.NeighKey | netlink/librtnl/netns.c:522-539 | two messages about neighbours have the same key exactly when family, low byte of the interface index and padded NDA_DST agree |
| Netns.RouteKey | netlink/librtnl/netns.c:392-413 | two messages about routes have the same key exactly when family, prefix lengths, table, protocol and type of the header agree, and so do the padded RTA_DST, RTA_SRC, RTA_VIA, RTA_GATEWAY, RTA_IIF, RTA_OIF and RTA_ENCAP |
| Netns.AddrKey | netlink/librtnl/netns.c:459-476 | about addresses exactly when family, prefix length, IFA_ADDRESS and IFA_LOCAL agree |
| Netns.LinkKey | netlink/librtnl/netns.c:337-346 | about links exactly when all four bytes of the interface index agree |
| Netns.RouteFields | netlink/librtnl/netns.c:66-90 | which attribute fills which field of a route and at what width; a field without its attribute keeps its value, or is zero in a new entry |
| Netns.AddrFields | netlink/librtnl/netns.c:113-132 | of an address |
| Netns.LinkFields | netlink/librtnl/netns.c:39-57 | of a link |
| Netns.NeighFields | netlink/librtnl/netns.c:154-170 | of a neighbour |
| Netns.PadMeans | netlink/librtnl/netns.c:300-309 | a value shorter than its field is followed by zeros |
| Netns.EncapMeans | netlink/librtnl/netns.c:290-298 | RTA_ENCAP is refused unless the attribute in it has a payload of at most 28 bytes, and the field takes the 28 bytes behind the inner header |
| Netns.ParseMeans | netlink/librtnl/netns.c:348-364 | a message is its fixed header, of 16, 12, 8 or 12 bytes by kind, and a block of attributes; otherwise it is malformed |
| Netns.MessageTypes | netlink/librtnl/netns.c:615-640 | which message types create and which delete what |
| Netns.EntryMatch | netlink/librtnl/netns.c:254-278 | the first row that disagrees decides between 0 and -1 |
| Netns.EntrySet | netlink/librtnl/netns.c:280-311 | rows up to the first attribute that is too long are filled, the rest keep their value, and the answer tells which |
| Netns.MaskMatch | netlink/librtnl/netns.c:324-335 | equality of the masked headers |
| Netns.Netns.GetEntry | netlink/librtnl/netns.c:337-346 | the first matching entry in pool order |
| Epoll.VcomSocketMain.constructor | vcl-ldpreload/src/libvcl-ldpreload/vcom_socket.c:2692-2718 | at the start there is nothing, the indexes agree and the counts are right |
| Epoll.IndexesAgree | vcl-ldpreload/src/libvcl-ldpreload/vcom_socket.c:2343-2549 | an item is registered for (epfd, fd) exactly when it is in the list of epfd, and exactly when it is in the list of fd, and records both; no list is stored empty |
| Epoll.IndexAdd | vcl-ldpreload/src/libvcl-ldpreload/vcom_socket.c:2361-2428 | EPOLL_CTL_ADD keeps the three indexes in agreement |
| Epoll.IndexDel | vcl-ldpreload/src/libvcl-ldpreload/vcom_socket.c:2453-2538 | EPOLL_CTL_DEL keeps them so, whether or not the item goes back to the pool |
| Epoll.DelFinds | vcl-ldpreload/src/libvcl-ldpreload/vcom_socket.c:2470-2532 | once the pair is found the lists and the item are there, so the late -ENOENT exits cannot be reached |
| Epoll.VcomSocketMain.AddItem | vcl-ldpreload/src/libvcl-ldpreload/vcom_socket.c:2361-2428 | registers the pair and counts it, or -EEXIST and no change |
| Epoll.VcomSocketMain.ModItem | vcl-ldpreload/src/libvcl-ldpreload/vcom_socket.c:2430-2451 | replaces the events of the pair, or -ENOENT |
| Epoll.VcomSocketMain.DelItem | vcl-ldpreload/src/libvcl-ldpreload/vcom_socket.c:2453-2538 | removes exactly the pair and counts it off, or -ENOENT |
| Epoll.VcomSocketMain.EpollCtl | vcl-ldpreload/src/libvcl-ldpreload/vcom_socket.c:2556-2617 | every answer, that of vppcom included, with its exact effect on the registrations and on the instances; counts stay the number of registrations |
| Epoll.VcomSocketMain.CloseVepoll | vcl-ldpreload/src/libvcl-ldpreload/vcom_socket.c:277-318 | an instance with members is marked once, one without is released |
| Epoll.VcomSocketMain.CloseVsock | vcl-ldpreload/src/libvcl-ldpreload/vcom_socket.c:320-404 | the socket goes, its registrations stay, and exactly the marked instances it is in lose a member or are released |
| Epoll.VcomSocketMain.CloseSockets | vcl-ldpreload/src/libvcl-ldpreload/vcom_socket.c:277-404 | closing distinct open sockets in any order, every marked instance counts off those of its members, and goes exactly when nothing is left |
| Epoll.ReleasedByCount | vcl-ldpreload/src/libvcl-ldpreload/vcom_socket.c:379-396 | the same on the values: a marked instance counts what it did less the closes of its members, and is there just while that is positive; members closed before the mark stay counted |
| Epoll.ReleasedWithLastMember | vcl-ldpreload/src/libvcl-ldpreload/vcom_socket.c:355-401 | a marked instance with n members, all open, is released exactly by the n-th of their closes, and counts the members still open |
| Epoll.UnmarkedStays | vcl-ldpreload/src/libvcl-ldpreload/vcom_socket.c:379-396 | an instance not marked is never touched by closing sockets |
| Epoll.VcomSocketMain.EpollCreate | vcl-ldpreload/src/libvcl-ldpreload/vcom_socket.c:2297-2335 | adds one empty instance and no other change |
| Epoll.VcomSocketMain.Close | vcl-ldpreload/src/libvcl-ldpreload/vcom_socket.c:406-425 | the answer and the exact effect for a socket, an instance and an unknown descriptor; counts stay the number of registrations as long as no registered socket is closed |
| FdSets.FdSetSplit | vcl-ldpreload/src/libvcl-ldpreload/vcom.c:592-678 | adds to the vcom and to the libc sets exactly their descriptors below nfds, and reports how many there are and the number to pass to select |
| FdSets.SplitParts | vcl-ldpreload/src/libvcl-ldpreload/vcom.c:592-678 | the two parts are disjoint and together the input below nfds |
| FdSets.FdSetMerge | vcl-ldpreload/src/libvcl-ldpreload/vcom.c:680-776 | adds both sources, counts their bits, and reports the highest descriptor plus one |
| FdSets.SplitPollMerge | vcl-ldpreload/src/libvcl-ldpreload/vcom.c:592-776 | splitting, letting the polls keep any bits and merging gives the union of what they kept, counted without repetition |
| FdSets.FdClear | vcl-ldpreload/src/libvcl-ldpreload/vcom.c:441-512 | exactly the vcom descriptors below nfds go; count and nfds are those of what is left |
| FdSets.FdSet | vcl-ldpreload/src/libvcl-ldpreload/vcom.c:514-590 | exactly the saved vcom descriptors of the read and write sets come back |
| FdSets.ClearedBits | vcl-ldpreload/src/libvcl-ldpreload/vcom.c:441-590 | which bits go and which come back: those of vcom descriptors below nfds, in the read and write sets only |
| FdSets.ClearRestore | vcl-ldpreload/src/libvcl-ldpreload/vcom.c:441-590 | clear and restore give back the read and write sets always, and everything exactly when no vcom descriptor below nfds was in the except set |
| FdSets.FdsToSidFds | vcl-ldpreload/src/libvcl-ldpreload/vcom_socket.c:732-796 | -EBADFD exactly when a watched descriptor has no session; otherwise the session bits, their number and bound |
| FdSets.SidFdsToFds | vcl-ldpreload/src/libvcl-ldpreload/vcom_socket.c:806-892 | the descriptors whose session bit is gone are cleared, and the rest counted |
| FdSets.Select | vcl-ldpreload/src/libvcl-ldpreload/vcom_socket.c:903-1049 | the whole call for any answer of the poll: -EBADFD exactly when a watched descriptor below nfds has no session; the sets are touched only when the answer is positive, and then lose exactly the descriptors below nfds whose session bit the poll dropped |
| FdSets.ThereAndBack | vcl-ldpreload/src/libvcl-ldpreload/vcom_socket.c:732-892 | what remains are the watched descriptors whose session survived, all of them exactly when every session does, and as many as session bits when sessions are distinct |
| FdSets.CountBits | vcl-ldpreload/src/libvcl-ldpreload/vcom.c:483-511 | the number of bits below nfds in the three sets, and the highest descriptor plus one |
| Readv.Readv | vcl-ldpreload/src/libvcl-ldpreload/vcom_socket.c:477-562 | -EBADF for an unknown descriptor, -EINVAL for other than 1 to 1024 buffers or more than SSIZE_MAX bytes, and otherwise exactly what the reads give: a result of at least 0 is a prefix of the stream laid into the flattened buffers with no gap, the bytes behind it untouched, at most SSIZE_MAX; a negative one changes nothing; the exact answer for every script of session answers |
| Readv.ReadPass | vcl-ldpreload/src/libvcl-ldpreload/vcom_socket.c:516-561 | one pass reads buffer after buffer until a short or failed read |
| Readv.PassExact | vcl-ldpreload/src/libvcl-ldpreload/vcom_socket.c:516-530 | a pass fills buffer after buffer and stops at the first read that is shorter or fails, or after the last buffer |
| Readv.WouldBlock | vcl-ldpreload/src/libvcl-ldpreload/vcom_socket.c:533 | an answer of -EAGAIN before the first byte is the answer of a non-blocking call, and makes a blocking one read again |
| Readv.FillOne | vcl-ldpreload/src/libvcl-ldpreload/vcom_socket.c:518-530 | one more read keeps the bytes received a gapless prefix |
| Readv.SaneLengths | vcl-ldpreload/src/libvcl-ldpreload/vcom_socket.c:500-506 | refused exactly when the sum of the lengths exceeds SSIZE_MAX, without forming such a sum |
| Readv.AgainUses | vcl-ldpreload/src/libvcl-ldpreload/vcom_socket.c:533 | a pass that is tried again has used up an answer of the session, so retries end when -EAGAIN does |
| Readv.BlockingIsOnePass | vcl-ldpreload/src/libvcl-ldpreload/vcom_socket.c:514-561 | without -EAGAIN the blocking mode reads what one pass reads |
| Readv.ErrorHidden | vcl-ldpreload/src/libvcl-ldpreload/vcom_socket.c:514-561 | the blocking answer differs from that of a non-blocking call on the deciding pass exactly when that pass failed before its first byte, and is then 0 |
| Readv.FailedExact | vcl-ldpreload/src/libvcl-ldpreload/vcom_socket.c:516-530 | a pass fails before its first byte exactly when some read is answered with an error and only empty buffers come before it |
| Readv.ResetHidden | vcl-ldpreload/src/libvcl-ldpreload/vcom_socket.c:514-561 | a connection reset reads as 0 when blocking and as the error when not |
| RateSearch.Master | vhost-test/mg.lua:81-126 | with the options as percentages of the link rate, the loop ends for any drop rates; its first rates are the link, half of it and 100; its results arise from those by turns that each measure the midpoint of the best pair, which is further apart than the threshold, and at the end no pair is eligible |
| RateSearch.GapsExact | vhost-test/mg.lua:86-119 | if no halving of a first gap sticks, the loop ends with neighbours at most maxRateInterval apart whatever the measured drop rates; when all drop rates are equal, it does so only then; pairs whose drop rates differ by more than the target ratio always end at most minRateInterval apart |
| RateSearch.TwoNeverSticks | vhost-test/mg.lua:98-107 | with a target ratio of at most 2 no gap sticks |
| RateSearch.FourSticks | vhost-test/mg.lua:98-107 | with a target ratio of 4, the default interval and a link of 10000 the gap of 5000 sticks at 625 |
| RateSearch.GapsAreHalved | vhost-test/mg.lua:113-115 | every gap the loop can reach is one of the first gaps, halved some times |
| RateSearch.Choose | vhost-test/mg.lua:88-109 | none exactly when no pair is eligible, else the first pair of greatest meaning |
| RateSearch.MeaningIs | vhost-test/mg.lua:94-108 | for measured drop rates, what a pair is worth and when it may be split, in plain numbers |
| RateSearch.WidestFirst | vhost-test/mg.lua:88-109 | of the pairs that the thresholds ask to split the one chosen is the widest of equally steep ones and the steepest of equally wide ones |
| RateSearch.RunPotential | vhost-test/mg.lua:110-115 | each measurement takes exactly the threshold from the potential; rates stay sorted and their ends stay |
| RateSearch.RunBound | vhost-test/mg.lua:86-115 | fewer measurements are added than twice the span over the threshold |
| RateSearch.PotentialFalls | vhost-test/mg.lua:113 | halving a gap wider than the threshold takes exactly the threshold from the potential |
| RateSearch.InsertSorted | vhost-test/mg.lua:114-115 | sorting puts the new rate between its two neighbours |
| RateSearch.SortByRate | vhost-test/mg.lua:84 | a sorted permutation |

## Left out

- FlowTable.FlowTable.Process: packet parsing, the counters of the node, tracing and frame enqueueing are left out; a packet is given as its signature, direction and interface. The ASSERT at line 1211 is met when there is room for all new signatures of the frame.
- FlowTable.FlowTable.LookupCreate: takes bytes of the signature where the code passes the address of its pointer (lines 1192 and 1223); the table-full exit behind the ASSERT at line 1211 is excluded by that ASSERT.
- FlowTable.FlowTable.EntryRemove: the ASSERT at line 1109, which would forbid removing the last flow, is not part of the model.
- FlowTable.FlowTable.Expire: the ASSERT at line 1136, which is the wrong way round for leftovers of an earlier second, is not part of the model.
- FlowTable.FlowTable.IndexUpdate: time is an unbounded number of seconds; the wrap of a 32-bit clock is not modelled.
- Vppinfra.PoolGet: gives a free index not above the number of elements in use; the free lists of vppinfra are not part of this model.
- Dlist.SplicePool: clib_dlist is defined here from its use; vppinfra, with its bihash, pools and vectors, is not part of this model.
- Turbotap.Main.RxIface: messages are taken to be non-empty and to fit their iovecs, as recvmmsg guarantees; the rte_mbuf fields, counters and tracing are left out.
- Rtnl.RunKeeps: rtnl_process_close, the network namespace switch and the reuse of descriptor numbers are left out; reading a closed socket ends the read; times are real numbers.
- Turbotap.Main.RxRun: buffers that the graph has freed may be allocated again, but none that is still on the stack; the loop stands for the node's calls.
- RtAttr.ParseRtattr: the block length is a multiple of 4, as netlink pads messages; an attribute pointer is modelled by the payload it leads to.
- Netns.Netns.Rcv: last_updated is left out; the bytes RTA_ENCAP copies from behind an attribute and the old contents of a link slot are parameters; one mirror object holds the four pools, and entries are values written back to their slot.
- Netns.Netns.RcvAll: the loop stands for the netlink stream that delivers the messages.
- Netns.Netns.RecvRtnl: ns_recv_error, netns_open, netns_close and netns_callme are left out.
- Epoll.VcomSocketMain.EpollCtl: the type checks for objects not bound to vppcom are left out, as every object made here is bound; session and descriptor numbers come from the environment.
- Epoll.VcomSocketMain.CloseSockets: the loop stands for a caller that closes one socket after the other.
- FdSets.Select: timeouts are left out, and the sessions of descriptors do not change during the call.
- Readv.Readv: buffers do not overlap; a session that answers -EAGAIN for ever is not modelled, because a blocking call then never returns.
- RateSearch.Master: numbers are real, with the infinities and NaN of Lua but no rounding; the thresholds are positive; writing the output file is left out.
- RateSearch.GapsExact: for drop rates that are measured, that is finite and not negative, and for a logarithm that grows, with values 0 at 1 and -1 at one half.
- RateSearch.TargetExact: is about pairs on their own; what the loop does with those it reaches is `GapsExact`.
- vcom_select's polling loop, vcom_socket_writev and the other socket calls of the preload library: not modelled.
- mapper.c, the router plugin and the port-mirroring patch: not modelled.
- The flowtable control plane and parse_ip4_packet and parse_ip6_packet: not modelled; signatures are given.
