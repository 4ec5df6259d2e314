# A verified model of the net-lab TCP/IP stack

The stack is a small user-space TCP/IP in C that works in place at every layer: one headroom buffer slides down the
layers while each of them writes its header in front of the window, two tables with timestamps hold addresses and
connections, and a passive-open TCP machine owns heap buffers through pointers. This project models those layers in Dafny
and proves what they are for.

## The pieces

| file | models |
|---|---|
| `Words.dfy`, `Checksum.dfy` | `include/utils.h` and `checksum16`: byte order, the 32-bit sum, the carry fold |
| `Buffer.dfy` | `src/buf.c`: the window over one array; every memory write is a `Splice`. A `Block` is a buffer as a value, array and window |
| `SlotMap.dfy` | `src/map.c`: the slot array with timestamps, and the abstract expiring map `ExpMap` it refines |
| `Queue.dfy` | `src/queue.c`: the linked queue, which refines a sequence |
| `Ethernet.dfy` | `src/ethernet.c`: framing, padding, dispatch |
| `ArpProtocol.dfy`, `ArpLaws.dfy`, `Arp.dfy`, `Pending.dfy` | `src/arp.c`: the resolution protocol as a state machine over runs; what each message and packet does, on the wire and to the table; `arp_buf` as a slot map of linked queues; and the code over buffers, slot arrays and queues that performs the protocol's steps |
| `Fragments.dfy`, `IpMemory.dfy`, `Ip.dfy`, `IpInput.dfy` | `src/ip.c`: what the fragments of a payload are; what is handed down and what every byte of the payload holds afterwards, as functions of what a call finds (a `Job`); the in-place loop that does it; the receiver's checks, and the way end to end |
| `Transport.dfy`, `TcpWire.dfy` | the pseudo-header checksums of `src/udp.c` and `src/tcp.c`, segments on the wire |
| `TcpDelivery.dfy` | a segment on its whole way, through all three receiving layers |
| `Tcp.dfy` | `src/tcp.c` as a state machine: `Link` is one connection with its two buffers and its history, `State` the table and the heap |
| `TcpStreams.dfy`, `TcpOwnership.dfy`, `TcpTheorems.dfy` | what every operation on one connection keeps, what every step of the machine keeps, what holds after every run |
| `TcpLaws.dfy` | what every operation and every segment does to a connection, field by field: the next state, the numbers, the segments sent with their flags |
| `TcpRuns.dfy` | runs from the initial state that overrun, repeat, overread, leak, and fill the table |
| `TcpMachine.dfy` | the same operations over memory: connection structs that point to real buffers, and the transmit buffer they share; each is proved to be the step of `Tcp.dfy` |

State-changing code is a class or a method over arrays, proved against a function; the properties are lemmas about the
function. Histories (`Hist`, the `tx` log, the `wire`) record what happened and are read by no operation.

The TCP machine stops where the code does (a failed `Assert`, a state without a case) and also where C defines nothing
more: before a `memcpy` that leaves its array. `Overrun` is a payload that does not fit the array of `rx_buf`, `Overread`
a send that would read outside the array of `tx_buf`. The theorems about memory and streams are about the runs that have
not stopped there, and which runs these are is proved exactly (`TcpTheorems.IntactIff`). What `malloc` finds in the memory
it returns and the random sequence number are a parameter (`Chance`). The clock is a parameter too: one nondecreasing
reading for each packet or ARP message, and for `src/map.c` one for each slot.

## Where the code does not do what one might expect

Each of these is stated and proved, with the exact condition.

- `ip_out` sends no fragment with MF=0, and keeps `ip_id`, when the payload is longer than 1480 bytes and a multiple of
  1480; the payload can be reassembled exactly when it fits one packet, or its length is no multiple of 1480 and at most
  66600 (`Fragments.ReassemblyIff`). So a TCP segment of 2940 payload bytes, which `tcp_send` sends when the window allows it,
  can never be rebuilt (`TcpDelivery.LongSegmentIff`, `TcpDelivery.NeverRebuilt`).
- The backup in `ip_out` saves payload bytes, not the header area. What every byte of the caller's payload holds after the
  call is stated in closed form (`IpMemory.LeftByte`). Unless a request went out through the same memory, the payload comes
  back exactly when it is one packet, or already holds, before every fragment boundary, the headers written there: the 20
  of the next fragment, and the 14 of its frame if that was sent at once (`IpMemory.ComesBackIff`; `IpMemory.Changed` for
  all payloads that do not, such as zeros).
- When the address is unknown, or expires between two fragments, and has not been asked for, `arp_req` goes out through
  `txbuf`. If the payload being fragmented lies there, its bytes in the last 60 before the middle of the array are
  overwritten before the next fragment is cut; the receiver then reassembles the payload exactly when its length survives
  and none of those bytes was changed (`IpInput.EffectiveIff`, `IpInput.EndToEnd`, and inputs in `IpInput.SpoiltPayload`).
- The DF test of `ip_in` reads the flags without swapping them, so it looks at a bit of the offset and never at DF; no
  packet that `ip_out` sends is dropped by it (`IpInput.TestedBit`).
- The receiver's checksum test rejects one kind of packet that RFC 1071 accepts (`InetChecksum.TestsAgree`, and a header
  in `InetChecksum.TestsDiffer`).
- An ARP request from a host with a pending queue resolves it without draining the queue, so later packets overtake
  (`ArpProtocol.OutKeepsOrderIff`, `ArpProtocol.OvertakingRun`). With a full `arp_buf` a packet is lost
  (`ArpProtocol.OutConservesIff`; over runs `ArpProtocol.ConservedIff`), and every capacity can be filled (`ArpProtocol.DroppingRun`).
- The counter of a map with a timeout does not notice expiry. A table that was filled once and whose entries have all
  expired holds nothing and refuses every insertion, for good (`SlotMap.ExpiredForGood`, `SlotMap.Exhausts`).
- `tcp_connect_close` on a connection still in LISTEN builds its key from ports that are zero. If port 0 is open, another
  connection's entry is deleted with its buffers (`TcpTheorems.LeakIff`, `TcpRuns.LeakingRun`). Otherwise the entry stays
  (`TcpRuns.RstLeavesEntry`); RSTs from enough ports fill the table, and the next new connection stops the process
  (`TcpRuns.FillingRun`).
- `rx_buf` never compacts, and its payloads are copied whether or not they fit. All that arrives is kept exactly up to
  65662 bytes, however much is read in between (`TcpTheorems.ReceiveStream`). The first payload longer than what is left of
  the array behind those kept before is written past its end (`TcpTheorems.OverrunIff`): that is the 65664th byte of a
  connection, unless a payload once ended exactly at the end of the array and was dropped (`TcpTheorems.OverrunTotals`,
  `TcpStreams.SparedByExactFit`). 45 segments of 1460 bytes are enough (`TcpRuns.OverrunningRun`).
- `tcp_write_to_buf` cuts the in-flight count to 16 bits. A send that meets 65536 bytes in flight repeats earlier bytes at
  new sequence numbers; the stream survives exactly if they equal those that should follow (`TcpTheorems.NextSendIff`,
  `TcpStreams.FlushSendsIff`). Two writes and three sends get there (`TcpRuns.RepeatingRun`).
- A send reads outside the array of `tx_buf` exactly when the in-flight count, cut to 16 bits, is beyond what `tx_buf` holds
  and the peer's window reaches from there past the array (`TcpStreams.OverreadsIff`; over runs `TcpTheorems.OverreadIff`).
  No run does in which no send met 65536 bytes in flight (`TcpTheorems.NarrowRun`); a peer that acknowledges repeated bytes
  gets there (`TcpRuns.OverreadingRun`).

## Model

| member | source | states |
|---|---|---|
| Words.NetworkOrder16 | include/utils.h:12-14 | storing `swap16` of a field leaves it in memory in network order, most significant byte first, and loading with the same swap gives it back |
| Words.NetworkOrder32 | include/utils.h:17-23 | the same for 32-bit fields |
| Words.SwappedLoad | include/utils.h:12-14 | `swap16` of a loaded field is the value of its two bytes in network order |
| Words.SwappedLoad32 | include/utils.h:17-23 | the same for `swap32` |
| InetChecksum.FoldStep | src/utils.c:80 | one turn of the fold loop strictly decreases the sum and keeps its ones'-complement value |
| InetChecksum.OnesComplementUnique | src/utils.c:80 | the folded value is the only number in 1..65535 congruent to a nonzero sum modulo 65535 |
| InetChecksum.NoOverflow | src/utils.c:75-79 | up to 65537 words the 32-bit accumulator holds the true sum |
| InetChecksum.BoundIsTight | src/utils.c:75-79 | one word more and the result can be wrong |
| InetChecksum.SumWords | src/utils.c:75-79 | the two accumulation steps compute the sum of the little-endian words plus the odd byte, modulo 2^32 |
| InetChecksum.FoldCarries | src/utils.c:80 | the fold loop ends with 0 for 0 and with ((sum-1) mod 65535)+1 otherwise |
| InetChecksum.Checksum16 | src/utils.c:74-82 | the whole function, for every length |
| InetChecksum.ByteOrderIndependence | src/utils.c:74-82 | for even-length data, byte-swapped words give the byte-swapped checksum (section 2(B) of RFC 1071) |
| InetChecksum.StoredChecksumAccepted | src/ip.c:93-98 | writing the checksum into its zeroed word satisfies both the code's test and that of RFC 1071 |
| InetChecksum.TestsAgree | src/ip.c:49-55 | the zero-and-compare test is the RFC's test except when the field is 0xFFFF and the nonzero rest already folds to 0xFFFF |
| InetChecksum.TestsDiffer | src/ip.c:49-55 | an IP header that RFC 1071 accepts and the code rejects |
| InetChecksum.CodeAcceptsIff | src/ip.c:49-55 | the code's test in one number: the sum of all words is a nonzero multiple of 65535, and not only because the field adds 0xFFFF to one |
| InetChecksum.ChangedWord | src/ip.c:49-55 | one word changed to a value in another class modulo 65535 takes the sum off the multiples of 65535 |
| Buffer.Buf.Init | src/buf.c:18-27 | the window is the `n` bytes before the middle of the array, or nothing changes |
| Buffer.Buf.AddHeader | src/buf.c:36-44 | succeeds exactly with headroom; dropping what was added gives the old window |
| Buffer.Buf.RemoveHeader | src/buf.c:53-61 | drops from the front, or changes nothing |
| Buffer.Buf.AddPadding | src/buf.c:70-78 | succeeds exactly while the end stays below the last byte; appends zeros and touches nothing else |
| Buffer.Buf.RemovePadding | src/buf.c:87-94 | drops from the back, or changes nothing |
| Buffer.Buf.CopyFrom | src/buf.c:103-112 | the copy has the same window over the same bytes |
| Buffer.Buf.CopyToEnd | src/tcp.c:160-162 | `buf_add_padding`, then a copy to where the window ended whether or not it grew; in the second case the bytes lie behind the window |
| Buffer.Buf.MoveToFront | src/tcp.c:271-272 | the same window at the front of the array, also when old and new place overlap |
| SlotMap.SetDeleteCounted | src/map.c:90-125 | with timeout 0 the counter is the number of keys, through insertions, updates and deletions |
| SlotMap.SetThenGet | src/map.c:90-111 | a live key can always be updated, also in a full map, an absent one set while the counter is below the maximum; the value is then found until it expires; otherwise nothing changes, and no other key ever does |
| SlotMap.DeleteThenGet | src/map.c:119-125 | the key is not found any more, and no other key changes |
| SlotMap.ExpiredForGood | src/map.c:97-99 | a map whose counter stands at the maximum and whose entries have all expired finds nothing and changes no more, at any later time |
| SlotMap.Exhausts | src/map.c:90-111 | every capacity and timeout gets there by filling the map once |
| SlotMap.CountLiveAges | src/map.c:59-62 | live slots only become fewer as the clock advances, and stay the same with timeout 0 |
| SlotMap.RepresentsLater | src/map.c:59-62 | the slot array goes on representing the same abstract map while time passes: at most one live slot a key, every live key has one, counter between live slots and capacity |
| SlotMap.RepresentsSet | src/map.c:90-111 | writing the slot of a live key, or a free slot for an absent one, is the abstract update |
| SlotMap.RepresentsDelete | src/map.c:119-125 | zeroing the timestamp of the key's slot is the abstract deletion |
| SlotMap.ScanAtOnce | src/map.c:71-80 | with a reading of the clock at every slot, `map_get` finds what one look at the whole map would have found at one of these readings |
| SlotMap.FreeScanFinds | src/map.c:97-108 | with such readings, `map_set` finds an expired slot whenever the counter is below the maximum, and it is still free when it is written |
| SlotMap.OverwriteLater | src/map.c:91-95 | a slot that was live when it was found may have expired when it is written: the counter stays, and the array goes on representing the map |
| SlotMap.SlotMap.constructor | src/map.c:14-27 | an empty map with the capacity asked for if that fits the data area, and otherwise as many entries as fit |
| SlotMap.SlotMap.Get | src/map.c:71-80 | returns the slot of the last value set, unexpired and not deleted since, or none |
| SlotMap.SlotMap.Set | src/map.c:90-111 | refines the abstract update; fails exactly for an absent key with `size == max_size` (the final `return -1` is unreachable); no live slot moves, no other key changes |
| SlotMap.SlotMap.Delete | src/map.c:119-125 | refines the abstract deletion; slots of other keys are untouched |
| Queue.Queue.constructor | src/queue.c:15-24 | one node that is head and tail |
| Queue.Queue.TakeFrom | src/queue.c:95-97 | the pointers move to the slot, the nodes with them |
| Queue.Queue.Push | src/queue.c:64-71 | appends; head, tail and chain agree |
| Queue.Queue.Pop | src/queue.c:78-87 | removes the first node, or reports an empty queue |
| Queue.Queue.FreeData | src/queue.c:31-46 | the items are visited once each, in order, if they are wanted gone, and then the nodes |
| Ethernet.FrameDelivered | src/ethernet.c:10-54 | a unicast frame is taken by its addressee and nobody else, with type, source and padded payload |
| Ethernet.FrameLayout | src/ethernet.c:44-52 | a frame byte by byte: addresses, type, payload, zeros up to 60 bytes |
| Ethernet.ClassifyIff | src/ethernet.c:10-32 | what is taken, from the received bytes: frames to this host or to everybody with a type of 1536 or more |
| Ethernet.BroadcastDelivered | src/ethernet.c:10-32 | a frame to everybody is taken by every host |
| Ethernet.EthernetIn | src/ethernet.c:10-32 | the decision from the 14 header bytes; the header is stripped on delivery |
| Ethernet.FrameImage | src/ethernet.c:44-52 | padding and the three header writes put exactly the frame into memory |
| Ethernet.Ethernet.Out | src/ethernet.c:41-54 | the driver gets the frame; the array changes nowhere else |
| ArpProtocol.Handshake | src/arp.c:60-152 | two hosts running this code resolve each other, and a third ignores the request |
| ArpLaws.RequestLayout | src/arp.c:60-73 | a request byte by byte as in RFC 826 |
| ArpLaws.ReplyLayout | src/arp.c:81-97 | a reply byte by byte as in RFC 826 |
| ArpLaws.FramesLayout | src/ethernet.c:41-54 | packets go out in IP frames and messages in ARP frames, each to its address |
| ArpLaws.ParseIff | src/arp.c:107-140 | which packets count as replies and requests, from the received bytes: a reply names both addresses of this host, a request its IP address |
| ArpLaws.Learns | src/arp.c:123-144 | a request or a reply binds the sender's address for 300 seconds if the table has room or knows it already; no other address changes, at any time |
| ArpLaws.NextGoesOut | src/arp.c:160-190 | the next packet to a learnt address goes out at once and to it, without a request |
| ArpLaws.ReplySends | src/arp.c:123-137 | a reply sends exactly what waits for its sender, in order and to its address; no other queue changes |
| ArpLaws.RequestAnswered | src/arp.c:139-145 | a request is answered with one message to its sender, who reads this host's addresses from it; queues stay |
| ArpLaws.AsksOwner | src/arp.c:174-186 | the first packet for an unknown address sends one message to everybody, which only the owner of the address reads as a question to it |
| ArpLaws.SendsAtOnce | src/arp.c:187-190 | a packet for a known address is one frame to it, and nothing else changes |
| ArpLaws.StartsWithAnnouncement | src/arp.c:197-203 | a host begins with an announcement of its own address and two empty tables |
| ArpProtocol.StepValid | src/arp.c:105-191 | between steps every pending queue is nonempty, so `queue_push` finds a tail |
| ArpProtocol.OutLine | src/arp.c:160-191 | exactly where one packet given to `arp_out` ends up relative to the sent and queued ones, and that no other destination is affected |
| ArpProtocol.InLine | src/arp.c:105-152 | a received ARP packet never changes the order of sent then queued packets; a reply moves the whole queue over |
| ArpProtocol.OutConservesIff | src/arp.c:166-186 | one call keeps every packet accounted for exactly when it does not meet a full `arp_buf` |
| ArpProtocol.Conservation | src/arp.c:105-191 | over every run without such a drop, sent plus queued is given, as multisets, for every destination: each packet once, and no other IP frame |
| ArpProtocol.Accounting | src/arp.c:105-191 | over every run from every state, for every destination: sent, waiting and dropped packets are exactly those that were there and those that were given, as multisets |
| ArpProtocol.ConservedIff | src/arp.c:105-191 | so nothing is lost for a destination exactly when nothing for it was dropped, whatever happened to others |
| ArpProtocol.DroppingRun | src/arp.c:176-186 | for every capacity, one packet each for that many destinations and one more: the last is given to `arp_out` and is neither sent nor waiting |
| ArpProtocol.OutKeepsOrderIff | src/arp.c:165-190 | one call keeps first-in-first-out order exactly when it neither drops the packet nor sends it past a different queued one |
| ArpProtocol.OrderKept | src/arp.c:105-191 | over every run without an ARP request from the destination while it is waited for, sent then queued is given, in order |
| ArpProtocol.OvertakingRun | src/arp.c:138-146 | with such a request the second packet overtakes the first |
| ArpProtocol.PendingAsksOnce | src/arp.c:169-186 | `arp_out` sends a request exactly when nothing is known and nothing is waiting |
| Pending.Table.constructor | src/arp.c:199 | an empty table |
| Pending.Table.Append | src/arp.c:169-183 | with the linked queues in the slots: the item goes to the end of the key's queue, or starts one in a slot of its own if there is room; every other queue keeps its items, and no two share a node |
| Pending.Table.PopFrom | src/arp.c:129-131 | one pop takes the first item of the key's queue, and every other queue keeps its items |
| Pending.Table.Forget | src/arp.c:132-136 | the emptied entry goes, and nothing is left to free |
| Arp.Arp.constructor | src/arp.c:197-203 | an empty slot array for each table, and a gratuitous request |
| Arp.Arp.Request | src/arp.c:60-73 | the request goes out, and `txbuf` is overwritten at a fixed place |
| Arp.Arp.Out | src/arp.c:160-191 | over the slot arrays and the linked queues: the protocol step, and what it does to the caller's buffer in each case |
| Arp.Arp.Enqueue | src/arp.c:166-186 | the copy joins the linked queue in its slot, or starts one and asks for the address |
| Arp.Arp.Flush | src/arp.c:125-137 | the linked queue of the sender is sent in push order, and its entry is deleted |
| Arp.Arp.SendAll | src/arp.c:129-131 | the loop of pop and send: every waiting packet goes out once, in order, and the queue ends empty |
| Arp.Arp.In | src/arp.c:105-152 | the protocol step for the parsed packet, and what it leaves in `txbuf` |
| Fragments.PiecesTile | src/ip.c:110-153 | the pieces partition the payload in order, at multiples of 8, in packets of at most 1500 bytes; all but the last have MF=1, the last MF=0 exactly when one exists |
| Fragments.HeaderFields | src/ip.c:81-98 | every header field reads back: version and length, no service class, total length, id, flags without DF, offset, 64 hops, protocol, addresses; and the stored checksum passes the receiver's test |
| Fragments.PacketReads | src/ip.c:81-98 | a receiver reads back route, data and the offset as far as 16 and 13 bits carry it, whatever padding follows |
| Fragments.FillFaithful | src/ip.c:110-153 | pieces placed by offset never contradict the payload |
| Fragments.ReassemblyIff | src/ip.c:110-153 | from any arrival of the fragments, in any order and with repetitions, reassembly by offset (section 3.2 of RFC 791) yields the payload exactly when its length survives |
| IpMemory.HandedTables | src/ip.c:128-145 | over all packets of a call: the address table stays, an address can only expire, and from then on the destination is waited for unless `arp_buf` is full |
| IpMemory.AfterMeets | src/ip.c:128-145 | which packets of a call find the address known, and which send a request out through the memory being fragmented |
| IpMemory.UnsentByte | src/ip.c:128-145 | the bytes not sent yet are those held at entry, but for what the first request left |
| IpMemory.PutBackWrote | src/ip.c:130-134 | putting the 20 saved bytes back restores them in every case, and nothing else |
| IpMemory.TurnHolds | src/ip.c:128-144 | one turn of the loop takes every byte of the payload from its value after `t` packets to that after `t + 1` |
| IpMemory.ByteAtIs | src/ip.c:128-145 | after any number of packets, every byte of the payload in closed form: a header written after the last request, the request, the bytes put back, an earlier header, or what was there |
| IpMemory.ComesBackIff | src/ip.c:128-148 | without a request, the caller's payload comes back exactly when it is one packet or already holds the headers at every boundary |
| IpMemory.Changed | src/ip.c:128-148 | it does not for any payload of more than one packet whose byte 1460 is not 0x45 |
| IpOutput.IpLayer.WriteHeader | src/ip.c:83-98 | the packet stands in the window, and memory changed only in the 20 bytes of the header |
| IpOutput.IpLayer.FragmentOut | src/ip.c:81-101 | the packet goes to `arp_out`; every byte of the memory afterwards: the IP header, the frame header before it if the packet was sent, the request if one clobbered it, and nothing else but padding |
| IpOutput.IpLayer.FullFragment | src/ip.c:128-138 | the same for one full turn of the loop, with the first 20 payload bytes put back |
| IpOutput.IpLayer.LastFragment | src/ip.c:139-144 | the rest goes out with MF=0 and uses up the id, or nothing happens when it is empty |
| IpOutput.IpLayer.Slide | src/ip.c:128-145 | the loop, from the state at its head: all pieces in order, the id used up exactly when there is a last one, every payload byte as stated |
| IpOutput.IpLayer.OutputLarge | src/ip.c:116-148 | the loop hands down exactly the pieces of the payload in order; window and length end as they began; what every payload byte holds |
| IpOutput.IpLayer.OutputSmall | src/ip.c:149-152 | one packet with MF=0 and the id used up; what every payload byte holds |
| IpOutput.IpLayer.Output | src/ip.c:110-153 | the whole function, with a reading of the clock for every packet: what is handed down, `ip_id`, and what every byte of the caller's payload holds afterwards, also when a request clobbers it |
| IpInput.Input | src/ip.c:15-69 | the checks in order, what is passed up, where the window stands after a rejection, what `icmp_unreachable` gets, and which bytes change |
| IpInput.TestedBit | src/ip.c:32 | the bit tested for DF is one of the fragment offset, the real one is never set, and no packet within the MTU is dropped by the test |
| IpInput.JudgeIff | src/ip.c:15-69 | exactly which packets are passed up or refused as unreachable, from the received bytes, with the checksum as a condition on the sum of the 20 bytes |
| IpInput.RejectIff | src/ip.c:38-55 | exactly which packets are answered as too large, are for another host, or fail only the checksum |
| IpInput.OthersNotTaken | src/ip.c:44-47 | a packet addressed to another host is never passed up or refused |
| IpInput.CorruptedNotTaken | src/ip.c:49-55 | neither is one with a header word changed to a value in another class modulo 65535 |
| IpInput.RefusedWhole | src/ip.c:64-68 | `icmp_unreachable` gets the packet as it was sent, without the padding |
| IpInput.LinkRoundTrip | src/ip.c:15-69 | a framed fragment of at most 1480 bytes is accepted by its addressee and delivers its data, protocol and source, padding added and removed |
| IpInput.FramesTaken | src/ip.c:15-69 | every frame of a payload is taken by the addressee, and the pieces read out of them are those sent, as far as their offsets survive |
| IpInput.FrameHeaders | src/ip.c:81-98 | the IP header in every frame of a payload: service class 0, one id for all, no DF bit, 64 hops, protocol and addresses |
| IpInput.HandedPackets | src/arp.c:160-191 | packets go out while the address is known; after it has expired they queue up in order, behind one request unless one is under way |
| IpInput.EffectiveIff | src/arp.c:60-73 | when exactly the bytes sent differ from the bytes held at entry |
| IpInput.OnTheWire | src/arp.c:125-191 | the frames of the packets that find the address known, then a request if one is needed, and when the reply comes the frames of all others, behind those that waited before |
| IpInput.EndToEnd | src/ip.c:110-153 | known, unknown or expiring address: each of these frames is accepted by the addressee, and they reassemble to the bytes held at entry exactly when their length survives and no request has spoilt any of them |
| IpInput.SpoiltPayload | src/udp.c:161-165 | a payload at the end of the lower half of `txbuf` with at least 60 bytes left to send when its destination has to be asked for: what the frames reassemble to is not the payload |
| Transport.OddTailIsZeroPadding | src/udp.c:36-41 | the explicit zero byte has the value of the odd-tail rule |
| Transport.PseudoLayout | src/tcp.c:107-114 | the pseudo-header byte by byte |
| Transport.AddressesCommute | src/tcp.c:110-111 | the sum does not depend on the order of the two addresses |
| Transport.UdpChecksum | src/udp.c:21-49 | the window and all bytes come back, except a zero behind an odd-length datagram; the value is that of pseudo-header and datagram |
| TcpWire.SealedAccepted | src/tcp.c:205-207 | every segment `tcp_send` builds passes `tcp_in` at the peer and is read back unchanged |
| TcpWire.SealedLayout | src/tcp.c:194-207 | a segment byte by byte, with a data offset of five words, no urgent pointer, and the checksum of pseudo-header and segment |
| TcpWire.SumSymmetric | src/tcp.c:105-118 | sender and receiver compute the same checksum with the addresses exchanged |
| TcpWire.AcceptVersusRfc | src/tcp.c:306-313 | the accepted segments are those the RFC accepts, but for the 0xFFFF case |
| TcpWire.AcceptIff | src/tcp.c:295-313 | exactly which segments are accepted, from the received bytes, with the checksum as a condition on the sum of pseudo-header and segment |
| TcpWire.AcceptedFields | src/tcp.c:320-324 | what is read of an accepted segment |
| TcpWire.CorruptedRejected | src/tcp.c:306-312 | a sent segment with one word changed to a value in another class modulo 65535 is not accepted |
| TcpWire.TcpChecksum | src/tcp.c:105-118 | no byte and not the window is changed; the length is cut to 16 bits |
| TcpWire.Seal | src/tcp.c:194-207 | header and checksum around the payload; no other byte changes |
| TcpWire.Check | src/tcp.c:295-324 | the first three steps of `tcp_in` |
| TcpDelivery.SegmentDelivered | src/tcp.c:191-212 | a segment with at most 1460 payload bytes fits one packet, is taken by the link layer, `ip_in` and the checks of `tcp_in`, and is read back unchanged |
| TcpDelivery.LongSegmentIff | src/tcp.c:191-212 | for a segment of any length: each of its frames is taken, and the addressee can rebuild it, to read it back unchanged, exactly when its length survives fragmentation |
| TcpDelivery.NeverRebuilt | src/tcp.c:208 | it cannot for 2940 payload bytes, or any other number that makes full packets only, more than one |
| TcpStreams.ReceiveKeepsRx | src/tcp.c:159-165 | a payload that stays inside the array keeps the receive stream in order, whether the window grows over it or not |
| TcpStreams.KeptIff | src/tcp.c:159-165 | all payloads are kept exactly while their total is at most 65662 bytes |
| TcpStreams.OverrunsIff | src/tcp.c:160-162 | a payload is copied past the end of the array exactly when it is longer than what is left behind the payloads kept; reading in between makes no difference |
| TcpStreams.SpillsIff | src/tcp.c:160-162 | in totals: nothing up to 65663 bytes, and beyond that always, unless a prefix of the payloads ends exactly at the end of the array |
| TcpStreams.SparedByExactFit | src/tcp.c:160-162 | that exception is real: such a payload is dropped, and a shorter one after it is kept |
| TcpStreams.ReadKeepsRx | src/tcp.c:241-250 | reading moves bytes from `rx_buf` to what was read |
| TcpStreams.FlushSendsIff | src/tcp.c:174-212 | one send continues the stream exactly when fewer than 65536 bytes are in flight, or there is nothing to send, or the bytes taken instead equal the next ones |
| TcpStreams.FlushTakes | src/tcp.c:174-181 | while the stream is in order the bytes taken are inside the window of `tx_buf` |
| TcpStreams.OverreadsIff | src/tcp.c:174-178 | a send reads outside the array of `tx_buf` exactly when the in-flight count, cut to 16 bits, is beyond what it holds, and the peer's window reaches from there past the array |
| TcpStreams.FlushKeepsTx | src/tcp.c:174-212 | every send that meets fewer than 65536 bytes in flight keeps the send stream in order |
| TcpStreams.AckKeepsTx | src/tcp.c:486-488 | the plain comparison only takes an acknowledgement strictly inside what is in flight, so no unsent byte is dropped, also across wrap-around |
| TcpStreams.WriteAllOrNothing | src/tcp.c:260-280 | a write takes all of the data or nothing, also through the compaction path |
| TcpStreams.WriteKeepsTx | src/tcp.c:260-280 | and keeps the send stream in order |
| TcpStreams.ScriptKeeps | src/tcp.c:241-280 | any callback that reads and writes keeps a connection in order |
| TcpStreams.ConnectedKeeps | src/tcp.c:465-468 | completing the handshake starts both streams in order |
| TcpStreams.EstablishedKeeps | src/tcp.c:471-523 | so does every segment in ESTABLISHED that leaves no array |
| TcpStreams.EstablishedStopMeans | src/tcp.c:471-523 | such a segment leaves an array exactly by a payload that does not fit, or by the send after the callback in that condition |
| TcpStreams.CloseSends | src/tcp.c:220-226 | closing sends the next stretch of the stream with the FIN, and with it everything written has been sent exactly when what was not in flight fits the peer's window |
| TcpStreams.OpenKeeps | src/tcp.c:410-420 | a connection is born with its invariants |
| TcpOwnership.UpdateKeeps | src/tcp.c:450-563 | an operation on one connection disturbs no other |
| TcpOwnership.ReleaseKeeps | src/tcp.c:97-103 | a release frees two buffers that were never freed before and that nobody else holds |
| TcpOwnership.OpenInv | src/tcp.c:80-89 | a SYN allocates two new buffers for an entry in LISTEN |
| TcpOwnership.CloseInv | src/tcp.c:220-230 | `tcp_connect_close` keeps the machine in order, and strands a connection in one case only |
| TcpOwnership.ResetInv | src/tcp.c:566-574 | so does the reset, whether or not the struct has left the table |
| TcpOwnership.RstInv | src/tcp.c:436-440 | the path that closes and then resets frees every buffer at most once |
| TcpOwnership.SwitchInv | src/tcp.c:450-563 | the switch keeps the machine in order and reaches no state without a case |
| TcpOwnership.TcpInInv | src/tcp.c:288-575 | every segment keeps the machine in order |
| TcpOwnership.ReleaseAllInv | src/tcp.c:131-150 | `tcp_close` over the whole table, in any order, frees every buffer at most once |
| TcpOwnership.StepInv | src/tcp.c:131-575 | every allowed event keeps the machine in order, and loses buffers exactly when it strands a connection |
| TcpTheorems.Ownership | src/tcp.c:80-103 | after every run in which no copy left its array: a connection out of LISTEN stands under its own key and alone holds two allocated buffers; every address is allocated or was freed, and at most once; only six states are reached and no `panic` |
| TcpTheorems.SendStream | src/tcp.c:174-212 | after every such run, in ESTABLISHED, if no send has met 65536 bytes in flight: `tx_buf` is what was written and not acknowledged, and the payloads sent concatenate, at their sequence numbers, to a prefix of what was written |
| TcpTheorems.NextSendIff | src/tcp.c:174-212 | after every such run: the next send keeps it so exactly when fewer than 65536 bytes are in flight, or there is nothing to send, or the bytes it repeats equal those that should follow |
| TcpTheorems.ReceiveStream | src/tcp.c:159-165 | after every such run: read plus `rx_buf` is the payloads kept, which is all that arrived exactly up to 65662 bytes, and `ack` counts every byte and the FIN modulo 2^32 |
| TcpTheorems.Callbacks | src/tcp.c:468-557 | after every such run and for every incarnation: CONNECTED once and first, CLOSED once and last |
| TcpTheorems.StepOverrunsIff | src/tcp.c:159-165 | one step copies past the end of an `rx_buf` exactly when it takes a payload longer than what is left of the array |
| TcpTheorems.OverrunIff | src/tcp.c:159-165 | a run has copied past the end of an `rx_buf` exactly when some incarnation was given a payload longer than what was left of the array |
| TcpTheorems.OverrunAtIff | src/tcp.c:159-165 | the same by events: a run has done so exactly when one of its events brought such a payload |
| TcpTheorems.OverrunTotals | src/tcp.c:159-165 | in totals: never while every incarnation was given at most 65663 bytes, and exactly from then on unless a payload once ended at the end of the array |
| TcpTheorems.StepOverreadsIff | src/tcp.c:174-226 | one step reads outside a `tx_buf` exactly when it is about to send (on a close, a RST, or after a payload) from a connection in that condition |
| TcpTheorems.OverreadIff | src/tcp.c:174-226 | a run has done so exactly when one of its events was about to send from such a connection |
| TcpTheorems.NarrowRun | src/tcp.c:174-178 | never, if no connection about to send had met 65536 bytes in flight |
| TcpTheorems.IntactIff | src/tcp.c:159-181 | the runs whose copies all stayed in their arrays, exactly |
| TcpTheorems.NoLeak | src/tcp.c:220-230 | unless a connection is stranded, every allocated buffer is held |
| TcpTheorems.LeakIff | src/tcp.c:227-229 | a step loses a buffer exactly when it is a RST to an entry in LISTEN whose own fields name another open connection |
| TcpTheorems.NoPortZeroNoLeak | src/tcp.c:69-72 | an application that never opens port 0 never loses a buffer |
| TcpLaws.ReadLaw | src/tcp.c:241-250 | a read returns the bytes waiting, oldest first, up to the length asked for, and takes them out |
| TcpLaws.WriteIff | src/tcp.c:260-280 | a write is taken whole exactly if the peer's window exceeds it together with what is in flight and the array has room behind the window; the count says so |
| TcpLaws.WindowRefuses | src/tcp.c:267-269 | if the window refuses, nothing changes |
| TcpLaws.RoomRefuses | src/tcp.c:270-277 | if only the room refuses, the buffer moves to the front of its array, and one ACK with the next stretch goes out if there is something to send |
| TcpLaws.FlushLaw | src/tcp.c:174-212 | one send: ports, number, acknowledgement, flags, window and bytes of the segment, and the number after it |
| TcpLaws.SynLaw | src/tcp.c:410-420 | a SYN opens the connection with the peer's numbers and two empty buffers, and is answered by one SYN+ACK |
| TcpLaws.NoSynLaw | src/tcp.c:405-409 | a first segment without SYN is answered by a RST, and its entry goes |
| TcpLaws.NotServedLaw | src/tcp.c:332-368 | a port nobody listens on, and a full table |
| TcpLaws.HandshakeLaw | src/tcp.c:454-470 | in SYN_RCVD: ACK opens and tells the application; anything else is ignored |
| TcpLaws.ScriptLaw | src/tcp.c:517 | a handler's operations happen one after the other |
| TcpLaws.FinLaw | src/tcp.c:508-512 | in ESTABLISHED: a FIN is acknowledged with its payload and answered by exactly one FIN+ACK, which counts as one number; next is LAST_ACK |
| TcpLaws.DataLaw | src/tcp.c:515-520 | a payload is taken, the application told, and one ACK with the next stretch answers |
| TcpLaws.BareAckLaw | src/tcp.c:472-521 | an ACK without payload is taken without an answer; without ACK and FIN nothing happens |
| TcpLaws.FinWait1Law | src/tcp.c:532-536 | in FIN_WAIT_1: FIN+ACK ends the connection, ACK moves it to FIN_WAIT_2, anything else is ignored |
| TcpLaws.FinWait2Law | src/tcp.c:543-548 | in FIN_WAIT_2: a FIN is acknowledged and ends the connection; anything else is ignored |
| TcpLaws.LastAckLaw | src/tcp.c:555-558 | in LAST_ACK: an ACK tells the application and ends the connection; anything else is ignored |
| TcpLaws.StrayLaw | src/tcp.c:427-430 | a segment with another number than the expected one is answered by a RST and ends the connection |
| TcpLaws.RstLaw | src/tcp.c:436-440 | a RST with the expected number: an established connection still sends a FIN; a RST answers, and the connection is over |
| TcpLaws.UseLaw | src/tcp.c:241-280 | reads and writes work on their connection alone |
| TcpLaws.CloseLaw | src/tcp.c:221-226 | closing an established connection sends one FIN+ACK with the next stretch and waits in FIN_WAIT_1 |
| TcpLaws.CloseAgainLaw | src/tcp.c:227-230 | closing it later ends it without a word and frees its buffers |
| TcpLaws.OpenPortLaw | src/tcp.c:69-72 | the port is served, and nothing else changes |
| TcpLaws.ClosePortLaw | src/tcp.c:131-150 | the port is not served any more, its connections are back in LISTEN, exactly their buffers are freed, and nothing is sent |
| TcpRuns.LeakingRun | src/tcp.c:398-403 | with port 0 open it happens |
| TcpRuns.OverrunningRun | src/tcp.c:159-165 | a handshake and 45 segments of 1460 bytes, for every peer and every content |
| TcpRuns.RepeatingRun | src/tcp.c:174-181 | writes of 60000 and 5600 bytes and three sends: the third sends bytes 64 to 65598 once more, at sequence numbers beyond all that was written |
| TcpRuns.OverreadingRun | src/tcp.c:174-178 | an acknowledgement of that leads to a send that reads outside the array |
| TcpRuns.RstLeavesEntry | src/tcp.c:398-403 | a RST as first segment leaves an entry in LISTEN behind, exactly unless both ports are 0 |
| TcpRuns.FillingRun | src/tcp.c:350-365 | RSTs from as many ports as the table has slots: the next new connection fails the assertion |
| TcpMachine.Connect.InitRcvd | src/tcp.c:80-89 | two new buffers with empty windows over whatever memory held, and the fields of the struct |
| TcpMachine.Connect.ReadFromBuf | src/tcp.c:159-165 | over the arrays, with the destination computed before the padding: the operation, or a report that the copy would leave the array, exactly then |
| TcpMachine.Connect.WriteToBuf | src/tcp.c:174-181 | the bytes stand at the end of the lower half of the shared `txbuf`, and the counter advances; or a report that the copy would leave the array, exactly then |
| TcpMachine.Connect.Send | src/tcp.c:191-212 | the segment of the state machine, sealed in `txbuf` behind its header and checksum, and logged as the bytes given to `ip_out` |
| TcpMachine.Connect.ConnectRead | src/tcp.c:241-250 | the operation, and the bytes returned; the compaction branch after it is dead |
| TcpMachine.Connect.ConnectWrite | src/tcp.c:260-280 | the operation on the array of `tx_buf`, and the count returned |
| TcpMachine.Connect.CompactAndFlush | src/tcp.c:270-276 | the move to the front of the array, and the send of what the window allows |
| TcpMachine.Connect.OnEstablished | src/tcp.c:471-523 | the operation, or the copy at which it stops |
| TcpMachine.Stack.constructor | src/tcp.c:55-59 | the initial state |
| TcpMachine.Stack.HandedOver | src/tcp.c:191-212 | the bytes given to `ip_out` for an open connection are its segments, in order, each sealed for its peer; likewise for the resets |
| TcpMachine.Stack.Release | src/tcp.c:97-103 | two buffers leave the heap and every other connection keeps its own; also on a struct that has left the table |
| TcpMachine.Stack.ConnectClose | src/tcp.c:220-230 | the operation, or the copy at which it stops |
| TcpMachine.Stack.ResetTcp | src/tcp.c:566-574 | the operation, also on a struct that has left the table |
| TcpMachine.Stack.AcceptSyn | src/tcp.c:410-420 | the operation: two buffers that nobody holds, and the SYN+ACK |
| TcpMachine.Stack.Dispatch | src/tcp.c:450-563 | the operation, from bytes in the receive buffer |
| TcpMachine.Stack.OnSegment | src/tcp.c:398-575 | step 8 on, from bytes in the receive buffer |
| TcpMachine.Stack.In | src/tcp.c:332-575 | step 4 on, with the new entry of the table |
| TcpMachine.Stack.TcpIn | src/tcp.c:288-575 | from the bytes of a segment: the checks, then one step of the machine, whose invariant holds again |
| TcpMachine.Stack.Read | src/tcp.c:241-250 | one step of the machine, and its invariant |
| TcpMachine.Stack.Write | src/tcp.c:260-280 | one step of the machine, and its invariant |
| TcpMachine.Stack.Close | src/tcp.c:220-230 | one step of the machine, and its invariant |
| TcpMachine.Stack.OpenPort | src/tcp.c:69-72 | one step of the machine, and its invariant |
| TcpMachine.PortTableFits | src/map.c:14-17 | the port table, sized by the data area, has room for every port, so opening one never fails |
| TcpMachine.Stack.ClosePort | src/tcp.c:145-150 | one step of the machine, and its invariant |

## Left out

- Tcp.Step: the handler pointer kept in a connection, the handler found for a port and the maximum segment size field are not modelled; a callback is any sequence of reads and writes on its connection, and the one of CLOSED may come from either pointer.
- Tcp.Peek: a send that begins or ends outside the array of `tx_buf` stops the machine; what the C code would send then is not modelled.
- Tcp.Receive: a payload that would leave the array of `rx_buf` stops the machine; what it overwrites there is not modelled.
- TcpMachine.Connect.Send: stops at the call of `ip_out`; the sealed segment is followed to the peer in `TcpDelivery.SegmentDelivered` for segments of one packet, but what `ip_out` leaves in `txbuf` is not carried into the next operation, which initialises it.
- TcpMachine.Stack.TcpIn: the connection table is a map from keys to structs, not the slot array of `SlotMap`.
- TcpMachine.Stack.In: likewise.
- SlotMap.SlotMap.Get: the methods take one reading of the clock for an operation; that a reading at every slot makes no difference is `SlotMap.ScanAtOnce`, `SlotMap.FreeScanFinds` and `SlotMap.OverwriteLater`. `map_foreach` appears only as the order in which `tcp_close` visits entries.
- SlotMap.SlotMap.Set: likewise.
- SlotMap.SlotMap.Delete: likewise.
- IpOutput.IpLayer.Output: does not cover a window without room for headers and padding, where the code ignores the failed window operations.
- Arp.Arp.Out: takes one reading of the clock for its up to three accesses to the tables. The memory of popped packets, which the code never frees, is not modelled.
- Transport.UdpChecksum: the protocol byte comes from an area `udp_out` has not filled yet, so nothing is said about the checksum of transmitted datagrams.
- Packet capture, device selection, `src/http.c`, `src/main.c`, `src/icmp.c` and `src/net.c`: library calls, file input and dispatch.
- The `udp_in`, `udp_out` and port tables of `src/udp.c`: a table lookup around the checksum.
- TCP liveness, retransmission, window compliance and options: the code has none of the first three and strips fixed headers.
- Logging and string conversion; `debug_macros.h` is not part of this model, and a failed `Assert` stops the machine (`TableFull`).
