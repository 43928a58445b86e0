# Verified model of a Wi-Fi driver's stateful core

This project models the parts of the driver whose correctness rests on state and on
bit-exact formats, and proves what they keep, undo and promise. Each module follows one
component of `core/`:

- `CmdProtocol` and `CmdQueue`: the command queue of `rtw_cmd.c`. `CmdProtocol` is a step
  system: any number of submitting threads, a timeout for each waiter, one worker, its
  shutdown drain and the rest of the driver take atomic steps in every order; heap commands
  and the submit contexts on the waiters' stacks have explicit lifetimes. `CmdQueue` has the
  functions on the list as methods over objects.
- `Nat25Map`, `Nat25Cache` and `Nat25Table`: the NAT2.5 bridge database of `rtw_br_ext.c` and
  the source cache the transmit path keeps of it. The table is the chained hash table with
  `next`/`pprev` links and the cache fields; map and cache values are what it stands for.
- `Pppoe`, `Vlan`, `Dhcp`: the packet rewriting of the same file, on byte buffers.
- `ApStations`, `Elements`, `Tim`, `Beacon`, `Ageing`: the access point of `rtw_ap.c`: station
  counters and the fields they drive, information elements, the TIM encoder, splicing of the
  beacon in place, ageing of stations.
- `Sounding`: the beamforming sounding period of `rtw_beamforming.c`.
- `Ppe`: the PPE threshold parser of `rtw_he.c`.
- `Eeprom`: bit-serial reads of `rtw_eeprom.c`, down to edges of the clock line.
- `Wrappers`, `Bytes`, `Bits`, `Sequences`: what the others share.

A class stands for a C object that is updated in place, its methods for the C functions, and
their postconditions give the whole new state as a function of the old one. The lemmas are
about those functions and about runs of them.

## What the proofs found

Where the code does not do what its comments or the standard say, the model follows the code.
Each entry names a lemma or method at an input where the code fails, unless it fails at all
inputs of a kind, and the condition under which it is right, proved in both directions.

- The comment at `core/rtw_cmd.c:695` says that clearing `cmdthd_running` keeps commands from
  being queued after the drain. A thread between its filter test and its insertion still
  queues one, which is then never served: `CmdProtocol.StrandedCommand`; such a thread is the
  only cause: `CmdProtocol.StrandedIff`.
- With `CONFIG_LPS_LCLK` a command put back at the head of the list can be left there with
  nobody in the model to wake the worker: `CmdProtocol.LostWakeupWithLps`,
  `CmdProtocol.NoLostWakeup`. The power-save wake event (`cpwm_event`,
  `include/rtw_pwrctrl.h:417`) might do it; it is not defined in this tree and not part of
  this model.
- `rtw_enqueue_cmd` frees a command that is too long but returns the filter's success:
  `CmdQueue.OversizeSucceeds`; success means queued exactly when an allowed command is short
  enough: `CmdQueue.CmdPriv.Enqueue`.
- A use count at the largest `atomic_t` wraps to a negative number at the next lookup:
  one insertion and 2^31 - 1 lookups get there, `Nat25Map.LookupCanWrap`. For one lookup the
  condition is `Nat25Map.LookupKeepsPositiveIff`; over a run the count stays positive exactly
  when its tally fits: `Nat25Map.CountableIff`.
- When a frame from an unknown source goes out, `scdb_entry` becomes NULL but `scdb_mac` and
  `scdb_ip` stay; the receive path compares only `scdb_ip`, and can answer for an address that
  ageing has removed: `Nat25Cache.StaleShortcut`. It answers for known addresses only in exactly
  the runs in which no sweep or cleanup removes the copied address while the pointer is NULL:
  `Nat25Cache.KnownAfterIff`, `Nat25Cache.ShortcutKnownIff`.
- `scdb_findEntry` ignores its MAC argument, so the shortcut can give another MAC address than
  the database: `Nat25Cache.OtherMac`. It agrees with the database in exactly the runs without
  that, without a new MAC address for the copied address, and without a removal as above:
  `Nat25Cache.AgreesAfterIff`, `Nat25Cache.ShortcutAgreesIff`.
- A frame from the cached MAC address with another source IP address restamps the cached entry
  and not its own, which is aged out while its source is sending: `Nat25Cache.SecondAddressAges`,
  `Nat25Cache.RestampsOwnIff`.
- A request refused for lack of room has already lost its earlier relay tag:
  `Pppoe.InsertRefused`.
- The length of the PPPoE relay tag is read without byte swapping. A little-endian host
  therefore forwards a request exactly when the packet has room for 4 + 256 (8 + n) bytes,
  n being the length of an earlier relay value: `Pppoe.InsertForwardsIff`. It then copies from
  behind the tag, and the packet is never the specified one:
  `Pppoe.LittleEndianNeverSpecified`, with 2052 bytes of room `Pppoe.LittleEndianForwards`. The
  specified packet is forwarded on big-endian hosts only: `Pppoe.InsertSpecifiedIff`.
- The DHCP checksum update adds the whole flags word instead of its change: the right checksum
  of a request with flags 1 becomes wrong, `Dhcp.FlaggedFrameBreaks`; a valid one stays valid
  exactly when all flags were zero, `Dhcp.StaysValidIffFlagsZero`. A checksum of 0x8000 becomes
  0, which means none, `Dhcp.ChecksumLost`; in general `Dhcp.NewFieldZeroIff`. A datagram sent
  without a checksum gets one, unless every flag is then set: `Dhcp.UncheckedGetsChecksum`.
- `rtw_add_bcn_ie` gives up when the element to be replaced or followed is empty or missing, and
  `rtw_remove_bcn_ie` does not remove an empty element: `Beacon.EmptyElements`,
  `Beacon.AddedIsInsertOrReplaceIff`, `Beacon.RemovedUndoesAddedIff`.
- The place of a new TIM is computed as if a DS parameter set were there. Without one it can
  fall inside another element, or past the end of the list, where the length of what follows
  wraps: `Beacon.NoDsBreaksList` has both. The list with the TIM at its k-th place is written
  exactly when the k-th element starts at the computed place, or later behind octets that can be
  exchanged with the TIM's: `Beacon.NewTimRightIff`. The second happens when an element ends with
  a copy of the TIM (`Beacon.CopyIsWellPlaced`), and never when the octet at the place is not the
  TIM's ID (`Beacon.WellPlacedIsBoundary`) or the place is past the end
  (`Beacon.PastTheEndNeverRight`).
- A station that associates again keeps HT flags its new capabilities do not call for:
  `ApStations.RejoinKeepsHt20`, `ApStations.RejoinCountsAsNewIff`.
- The Barker preamble bit is only rewritten together with the protection bits and can lag:
  `ApStations.BarkerCanLag`; for one step `ApStations.BarkerStepIff`, for a run
  `ApStations.ReplayFromRight`.
- Ageing of the authentication list frees entries without clearing their flags first. A non-ERP
  station that authenticates again is moved there as it is (`core/rtw_mlme_ext.c:2595-2633`) and
  may be freed: `ApStations.LostStation`; it is counted for ever and keeps protection on:
  `ApStations.StaleProtects`. The counters tell the number of stations after exactly the runs
  that free no entry with a flag: `ApStations.CleanRunIff`, `ApStations.ReplayFromRight`.
- `eeprom_read` at an odd address with length 0 stores 256 bytes, because the length byte wraps:
  `Eeprom.ZeroLengthStores`; how many it stores for every start and length is in
  `Eeprom.Adapter.Read`.
- `eeprom_read` reports success even when the adapter is gone and the bytes are wrong:
  `Eeprom.GoneReportsSuccess`. The adapter is noticed to be gone by the end exactly when it was
  before or the removal comes within the questions of the words read, and otherwise every byte is
  right: `Eeprom.Adapter.Read`.
- The PPE threshold parser reads one byte past the field exactly when the number of threshold
  pairs is positive and not 3 more than a multiple of 4: `Ppe.PackedReadableIff`, with one pair
  `Ppe.OnePairReadsOn`. What it stores never depends on that byte: `Ppe.PackThenParse`.
- A station on the association list that is not in the associated state is never removed by
  ageing; while it is silent its timer runs out and starts again, for ever:
  `Ageing.OnlyAssociatedRemoved`, `Ageing.UnassociatedCycles`.

## Model

| member | source | states |
|---|---|---|
| CmdProtocol.NoUseAfterFree | core/rtw_cmd.c:543-726 | In every interleaving of submitters, timeouts, worker and drain, no step touches a freed command or the context of a waiter that has returned |
| CmdProtocol.FifoExactlyOnce | core/rtw_cmd.c:619-640 | Accepted commands leave the list for good once each, in acceptance order, head re-insertion included, and exactly those are freed |
| CmdProtocol.AllocatedIff | core/rtw_cmd.c:370-410 | No command leaks: in every reachable state exactly those are allocated that a thread has yet to bring to the list or that were accepted and have not left it for good |
| CmdProtocol.WaiterIsToldOutcome | core/rtw_cmd.c:651-723 | In every run each submit context says submitted until the worker writes its status word, and then how that command was settled: executed with success or error, or dropped; completion is signalled only after that |
| CmdProtocol.ServesUntilStopped | core/rtw_cmd.c:543-581 | Until the driver is stopped or a wait is interrupted the worker stays in its loop and commands are let in |
| CmdProtocol.StopsExecuting | core/rtw_cmd.c:559-575 | Once the driver is stopped at most one more command is executed, and only when the worker had passed its last test |
| CmdProtocol.NoneExecutedAfterClearing | core/rtw_cmd.c:695-726 | Once cmdthd_running is cleared no command is executed any more |
| CmdProtocol.NoLostWakeup | core/rtw_cmd.c:543-581 | In every reachable state a command on the list has a raised semaphore, a thread about to raise it, or a worker that will look, exactly when the build lacks CONFIG_LPS_LCLK |
| CmdProtocol.LostWakeupWithLps | core/rtw_cmd.c:619-640 | A reachable state of the power-save build with a command on the list and a worker blocked on a zero semaphore |
| CmdProtocol.StrandedIff | core/rtw_cmd.c:695-726 | After the drain some continuation leaves a command on the list exactly when a thread stood between filter and insertion; nothing is served any more |
| CmdProtocol.StrandedCommand | core/rtw_cmd.c:695-726 | A reachable state, in every build, with the worker gone and a command on the list whose submitter was told it is queued |
| CmdProtocol.InvReachable | core/rtw_cmd.c:862-876 | The invariant tying mutex, status word, sctx pointer and lifetimes together holds in every reachable state |
| CmdProtocol.SubmitInv | core/rtw_cmd.c:862-876 | Every step of a submitting or waiting thread keeps the invariant, the clearing of cmdobj->sctx under the mutex among them |
| CmdProtocol.SettleInv | core/rtw_xmit.c:8308-8324 | Every step of completing a waiter and disposing of the command keeps the invariant |
| CmdProtocol.LoopInv | core/rtw_cmd.c:543-726 | Every step of the worker's loop and drain keeps the invariant |
| CmdProtocol.InHandAlive | core/rtw_cmd.c:575-585 | The command in the worker's hands is allocated, accepted, not finished and no longer listed |
| CmdProtocol.QueuedAlive | core/rtw_cmd.c:252-303 | Every command on the list is allocated, accepted and not finished |
| CmdQueue.CmdPriv.CmdFilter | core/rtw_cmd.c:321-366 | A command is let in exactly when the thread runs and the hardware is up or the command needs none |
| CmdQueue.LetIn | core/rtw_cmd.c:321-366 | The four bits decide: a channel plan or a command without I/O is let in before the hardware is up, nothing once the thread has stopped |
| CmdQueue.CmdPriv.Insert | core/rtw_cmd.c:166-222 | The list after an insertion at head or tail; always success, also for NULL |
| CmdQueue.CmdPriv.Dequeue | core/rtw_cmd.c:252-303 | NULL exactly for an empty list, otherwise the old list is the result followed by the new list |
| CmdQueue.CmdPriv.Enqueue | core/rtw_cmd.c:370-410 | The command is queued and the semaphore raised, or it is freed; success means queued exactly when an allowed command is short enough |
| CmdQueue.OversizeSucceeds | core/rtw_cmd.c:370-410 | A command one byte too long is freed and its caller told that it was queued |
| CmdQueue.CmdPriv.SctxDoneErr | core/rtw_xmit.c:8308-8319 | The context has the status and is completed, and the command's pointer to it is cleared |
| CmdQueue.CmdPriv.DropAll | core/rtw_cmd.c:698-726 | The drain loop frees every listed command once, in order, and wakes each waiter with the drop status |
| CmdQueue.CmdPriv.DrainAll | core/rtw_cmd.c:695-726 | The same from the thread's exit: no command is let in afterwards, the list is empty |
| Nat25Map.ExpiredMeansAged | core/rtw_br_ext.c:152-159 | The wrapping comparison of jiffies says expired exactly when the ageing time has passed, for entries not older than half the counter's range more |
| Nat25Map.OldLooksFresh | core/rtw_br_ext.c:152-159 | For another half of the counter's range after that, an entry that is still there counts as fresh |
| Nat25Map.TimerIsStamp | core/rtw_br_ext.c:471-505 | In every run a present entry has the timer of its last insertion or restamping and the MAC address of its last insertion |
| Nat25Map.AnswersWhileFresh | core/rtw_br_ext.c:398-468 | After every run an entry stamped less than the ageing time ago answers with the MAC address of its last insertion and passes a sweep unchanged; an older one does neither |
| Nat25Map.UseCountIsTally | core/rtw_br_ext.c:398-411 | In every run an entry's use count is 1 plus its unexpired lookups minus the sweeps that found it expired, kept in 32 bits |
| Nat25Map.UseCountPositive | core/rtw_br_ext.c:637-706 | While the tally fits an atomic_t, every entry has use count at least 1, equal to its tally |
| Nat25Map.UnlinkedExactlyAtZero | core/rtw_br_ext.c:637-706 | A sweep unlinks an entry exactly when it takes the tally to 0 |
| Nat25Map.LookupKeepsPositiveIff | core/rtw_br_ext.c:398-411 | A lookup keeps the use count positive exactly when the entry has expired or the count is below the largest atomic_t |
| Nat25Map.LookupCanWrap | core/rtw_br_ext.c:398-505 | From the empty database one insertion and 2^31 - 1 lookups leave the entry with a negative use count |
| Nat25Map.CountableIff | core/rtw_br_ext.c:398-706 | In every run the tallies of an entry fit an atomic_t exactly when its use count is positive at every point |
| Nat25Map.GoneAfterKSweeps | core/rtw_br_ext.c:637-706 | An expired entry with use count k that is not restamped survives exactly the first k - 1 sweeps, whatever else happens; one whose count has become negative, all that it takes to go round |
| Nat25Map.TallyStep | core/rtw_br_ext.c:398-505 | One event changes the use count of a surviving entry as it changes the tally |
| Nat25Cache.TraceRuns | core/rtw_br_ext.c:471-706 | Every run of insertions, lookups, sweeps, cleanups and transmissions is on the database a run of the map, so the tally and the end of an entry hold of it |
| Nat25Cache.StaysLive | core/rtw_br_ext.c:606-610 | In every such run a cached entry is in the database and is that of the cached IP address |
| Nat25Cache.ClearedThroughoutIff | core/rtw_xmit.c:4969-4987 | The copies of MAC and IP address are zero whenever no entry is cached, in exactly the runs in which no frame from an unknown source was sent while one was cached |
| Nat25Cache.ClearsAgainIff | core/rtw_xmit.c:4969-4987 | Copies left behind are cleared or made right by exactly the next frame from the copied MAC address or from a known source |
| Nat25Cache.RestampsOwnIff | core/rtw_xmit.c:4941-4987 | A frame restamps the entry of its own address exactly when its MAC address is not the cached one or that entry is the cached one |
| Nat25Cache.RestampsOnly | core/rtw_xmit.c:4941-4987 | It changes at most one timer, that of its own address or of the cached one, and nothing else |
| Nat25Cache.SecondAddressAges | core/rtw_xmit.c:4941-4950 | A run in which an entry is aged out although its source has just sent from that address |
| Nat25Cache.KnownAfterIff | core/rtw_br_ext.c:1406-1411 | An address the shortcut answers for stays in the database over a call exactly unless a cleanup, or a sweep that frees it, finds the pointer NULL |
| Nat25Cache.ShortcutKnownIff | core/rtw_br_ext.c:1406-1411 | The shortcut answers only for the zero address and addresses in the database throughout exactly the runs without such a call |
| Nat25Cache.AgreesAfterIff | core/rtw_br_ext.c:1538-1557 | The shortcut's MAC address stays the database's over a call exactly unless the call strands it, enters another MAC address for it, or caches an entry of another MAC address |
| Nat25Cache.ShortcutAgreesIff | core/rtw_br_ext.c:1406-1411 | Shortcut and database agree throughout exactly the runs without such a call |
| Nat25Cache.OtherMac | core/rtw_br_ext.c:1538-1557 | A run of two calls after which they give different MAC addresses, with the entry cached |
| Nat25Cache.StaleShortcut | core/rtw_br_ext.c:1406-1411 | A run of four calls after which the shortcut answers for an address that ageing has removed |
| Nat25Table.HashLink | core/rtw_br_ext.c:377-386 | The bucket's chain becomes the entry followed by the old chain, next and pprev links exact |
| Nat25Table.HashUnlink | core/rtw_br_ext.c:388-396 | The chain skips exactly the unlinked entry, at any position; other buckets stay |
| Nat25Table.Bridge.Find | core/rtw_br_ext.c:398-411 | The walk finds the live entry with the key, and none exactly when the map has none |
| Nat25Table.Bridge.Lookup | core/rtw_br_ext.c:398-468 | Refines the map's lookup; yields the MAC exactly for a present, unexpired entry |
| Nat25Table.Bridge.Insert | core/rtw_br_ext.c:471-505 | Refines insert-or-refresh of the map: a present entry gets the new MAC address and time and keeps its count |
| Nat25Table.Bridge.Expire | core/rtw_br_ext.c:622-706 | Refines the sweep over all buckets on map and cache: the three cache fields are cleared when the cached entry is freed and stay otherwise |
| Nat25Table.Bridge.Cleanup | core/rtw_br_ext.c:594-620 | Empties map and chains, frees every entry; the cache fields are cleared when an entry was cached and stay otherwise |
| Nat25Table.Bridge.FindEntry | core/rtw_br_ext.c:1538-1557 | The entry of the IP address, null exactly when the map has none |
| Nat25Table.Bridge.Transmit | core/rtw_xmit.c:4969-4987 | Refines the cache step: search for another MAC address, restamping of the entry found or cached, clearing of the copies; the frame skips the database exactly when an entry is then cached |
| Nat25Table.Bridge.Replay | core/rtw_br_ext.c:325-706 | Any run of insertions, lookups, sweeps, cleanups and transmissions on the table is the run of map and cache; chains stay acyclic, disjoint, exact and in their buckets, keys unique, and the cache pointer, which transmissions set, null or live |
| Pppoe.FindInList | core/rtw_br_ext.c:84-100 | The walk over an encoded tag list finds the first tag of the type, where it stands |
| Pppoe.Skb.Find | core/rtw_br_ext.c:84-100 | The loop is that walk |
| Pppoe.Skb.Pull | core/rtw_br_ext.c:121-140 | Cuts the bytes out when they lie inside the packet, else changes nothing |
| Pppoe.Skb.Add | core/rtw_br_ext.c:102-119 | Makes room for as many bytes as the copy takes, moves the tags, counts and copies them, or refuses for lack of room; on hosts of both byte orders |
| Pppoe.TakeOldOk | core/rtw_br_ext.c:1119-1135 | An earlier relay tag is refused when too long for the tag buffer, otherwise its value is kept and the packet carries exactly the other tags |
| Pppoe.InsertForwardsIff | core/rtw_br_ext.c:1113-1150 | On hosts of both byte orders a request is forwarded exactly when an earlier relay value fits the tag buffer and the packet has room for what the copy takes, 256 times the tag's value plus its header on a little-endian one |
| Pppoe.InsertResult | core/rtw_br_ext.c:102-119 | What a forwarded packet carries, from the tag buffer and from behind it, and its length field |
| Pppoe.LittleEndianNeverSpecified | core/rtw_br_ext.c:102-119 | A packet forwarded by a little-endian host is never the request with the relay tag in front |
| Pppoe.InsertSpecifiedIff | core/rtw_br_ext.c:1113-1150 | The specified packet is forwarded exactly on a big-endian host, when the earlier relay value fits and there is room |
| Pppoe.InsertRefused | core/rtw_br_ext.c:1113-1150 | A request refused for its relay value stays as it is; one refused for lack of room has lost its earlier relay tag and keeps all others |
| Pppoe.RelayTagOctets | core/rtw_br_ext.c:1137-1146 | The octets of the relay tag of a request without one |
| Pppoe.LittleEndianForwards | core/rtw_br_ext.c:102-119 | A little-endian host forwards a request without tags and 2052 bytes of room, 2052 bytes longer and not as specified |
| Pppoe.InsertPutsRelayFirst | core/rtw_br_ext.c:1113-1150 | On a big-endian host the forwarded packet has the relay tag first, every other tag after it, a right length field and the same header |
| Pppoe.LookupStrips | core/rtw_br_ext.c:1183-1225 | A reply echoing the tag goes to the client named in it, keeps every other tag, gets the earlier relay value back, and is shorter by what went |
| Pppoe.LookupForwardsIff | core/rtw_br_ext.c:1183-1225 | For every well-formed reply: forwarded exactly when its first relay tag has at least 8 octets and our magic code; otherwise refused and not touched |
| Pppoe.OtherRelayStays | core/rtw_br_ext.c:1203-1208 | The reply of another relay agent is refused and not touched |
| Pppoe.RelayRoundTrip | core/rtw_br_ext.c:1113-1225 | Request and reply together: for every well-formed request and every reply that echoes its tag the reply goes to the original client with the earlier relay value restored |
| Pppoe.Skb.TakeOut | core/rtw_br_ext.c:1119-1135 | The buffer code removes an earlier relay tag as specified |
| Pppoe.Skb.InsertRelay | core/rtw_br_ext.c:1113-1150 | The buffer code is the specified insertion, result code included, on hosts of both byte orders |
| Pppoe.Skb.LookupRelay | core/rtw_br_ext.c:1183-1225 | The buffer code is the specified lookup, result code included |
| Vlan.UntagRetag | core/rtw_br_ext.c:1387-1433 | Taking the tag off and putting it back is the identity, and the other way round |
| Vlan.HandledAroundTag | core/rtw_br_ext.c:1367-1440 | Every tagged frame comes out with its own tag around the handling of its untagged form, whatever that handling does |
| Vlan.GroupFramesPass | core/rtw_br_ext.c:1367-1440 | Group frames pass unchanged, others come out as handled, and of the results only -1 is a failure |
| Vlan.DestinationDecides | core/rtw_br_ext.c:1406-1421 | Octets 16 to 19 of the IP header decide: for the cached address only the destination MAC address is rewritten, to what the cache's shortcut gives, every other IPv4 frame goes to the database |
| Vlan.OwnAddressDecides | core/rtw_br_ext.c:1413-1422 | With the database off exactly the IPv4 and ARP frames to the bridge's own address are looked up |
| Vlan.Skb.MoveAddressesUp | core/rtw_br_ext.c:1394-1395 | Six overlapping two-byte copies from the back move the addresses up by four |
| Vlan.Skb.MoveAddressesDown | core/rtw_br_ext.c:1428-1430 | Six two-byte copies from the front move them back |
| Vlan.Skb.StripTag | core/rtw_br_ext.c:1391-1397 | The frame without its tag |
| Vlan.Skb.PutTag | core/rtw_br_ext.c:1427-1433 | The frame with the tag put in |
| Vlan.Skb.HandleUntagged | core/rtw_br_ext.c:1399-1425 | The cache shortcut, the database and the bridge's own address, as the branches say |
| Vlan.Skb.HandleFrame | core/rtw_br_ext.c:1367-1440 | The buffer code is the specified handling for every frame and every handler |
| Dhcp.OnesSumIsModular | core/rtw_br_ext.c:1497-1535 | The end-around-carry sum of words is their sum modulo 2^16 - 1, with 0 only for all-zero words |
| Dhcp.AllOnesIff | core/rtw_br_ext.c:1497-1535 | A datagram checks out exactly when its words sum to a positive multiple of 2^16 - 1 |
| Dhcp.Fold | core/rtw_br_ext.c:1526-1527 | The folding loop ends and gives the one's complement value of the sum |
| Dhcp.DhcpFlagBcast | core/rtw_br_ext.c:1497-1535 | The frame changes exactly for an IPv4 UDP DHCP request with the broadcast bit clear, and then in flag and checksum only |
| Dhcp.EveryOctetDecides | core/rtw_br_ext.c:1497-1518 | A request with any octet of EtherType, protocol, ports or cookie changed is none |
| Dhcp.OnlyRequestsMarked | core/rtw_br_ext.c:1497-1518 | Such a frame, or one with its broadcast flag set, stays as it is |
| Dhcp.MarkedDatagram | core/rtw_br_ext.c:1521-1528 | The words of the marked datagram sum to the old sum with two words exchanged |
| Dhcp.ValidAfterIff | core/rtw_br_ext.c:1521-1528 | At any length and in both byte orders the checksum is valid afterwards exactly when the words before summed to the old flags word |
| Dhcp.StaysValidIffFlagsZero | core/rtw_br_ext.c:1521-1528 | A valid checksum stays valid exactly when all flags were zero |
| Dhcp.FlaggedFrameBreaks | core/rtw_br_ext.c:1521-1528 | A whole request with flags 1 and a checksum that is right for it and its pseudo header has a wrong one afterwards |
| Dhcp.ChecksumLost | core/rtw_br_ext.c:1521-1528 | A whole request without flags and with a right checksum of 0x8000 has the field 0 afterwards |
| Dhcp.NewFieldZeroIff | core/rtw_br_ext.c:1521-1528 | The new checksum field is 0, which means none, exactly when the old one was the new flags word, or was 0 with every flag set |
| Dhcp.UncheckedGetsChecksum | core/rtw_br_ext.c:1521-1528 | A datagram sent without a checksum, whatever its flags, gets one exactly unless every flag is then set, and a right one exactly when its words summed to the old flags word |
| ApStations.AccessPoint.Raise | core/rtw_ap.c:3519-3665 | A flag is set and counted once |
| ApStations.AccessPoint.Lower | core/rtw_ap.c:3519-3665 | A flag is cleared and its counter, which was positive, goes down once |
| ApStations.AccessPoint.Join | core/rtw_ap.c:3500-3673 | After an association or re-association: the flags, every counter equal to the number of carriers, the ERP octet and the meaning of the HT operation mode |
| ApStations.AccessPoint.Leave | core/rtw_ap.c:3696-3764 | After a leave: no flags, counters right, ERP octet and the meaning of the HT operation mode; the warning on a zero counter is never reached |
| ApStations.AccessPoint.BssCoex | core/rtw_ap.c:3297-3355 | A coexistence frame of any length sets and counts the intolerant flag, or the two requests, as the octets read say |
| ApStations.CoexFrames | core/rtw_ap.c:3319-3345 | What concrete frames say: intolerant, 20 MHz request, channel report, and none of them |
| ApStations.AccessPoint.UpdateErp | core/rtw_ap.c:2984-3016 | The octet is rewritten with a test for exactly one non-ERP station; other bits stay |
| ApStations.BarkerStepIff | core/rtw_ap.c:3519-3574 | A right Barker bit is right after a step exactly when the octet was rewritten, or whether there are stations without short preambles did not change |
| ApStations.AccessPoint.HtOperationUpdate | core/rtw_ap.c:3398-3467 | Mode 3 exactly with a non-HT station, else 2 exactly when 40 MHz wide with a 20 MHz station, else 1 exactly with legacy networks around, else 0; bit 2 for non-greenfield, bit 4 for non-HT stations; other bits stay; returns 0 exactly when nothing changed |
| ApStations.HtFieldMeans | core/rtw_ap.c:3411-3458 | The same of the field as a function of the stations |
| ApStations.HtFieldForgets | core/rtw_ap.c:3398-3467 | The field is independent of its earlier station bits, keeps all other bits, and updating twice is updating once |
| ApStations.Replay | core/rtw_ap.c:3500-3764 | Over every run of arrivals, joins, joins again, leaves, coexistence frames and entries freed in any state: each counter is the number of entries, freed ones included, with its flag; the protection bits say whether one is non-ERP although the writer tests for exactly one; the HT operation mode is its function of them; the Barker bit is that of the last rewriting |
| ApStations.ReplayFromRight | core/rtw_ap.c:475-481 | After a run from a right state the counters tell the number of stations exactly when no entry was freed with a flag, and the Barker bit is right exactly when the last rewriting and the end agree on stations without short preambles |
| ApStations.CleanRunIff | core/rtw_ap.c:475-481 | The same of the counters, on the stations alone |
| ApStations.CountersExactIff | core/rtw_ap.c:475-481 | All counts are those of the stations exactly when every freed entry was without flags |
| ApStations.ProtectionRightIff | core/rtw_ap.c:2984-3016 | The protection bits are right exactly when there is a non-ERP station, or none was freed as such |
| ApStations.StaleProtects | core/rtw_ap.c:475-481 | A non-ERP station freed as such keeps protection on and its counter too high after every further run |
| ApStations.LostStation | core/rtw_ap.c:475-481 | A run at whose end no station is left, one is counted as non-ERP, and protection is on |
| ApStations.RejoinCountsAsNewIff | core/rtw_ap.c:3610-3665 | A returning station counts like a new one exactly when each HT flag it carried is one that its present capabilities set again or clear |
| ApStations.JoinFlagsMean | core/rtw_ap.c:3519-3665 | Which capability decides each flag after an association, and which flags stay from earlier ones |
| ApStations.FlagsAreLastSaid | core/rtw_ap.c:3500-3764 | After every run the flags for preamble, ERP, slot time and HT of each station are those of its last association since it arrived or left |
| ApStations.RejoinKeepsHt20 | core/rtw_ap.c:3610-3665 | A station that was 20 MHz wide and comes back 40 MHz wide still counts as 20 MHz |
| ApStations.FreeKeepsCountsIff | core/rtw_ap.c:475-481 | Freeing an entry without a leave keeps the counters right exactly when it carried no flag |
| ApStations.BarkerCanLag | core/rtw_ap.c:3519-3574 | A run after which one station lacks short preambles and the Barker bit is clear |
| ApStations.CountUpdate | core/rtw_ap.c:3500-3665 | How changing one station's flags changes each count |
| Elements.EncodeAround | core/rtw_ieee80211.c:354-378 | The octets of a list, cut around its k-th element |
| Elements.HeaderAt | core/rtw_ap.c:176-191 | Where the k-th element of a list stands, and its ID and length octets |
| Tim.ScanRange | core/rtw_ap.c:55-71 | The two loops find the first even octet and the number of octets to carry |
| Tim.SetTimIe | core/rtw_ap.c:48-85 | Writes exactly the specified element and returns its length in 8 bits |
| Tim.TimIsLossless | core/rtw_ap.c:48-85 | Decoding the element gives back every association ID's bit and the group bit, for every bitmap |
| Tim.UpperTrimMinimal | core/rtw_ap.c:62-67 | No lossless element ends earlier |
| Tim.LowerTrim | core/rtw_ap.c:56-60 | With the group bit clear none starts later; with it set octet 0 is always carried |
| Tim.ReturnedIsLengthIff | core/rtw_ap.c:73-84 | The value returned is the number of octets exactly up to 250 bitmap octets, the element well formed up to 252 |
| Beacon.Bss.GetIe | core/rtw_ieee80211.c:354-378 | Finds the first element with the ID, none exactly when there is none |
| Beacon.Bss.Scan | core/rtw_ap.c:176-196 | The walk stops at the matching element or behind the last smaller one |
| Beacon.Bss.AddBcnIe | core/rtw_ap.c:167-233 | The buffer carries exactly the list with the element added, IELength exact, fixed part untouched |
| Beacon.Bss.RemoveBcnIe | core/rtw_ap.c:235-270 | The buffer carries exactly the list with the element removed |
| Beacon.Bss.UpdateBcnTim | core/rtw_ap.c:87-165 | The TIM element is replaced and nothing else changes; or the octets of a new one are put at the computed place, wherever it lies, IELength exact |
| Beacon.Bss.HeadLength | core/rtw_ap.c:120-138 | The computed place: behind fixed fields, SSID, rates and three octets |
| Beacon.Bss.PutTim | core/rtw_ap.c:131-165 | Saving what follows, writing the element and writing back, in 32-bit arithmetic: past the end the length wraps and nothing is moved |
| Beacon.NewTimRightIff | core/rtw_ap.c:120-165 | For every list without a TIM and every k the buffer carries the list with the new TIM at its k-th place exactly when the k-th element starts at the computed place, or later behind octets that can be exchanged with the TIM's |
| Beacon.WellPlacedIsBoundary | core/rtw_ap.c:120-141 | Unless the octet at the place is the TIM's ID, that means an element boundary or the end of the list is at the place |
| Beacon.CopyIsWellPlaced | core/rtw_ap.c:120-165 | A list whose last element ends with a copy of the TIM: no boundary at the place, and the list with the TIM behind it is written |
| Beacon.PlacedAtIff | core/rtw_ap.c:120-165 | The same of the octets, at every place inside the list |
| Beacon.PastTheEndNeverRight | core/rtw_ap.c:131-165 | At a place past the end no list with the TIM in it is written |
| Beacon.FittingPlace | core/rtw_ap.c:120-165 | At an element boundary the list with the TIM at that place is written |
| Beacon.BeaconTellsBitmap | core/rtw_ap.c:87-165 | A receiver of the new beacon finds every other element unchanged and reads every station's bit from the first TIM |
| Beacon.AddedIsInsertOrReplaceIff | core/rtw_ap.c:167-233 | On a sorted list the addition is sorted insert-or-replace exactly when the element replaced or followed exists and is not empty |
| Beacon.EmptyElements | core/rtw_ap.c:167-270 | An empty element is not replaced, and one that was added is not removed |
| Beacon.RemovedUndoesAddedIff | core/rtw_ap.c:235-270 | Removing undoes the addition of a new element exactly when it was not empty |
| Beacon.UsualHeadFits | core/rtw_ap.c:120-141 | Behind SSID, rates and a DS parameter set the computed place is an element boundary |
| Beacon.NoDsBreaksList | core/rtw_ap.c:120-141 | Two lists without a DS parameter set, the place inside an element and past the end: no list with the TIM in it is written |
| Ageing.Station.ChkAlive | core/rtw_ap.c:308-353 | Alive means data or control frames came since the last call; the counters are brought up to date |
| Ageing.Station.Age1 | core/rtw_ap.c:511-626 | One station's turn of the timer loop |
| Ageing.Station.Check | core/rtw_ap.c:685-710 | One station's turn of the check loop: probes, tries, removal |
| Ageing.AccessPoint.TimerLoop | core/rtw_ap.c:494-638 | Every station is aged by its own timer, and exactly the expired ones are listed for a check |
| Ageing.AccessPoint.CheckLoop | core/rtw_ap.c:671-722 | Exactly the stations to go leave the list, once each, the counter with them |
| Ageing.AccessPoint.ExpireTimeoutChk | core/rtw_ap.c:483-745 | The whole tick: every station fares as its own state says; the counter stays the length of the list |
| Ageing.AccessPoint.Admit | core/rtw_mlme_ext.c:3130-3134 | A station joins the list once, with a full timer |
| Ageing.ProbesDecide | core/rtw_ap.c:511-710 | With probing on, a station that ends no pending check is removed by exactly the tick at which it has gone E + 3 ticks without a frame or an answered probe, whatever its traffic, answers and power state |
| Ageing.RemovedIffEveryProbeFails | core/rtw_ap.c:511-710 | A silent station is removed on tick E + 3 exactly when every probe sent by then failed, and not before |
| Ageing.SilentRemovedExactly | core/rtw_ap.c:511-710 | A station that falls silent with a full timer E and answers no probe is removed by exactly tick E + 3 with probing, tick E without, tick 2E asleep and without |
| Ageing.EndedStartsAgain | core/rtw_ap.c:511-626 | Asleep and silent without probing, a station that ends its pending alive check is given the whole of 2E ticks once more |
| Ageing.RemovedOnlyIfQuiet | core/rtw_ap.c:511-710 | No station is removed without E silent ticks in a row, whatever its power state and answers |
| Ageing.AnsweringStays | core/rtw_ap.c:689-699 | With probing on, a station that answers its probes is never removed |
| Ageing.OnlyAssociatedRemoved | core/rtw_ap.c:685-686 | A station not in the associated state is never removed by ageing |
| Ageing.UnassociatedCycles | core/rtw_ap.c:511-626 | A silent, awake station on the list that is not associated keeps everything but its timer, which runs from E to 0 and starts again |
| Sounding.ScanIsFirstFew | core/rtw_beamforming.c:695-767 | The lists are the first due SU and MU peers, as many as there is room for |
| Sounding.ScanCountsNotReady | core/rtw_beamforming.c:712-716 | The not-ready count is positive exactly when a used entry is not added |
| Sounding.ScanLists | core/rtw_beamforming.c:695-767 | Listed peers are used, each once, in order, within the room, and no flag of the period is touched |
| Sounding.ScanCountsDown | core/rtw_beamforming.c:718-765 | For every entry: one period less to sit out when more than one is left; when listed and not to be deleted its own number of periods and the candidate flag; else none; no other field changes |
| Sounding.DueAtItsCount | core/rtw_beamforming.c:718-727 | Over repeated scans, whatever happens in between, a peer with count c is due at exactly the c-th |
| Sounding.ResetSounding | core/rtw_beamforming.c:677-685 | The reset clears sounding and candidate flags of the peers sounded, and nothing else |
| Sounding.PlanOnce | core/rtw_beamforming.c:852-922 | The plan of a period names each listed SU peer once, the MU peers at most once, nothing else |
| Sounding.Sounder.ResetVars | core/rtw_beamforming.c:662-686 | Lists emptied and the flags of the last period cleared |
| Sounding.Sounder.Consider | core/rtw_beamforming.c:707-765 | One turn of the listing loop, the count of periods to sit out included |
| Sounding.Sounder.GetList | core/rtw_beamforming.c:694-779 | The loop is the scan; returns -1 without peers, -2 when some are not ready |
| Sounding.Sounder.Begin | core/rtw_beamforming.c:805-850 | A period opens exactly with a peer listed and no survey; with peers not ready it is put off five times |
| Sounding.Sounder.PickSu | core/rtw_beamforming.c:852-861 | The search finds the first listed SU peer that was not started |
| Sounding.Sounder.StartSu | core/rtw_beamforming.c:861-886 | The peer is started; one marked for deletion is ended by a direct call, and the recursion ends |
| Sounding.Sounder.StartMu | core/rtw_beamforming.c:888-922 | All listed MU peers are started together and the MU count cleared |
| Sounding.Sounder.Next | core/rtw_beamforming.c:852-928 | Afterwards the period waits for a sounding or is finished with its whole plan carried out |
| Sounding.Sounder.Handler | core/rtw_beamforming.c:781-928 | The same with the opening and the ignored states; terminates with measure SU and MU starts left |
| Sounding.Sounder.EndSu | core/rtw_beamforming.c:1587-1621 | The end of an SU sounding, failure count included; the stalling early return is unreachable |
| Sounding.Sounder.SoundingDown | core/rtw_beamforming.c:1569-1628 | One wait fewer and on to the next start, or nothing at all when no sounding is under way |
| Sounding.Sounder.TimerExpires | core/rtw_beamforming.c:996-1026 | The sounding times out and a restart is queued, once |
| Sounding.Sounder.Step | core/rtw_beamforming.c:1919-1931 | Every report, or timeout with any late reports and the queued restart, takes the period one wait forward |
| Sounding.Sounder.Period | core/rtw_beamforming.c:781-928 | A period ends exactly after as many ends of soundings as its plan waits for, and then each listed SU peer was started once, in order, and the MU peers once |
| Ppe.ReadIsField | core/rtw_he.c:263-268 | A masked shift of two bytes is the three-bit field wherever it lies |
| Ppe.HeaderIsRead | core/rtw_he.c:256-257 | NSTS and RU mask are read from the first seven bits |
| Ppe.CellIsRead | core/rtw_he.c:259-272 | At the running offset the two reads give the pair |
| Ppe.ParserInvertsLayout | core/rtw_he.c:248-275 | From every element whose bits begin with the layout of some thresholds exactly those are stored, 0 for absent RU sizes |
| Ppe.StoredFields | core/rtw_he.c:269 | The low three bits of a stored value are PPET16, the next three PPET8 |
| Ppe.FieldAtInput | core/rtw_he.c:248-275 | A two-byte field with PPET16 3 and PPET8 5 is stored as 43 |
| Ppe.ReadableIff | core/rtw_he.c:259-272 | The parser stays inside a buffer exactly when its last two-byte read does |
| Ppe.PackedReadableIff | core/rtw_he.c:248-275 | A packed field can be parsed in place exactly when something stands behind it, or the number of its pairs is 0 or 3 more than a multiple of 4 |
| Ppe.OnePairReadsOn | core/rtw_he.c:248-275 | With one stream and one RU size the field is two bytes and the parser reads a third |
| Ppe.PackThenParse | core/rtw_he.c:248-275 | Packing thresholds into bytes and parsing them gives them back, whatever stands behind the field, and with nothing behind it when no read leaves it |
| Ppe.StaCap.SetPpeThre | core/rtw_he.c:248-275 | The nested loops store the parsed values and leave rows above NSTS alone; shift stays below 256 |
| Eeprom.FeedLatches | core/rtw_eeprom.c:49-61 | The device holds exactly the bits clocked in so far |
| Eeprom.ReadCommand | core/rtw_eeprom.c:235-236 | Opcode and address make the device present the addressed word |
| Eeprom.WordOfBits | core/rtw_eeprom.c:82-95 | Sending a word bit by bit and putting the bits together gives the word |
| Eeprom.Adapter.Write8 | core/rtw_eeprom.c:21-35 | What a write of the line register does to the device |
| Eeprom.Adapter.ShiftOutBits | core/rtw_eeprom.c:37-69 | The device sees the low count bits, most significant first, one rising edge each |
| Eeprom.Adapter.ShiftInBits | core/rtw_eeprom.c:71-99 | The number the device presents in its next sixteen bits |
| Eeprom.Adapter.Clean | core/rtw_eeprom.c:132-154 | The device is deselected with the clock low |
| Eeprom.Adapter.Read16 | core/rtw_eeprom.c:213-247 | The word at the register's low bits, unless the adapter is gone, and exactly when its removal is noticed; 0 when it was gone before |
| Eeprom.Adapter.Read | core/rtw_eeprom.c:291-320 | Success in any case; exactly the bytes from the address on, for odd and even starts and every length, 256 of them for length 0 at an odd start, and no other byte of the buffer, unless the adapter is gone, and exactly when that is; 0 when it was gone before |
| Eeprom.GoneReportsSuccess | core/rtw_eeprom.c:291-320 | A read from an adapter that is gone succeeds and stores a byte the device does not have |
| Eeprom.ZeroLengthStores | core/rtw_eeprom.c:291-320 | A read of length 0 at address 1 fills 256 bytes |

## Left out

- `rtw_run_cmd`, command tables, callbacks other than "frees its command", LPS registration and timing of the worker loop.
- CmdProtocol.NoUseAfterFree: the queue is a value in a step system, not objects in a heap (those are in CmdQueue); assumes the mutex is always acquired, commands within MAX_CMDSZ, and callbacks that free their command.
- CmdQueue.CmdPriv.Enqueue: the pointer inside an extra-command parameter block that is freed along with it is not modelled, nor is hardware RF-off detection.
- CmdQueue.CmdPriv.CmdFilter: models the build without MAC loopback and without RF-off detection.
- Nat25Table.Bridge.Replay: models each operation as one call under the bridge lock; which calls a frame causes, and allocation failure on insert, are left out.
- Nat25Table.HashLink: the addresses `&head` and `&entry->next_hash` that pprev holds are names, not machine addresses.
- Pppoe.InsertForwardsIff: requires tag lists that are well formed; the memory behind the tag buffer, as far as a byte-swapped length reaches, is taken to be readable and arbitrary.
- Pppoe.InsertPutsRelayFirst: requires that the tags fit the 16-bit length field; what a longer list gives is in Pppoe.InsertResult.
- Pppoe.RelayRoundTrip: the branch without relay tags, session packets and the waiting time are left out.
- Vlan.Skb.HandleFrame: requires frames long enough for the addresses the driver reads without a check.
- Dhcp.DhcpFlagBcast: requires frames long enough for the headers the driver reads without a check.
- IPX, AppleTalk and IPv6 neighbour discovery of the bridge, and its debugging output.
- ApStations.AccessPoint.HtOperationUpdate: models the low octet of ht_op_mode; the high octet is never touched by the code.
- ApStations.Replay: the reset of one counter in the AP start path (core/rtw_ap.c:1503), the change of width or olbc_ht during a run, the beacon-updated results and TIM clearing on leave are left out.
- ApStations.AccessPoint.BssCoex: the driver reads five octets of a body of any length; they are taken to be readable.
- Beacon.Bss.AddBcnIe: requires a buffer that holds a well-formed element list and has room, as the driver does not check either.
- Beacon.Bss.UpdateBcnTim: requires at most 250 octets of bitmap, a buffer below 2 GiB and room for the element at the computed place; allocation is taken to fail for a wrapped length of nearly 4 GiB and to succeed otherwise; transmission of the beacon is left out.
- Ageing.AccessPoint.ExpireTimeoutChk: mesh, wifi_spec, and changes of the list by other threads between the loops are left out; a probe's outcome is an input; whether a station is in the associated state does not change between ticks; what ap_free_sta does is in ApStations.
- Ageing.ProbesDecide: for stations that end no pending check (PS-Poll); for those, Ageing.EndedStartsAgain without probing and Ageing.RemovedOnlyIfQuiet.
- Ageing.Station.ChkAlive: packet counters do not wrap.
- Sounding.Sounder.Period: entering, leaving, force-stop and changes of the minimal sounding period within a period are left out, as is the queued removal after more than 30 failures; the handlers are atomic.
- Sounding.Sounder.StartSu: frames sent, the timer and hardware status registers are left out.
- Ppe.StaCap.SetPpeThre: requires that the bytes its reads touch are there; the driver does not check.
- Eeprom.Adapter.Read: surprise removal is a count of the questions asked before it shows, and is seen only by asking; the device is the usual three-wire part (latches DI on rising edges, words most significant bit first); delays and writing are left out, as is the sequential read eeprom_read_sz.
- The access control lists, channel and bandwidth decisions, DFS, frame builders, logging, cfg80211 events, allocation failures and the hardware layer.
