# mcrx-core: a verified model

A Dafny model of the multicast receiver library `mcrx-core` and its C interface:
subscription validation, the packet filters it compiles for the kernel, the header
and framing parsers behind them, the shared raw capture engine, the round-robin
contexts, the filtered receive loops, the Windows control-message walk, the metrics
file discipline and the background worker protocol.

`dafny verify dfyconfig.toml` checks everything.

## How the model is laid out

* `Config`, `Net`, `Packets`, `Bits`: configurations and their validation, addresses,
  packets, and bitwise AND on natural numbers with the two mask laws the code uses.
* `IpParsing`, `Bpf`, `Ethernet`, `AppleBlock`: the IPv4 and IPv6 parsers (section 3.1
  of RFC 791, section 3 of RFC 8200), the filter compiler with its back-patching and
  the classic BPF machine that runs it (a load outside the packet rejects), VLAN
  stripping, and the macOS capture-block walker. Group ranges follow section 1 of
  RFC 4607; jumbograms (section 2 of RFC 2675) are refused.
* `Programs`: the compiled filters written out in the numbers the kernel reads.
* `IdLists`, `Demux`: sorted id vectors and the `(group, source)` index over them.
* `SharedSpec`: the shared capture engine seen abstractly: subscriptions, kernel
  memberships, capture order, cursor, pending queue, one receive queue per open
  socket, and a ledger with the fate of every datagram read. Matching is a linear
  scan; there are no caches or counts. System calls are steps whose outcome is a
  parameter.
* `SharedInvariants`, `SharedReceive`, `SharedRuns`: what every step and every run of
  that engine keeps.
* `SharedKernel`: what adds, joins, leaves and removals do, told by groups, sources and
  interfaces alone, without the engine's own keys.
* `SharedErrors`: every socket error a call meets is reported by that call.
* `SharedCursor`, `SharedRounds`, `SharedStarvation`, `SharedWitness`: where the capture
  cursor goes, and which captures receives and batches serve.
* `SharedCaches`, `SharedRaw`: the engine as the code runs it, a class whose methods
  update maps, vectors, counters and the queue in place. Each method is proved to be
  the abstract step on the object's view and to keep every count, cache and index in
  agreement with the stored subscriptions, so everything proved about the abstract
  engine holds of it. `KernelJoin` and `KernelLeave` stand for the socket calls; their
  preconditions say that no membership is joined twice and that every leave names the
  config that joined, so these hold at every call the class makes.
* `RoundRobin`: `Context` and `RawContext`, which differ in their config type only;
  the outcomes of validating a config and of opening its socket are parameters.
* `ReceiveLoop`, `Cmsg`, `Jsonl`: the receive loops, the control-message walk and the
  metrics files.
* `Worker`: start, stop, restart, callbacks and worker errors as interleaved atomic
  steps under sequential consistency.

## Where the code and its documentation differ

`docs/raw-packets.md` (lines 160-163) says that batch receive preserves round-robin
fairness between calls. `fill_pending` advances its cursor before it tests whether its
target is met, so a receive or batch normally leaves the cursor two places past the
capture it served (`SharedCursor.ReceiveLaw`, `SharedRounds.BatchLaw`).

* While all n captures have datagrams ready, every one is served within n calls exactly
  when n is odd, for single receives (`SharedRounds.RoundRobinIffOdd`) and for batches of
  any size (`SharedRounds.BatchRoundRobinIffOdd`).
* Without knowing what the other captures do, a capture that always has datagrams ready
  is sure to be served within n calls exactly when it is the only one open, which a
  caller can see from `capture_socket_count()` (`SharedStarvation.FairIffAlone`,
  `SharedStarvation.BatchesFairIffAlone`). Whatever the number of captures above one, a
  capture that the cursor is not at is never served while only it and the capture before
  it are busy (`SharedStarvation.ReceivesStarve`, `SharedStarvation.BatchesStarve`).
* `SharedWitness.TwoCapturesStarve` is a reachable state, with datagrams the receive loop
  can return, in which one of two captures is never served.

## Two conditions the code relies on

* `append_jsonl_sample_row` relies on how the file ends: on a file that passes the full
  scan, an accepted append keeps it passing exactly when the file ends in a newline or,
  behind its last newline, in nothing but whitespace that JSON skips
  (`Jsonl.AppendNeedsNewline`). A header without a newline fails
  (`Jsonl.UnterminatedHeader`), and so does a lone form feed after the last newline,
  which the reader takes for a blank line and the JSON parser does not skip
  (`Jsonl.TrailingFormFeed`).
* The round-robin contexts rely on sockets not failing: an error leaves the cursor where
  it was, so with sockets that keep reporting the same a ready subscription is served
  exactly when no joined one nearer to the cursor keeps failing
  (`RoundRobin.ServedIffClear`).

## Model

| member | source | states |
|---|---|---|
| Config.ValidationExactly | src/config.rs:194-275 | Validation, whatever the order of its tests, accepts exactly: a multicast group, a source exactly for source-specific groups, usable unicast sources, one address family throughout, a non-zero interface index only for IPv6 |
| Config.RangesExactly | src/config.rs:259-276 | Multicast is 224.0.0.0 to 239.255.255.255 and ff00::/8, source-specific 232.0.0.0/8 and ff30::/32 to ff3f::/32, and a source any other address but the all-zero ones and 255.255.255.255 |
| Config.ErrorNamesFault | src/config.rs:194-251 | The error of a refused config names something wrong with it |
| Config.UdpValidationExactly | src/config.rs:61-191 | A UDP config is valid exactly when its port is not zero and the rest is a valid selection; it then has the one kernel membership of its family, with its own group, source and interface |
| Config.MembershipOfValidConfig | src/config.rs:142-191 | A validated raw config converts to exactly one kernel membership, that of its family, with its own addresses, and is never refused by the port test of the converted config |
| IpParsing.ParsedBounds | src/platform/raw.rs:1485-1555 | An accepted datagram has the version of its first nibble, both addresses of that family, and a length between the fixed header and 40 + 65535 that fits the buffer |
| IpParsing.ParseStable | src/platform/raw.rs:1328-1342 | Trimming an accepted buffer to its parsed length, padding it, or replacing what follows, parses to the same result |
| IpParsing.ParseInvertsEncodeIpv4 | src/platform/raw.rs:1495-1526 | Parsing inverts the RFC 791 layout for any options, payload and trailing padding |
| IpParsing.ParseInvertsEncodeIpv6 | src/platform/raw.rs:1529-1555 | Parsing inverts the RFC 8200 layout except for jumbogram-shaped datagrams, which are refused |
| Bpf.BpfIpFilter | src/platform/raw.rs:180-245 | Emitting comparisons and back-patching their reject jumps yields the closed-form program, which `Programs.IpFilterInNumbers` writes out |
| Bpf.WellFormedReturns | src/platform/raw.rs:1562-1598 | A program with forward in-range jumps and a final return returns on every packet from every point |
| Bpf.IpFilterWellFormed | src/platform/raw.rs:180-245 | Every compiled filter is loadable: fields fit their widths, every jump is forward, inside the program and fits a byte |
| Bpf.IpFilterCorrect | src/platform/raw.rs:1308-1325 | Compiler correctness: on every datagram the parser accepts, the compiled filter accepts exactly what `packet_matches_config` accepts; its words are pinned by `Programs.IpFilterInNumbers` |
| Programs.IpFilterInNumbers | src/platform/raw.rs:180-245 | Every instruction of the compiled filter in numbers, for both families, any source and any offset: opcodes 0x30, 0x54, 0x15, 0x20, 0x06, jump bytes, load offsets, address words in network order, returns 0xffffffff and 0 |
| Programs.AnySourceProgram | src/platform/raw.rs:180-245 | The seven instructions for the IPv4 group a.b.c.d from any source |
| Programs.FamilyFilterInNumbers | src/platform/raw.rs:248-278 | Both shared capture filters in numbers |
| Programs.AppleFilterInNumbers | src/platform/raw.rs:912-959 | The macOS filters in numbers: the IP filter at offset 0, 4 or 14, on Ethernet behind the tests of the type field |
| Net.WordIsTwoHalves | src/platform/raw.rs:218-223 | Words and half-words are in network order |
| Bpf.IpFilterShift | src/platform/raw.rs:180-245 | Compiled at offset k the filter treats a frame as the offset-0 filter treats the frame from k on; shorter frames are rejected |
| Bpf.RunBehindPrefix | src/platform/raw.rs:952-953 | A program behaves the same behind any prefix, since its jumps are relative |
| Bpf.BpfFamilyFilter | src/platform/raw.rs:248-278 | The shared filter's construction and back-patching yield its closed form for both families |
| Bpf.FamilyFilterMeaning | src/platform/raw.rs:248-278 | The shared filter accepts exactly packets of its IP version whose first destination octet is multicast |
| Bpf.FamilyFilterKeepsWanted | src/platform/raw.rs:248-278 | It drops nothing a valid config of its family matches |
| Ethernet.StripEthernet | src/platform/raw.rs:1456-1476 | The stripping loop terminates on any frame and returns the bytes behind all stacked tags when the type found there is IP |
| Ethernet.StripInvertsEncapsulation | src/platform/raw.rs:1456-1476 | Stripping undoes encapsulation behind any number of stacked tags and delivers nothing for other protocols |
| Ethernet.LinkLayers | src/platform/raw.rs:1444-1476 | Raw IP frames are the datagram, the loopback layers put four bytes in front, Ethernet its addresses, any tags and type 0x0800 or 0x86dd; other types carry nothing and other link layers are an error |
| Ethernet.EthernetFilterMeaning | src/platform/raw.rs:912-959 | The Ethernet filter accepts every VLAN-tagged frame, and an untagged one exactly when its type is the family's and the IP filter accepts the payload |
| Ethernet.AppleFilterKeepsDelivered | src/platform/raw.rs:1444-1476 | No filter drops a frame userspace would deliver, except exactly the untagged Ethernet frames whose type contradicts their IP version |
| Ethernet.AppleFilterWellFormed | src/platform/raw.rs:912-959 | Every filter for a supported link layer is loadable |
| AppleBlock.BpfWordAlign | src/platform/raw.rs:1479-1482 | The mask form is rounding up to the word |
| AppleBlock.NextMatching | src/platform/raw.rs:1370-1441 | The block walk with its checked offsets equals the recursive walk over records |
| AppleBlock.DeliverFrame | src/platform/raw.rs:1408-1435 | One frame yields an error exactly on an unsupported link layer, and otherwise a packet exactly when the bytes behind the link layer parse to a datagram for the subscription, with that datagram's bytes, addresses and protocol and the subscription's id and interfaces |
| AppleBlock.FrameExactly | src/platform/raw.rs:1408-1435 | The same of the function the walk is stated with |
| AppleBlock.HeaderFields | src/platform/raw.rs:1349-1367 | A capture header is read exactly when 18 bytes of it are there: the header length from bytes 16-17, the captured length from bytes 8-11, least significant first |
| AppleBlock.WalkProgress | src/platform/raw.rs:1370-1441 | On any bytes a walk that returns a packet moved strictly past a whole record inside the block and returns that record's packet |
| AppleBlock.WalkOutcome | src/platform/raw.rs:1370-1441 | On any bytes a walk for a supported link layer never fails, stops without a packet only where no further header fits, and otherwise returns the datagram of a frame for the subscription standing in the block before the new offset |
| AppleBlock.DrainYieldsMatching | src/platform/raw.rs:593-650 | Draining a well-formed block by repeated calls yields one packet for each record whose frame carries a datagram for the subscription and none for any other, in record order, each with that datagram's bytes, addresses, protocol and metadata |
| Bits.AlignMaskIsRoundUp | src/platform/mod.rs:998-1001 | For power-of-two alignments the mask form is the least multiple not below the value |
| IdLists.BinarySearch | src/raw/shared.rs:849-860 | Finds the id, or the position where inserting it keeps the vector ascending |
| IdLists.InsertId | src/raw/shared.rs:849-854 | Keeps the vector ascending and adds exactly the id |
| IdLists.RemoveId | src/raw/shared.rs:856-860 | Keeps the vector ascending and removes exactly the id |
| IdLists.MergeIds | src/raw/shared.rs:862-885 | The two-pointer loop computes the merge |
| IdLists.MergedIsUnion | src/raw/shared.rs:862-885 | The merge of ascending vectors is ascending and holds exactly their ids, a common one once |
| IdLists.AscendingUnique | src/raw/shared.rs:849-885 | An ascending vector is determined by its ids |
| Demux.MatchingIds.FromSortedSlices | src/raw/shared.rs:116-129 | Nothing for two empty slices, else the merge, inline or not |
| Demux.MatchingIds.RemoveExisting | src/raw/shared.rs:142-151 | Takes out exactly the element at the index |
| Demux.GroupDemultiplexer.Insert | src/raw/shared.rs:161-167 | Adds exactly the id under its source, keeping all vectors ascending |
| Demux.GroupDemultiplexer.Remove | src/raw/shared.rs:169-181 | Removes exactly the id under its source and leaves no empty source entry |
| Demux.GroupDemultiplexer.Matches | src/raw/shared.rs:187-190 | Returns the ascending ids listed under any source or this one, or nothing |
| Demux.CaptureDemultiplexer.Insert | src/raw/shared.rs:199-204 | The index of a set of memberships becomes that of the set with one more |
| Demux.CaptureDemultiplexer.Remove | src/raw/shared.rs:206-217 | The index becomes that of the set with one fewer, leaving no empty group |
| Demux.CaptureDemultiplexer.Matches | src/raw/shared.rs:219-221 | The lookup returns exactly the ascending ids of the memberships whose config wants the datagram, and nothing when there are none |
| Demux.NoMixedGroups | src/raw/shared.rs:154-191 | With validated configs no group ever holds both any-source and per-source ids |
| SharedSpec.ScanExact | src/platform/raw.rs:1308-1325 | The reference scan returns exactly the ascending ids whose config wants the datagram |
| SharedCaches.Capture.Enter | src/raw/shared.rs:485-499 | A join's bookkeeping keeps one reference per member, the config that joined, the membership count and the index right |
| SharedCaches.Capture.Exit | src/raw/shared.rs:521-552 | A leave's bookkeeping does too, dropping the kernel membership exactly with its last member |
| SharedCaches.MembershipsAreReferences | src/raw/shared.rs:547-550 | A capture's membership count is the sum of its kernel reference counts, and is zero exactly when there are none |
| SharedCaches.SelectorAdded | src/raw/shared.rs:728-745 | Adding keeps every cached selector count equal to the number of stored subscriptions with that selector, with their shared key |
| SharedCaches.SelectorReleased | src/raw/shared.rs:747-763 | So does releasing, dropping an entry exactly with its last subscription |
| SharedCaches.CacheIsCachedKey | src/raw/shared.rs:728-745 | The cache answers what the stored subscriptions say |
| SharedRaw.LookupIsScan | src/raw/shared.rs:661-674 | What the index returns for a datagram is the linear scan over the joined subscriptions |
| SharedRaw.Position | src/raw/shared.rs:713-720 | Finds the first occurrence, so that removing there removes exactly it |
| SharedRaw.SharedRawContext.WithLimits | src/raw/shared.rs:350-367 | Zero limits are refused; otherwise the context is valid and views as the initial engine |
| SharedRaw.SharedRawContext.ResolveCaptureKey | src/raw/shared.rs:728-745 | Exact effect on the selector cache; nothing changes on a failed lookup |
| SharedRaw.SharedRawContext.ReleaseCaptureKey | src/raw/shared.rs:747-763 | Exact effect on the selector cache |
| SharedRaw.SharedRawContext.AddSubscription | src/raw/shared.rs:415-432 | Is the abstract add on the view, keeps all agreements, and on failure changes nothing at all |
| SharedRaw.SharedRawContext.KernelJoin | src/raw/shared.rs:463-477 | Is only ever called for a membership the socket does not have |
| SharedRaw.SharedRawContext.KernelLeave | src/raw/shared.rs:521-541 | Is only ever called for a membership the socket has, with the config that joined it |
| SharedRaw.SharedRawContext.EnsureMembership | src/raw/shared.rs:453-483 | Opens the capture and joins the kernel as needed; a refused join closes a capture opened for it and restores maps, order and cursor |
| SharedRaw.SharedRawContext.JoinSubscription | src/raw/shared.rs:440-505 | Is the abstract join on the view, keeps all agreements, and on failure changes nothing at all; it fails exactly when an open or kernel join it needs fails, needing the join exactly when no installed config has its group and source, and on success its group and source are installed on its capture |
| SharedRaw.SharedRawContext.LeaveSubscription | src/raw/shared.rs:508-563 | Is the abstract leave on the view, keeps all agreements, and on failure changes nothing at all |
| SharedRaw.SharedRawContext.RemovePendingMembership | src/raw/shared.rs:765-797 | The retain loop drops, keeps or re-addresses each queued packet as the abstract purge does |
| SharedRaw.SharedRawContext.RemoveCapture | src/raw/shared.rs:713-726 | Removes the capture from map and order and wraps the cursor |
| SharedRaw.SharedRawContext.RemoveSubscription | src/raw/shared.rs:568-586 | Is the abstract removal on the view; a failing leave or an unknown id changes nothing at all |
| SharedRaw.SharedRawContext.Arrive | src/platform/raw.rs:324-345 | Arrivals at an open socket keep the context valid and are the abstract arrival on the view |
| SharedRaw.SharedRawContext.TakeNext | src/raw/shared.rs:661-697 | One receive with its index lookup and queueing is the abstract reading with its linear scan |
| SharedRaw.SharedRawContext.FillPending | src/raw/shared.rs:637-701 | The two nested loops are the abstract fill, also when a receive fails midway |
| SharedRaw.SharedRawContext.TryRecvAny | src/raw/shared.rs:592-599 | Is the abstract receive on the view; the packet returned has, field by field, the datagram read, and the id and interface of the first subscription it lists |
| SharedRaw.SharedRawContext.TryRecvBatch | src/raw/shared.rs:604-622 | Terminates, returns at most the requested number of packets, and is the abstract batch on the view; each packet has, field by field, the datagram read |
| SharedInvariants.AddKeepsInv | src/raw/shared.rs:415-432 | Adding keeps the engine invariant: order, kernel, queue and ledger all right |
| SharedInvariants.JoinKeepsInv | src/raw/shared.rs:440-505 | Joining keeps it |
| SharedInvariants.LeaveKeepsInv | src/raw/shared.rs:508-563 | Leaving keeps it |
| SharedInvariants.RemoveKeepsInv | src/raw/shared.rs:568-586 | Removing keeps it |
| SharedInvariants.LeaveEffect | src/raw/shared.rs:508-563 | A failed leave changes nothing; a successful one unjoins, purges and closes exactly as described |
| SharedKernel.AddExactly | src/raw/shared.rs:415-432 | An add looks the interface up exactly when no stored subscription has the same family, interface and index, and else takes that one's capture; it fails exactly on an invalid config, a full context or a failed lookup, and stores the config unjoined under a fresh id |
| SharedKernel.SelectionFixesCapture | src/raw/shared.rs:728-745 | Stored subscriptions with the same family, interface and index use one capture |
| SharedKernel.JoinExactly | src/raw/shared.rs:440-505 | A join opens a socket exactly when its capture has none and makes a kernel join exactly when no installed config has its group and source; it fails exactly when such a call fails, changing nothing, and otherwise installs its config there if it was missing and touches no other capture |
| SharedKernel.LeaveExactly | src/raw/shared.rs:508-563 | A leave makes a kernel leave exactly when no other subscription on the capture has its group and source, fails exactly when that fails, takes out that membership alone, and closes the capture exactly when nobody is left on it |
| SharedKernel.RemoveExactly | src/raw/shared.rs:568-586 | A removal leaves first if joined and fails exactly when that leave does |
| SharedKernel.InvMeansExact | src/raw/shared.rs:453-552 | The kernel of each open capture holds one membership for the group and source of each subscription joined there, and no other |
| SharedReceive.MatchesExact | src/raw/shared.rs:670-672 | The matches of a datagram are exactly the joined subscriptions of its capture that want it, ascending |
| SharedReceive.TakeEffect | src/raw/shared.rs:675-697 | A datagram read is queued once, with all its matches, exactly when it has some, and otherwise counted as unmatched |
| SharedReceive.FillBounds | src/raw/shared.rs:637-701 | One fill queues at most its target within the queue limit and reads at most target plus capture-count datagrams; each moves from its socket to the log in order, none lost, also on a failure midway |
| SharedReceive.RecvKeepsInv | src/raw/shared.rs:592-599 | A receive keeps the engine invariant |
| SharedReceive.RecvDelivers | src/raw/shared.rs:592-599 | A delivered packet has the bytes, addresses, protocol and ingress interface of the datagram read under its number, is addressed to the first subscription it lists with that one's interface, lists only subscriptions joined at that moment on that capture to that group and source, and is the next delivery in reading order |
| SharedReceive.BatchKeepsInv | src/raw/shared.rs:604-622 | A batch keeps the engine invariant |
| SharedReceive.BatchDelivers | src/raw/shared.rs:604-622 | A batch delivers at most the requested number, each as described for a receive, exactly the new deliveries, losing none on an error midway |
| SharedErrors.ReceiveReports | src/raw/shared.rs:592-701 | A receive fails exactly when it meets a socket error, which it takes out of that one socket; none is passed over in silence |
| SharedErrors.BatchReports | src/raw/shared.rs:604-701 | So does a batch, also with packets to return already |
| SharedErrors.NothingOpen | src/raw/shared.rs:637-645 | With no capture open a receive or batch returns nothing and changes nothing |
| SharedRuns.ReachableInv | src/raw/shared.rs:415-763 | In every reachable state the kernel of each open capture holds exactly one membership for the group and source of each subscription joined there, the order lists exactly the open captures once with the cursor in range, the queue is within its limit and names only joined subscriptions that want the packet, and every datagram read is exactly one of unmatched, purged, or delivered-or-pending in order |
| SharedRuns.RunKeepsOrder | src/raw/shared.rs:637-726 | Over any run, captures closing and reopening included, what was read from a capture and what still waits in its socket are, in order and each once, what arrived while it was open less what was unread when it closed; all of it while it stays open |
| SharedRuns.ReachableReadsInOrder | src/raw/shared.rs:637-726 | In every reachable state the datagrams read from a capture are a selection, in order, of those that arrived on it |
| SharedRuns.LeavePurgesExactly | src/raw/shared.rs:765-797 | A leave purges exactly the queued packets it was the last match of and takes the leaver off every other |
| SharedRuns.FamilyFilterDropsNothingWanted | src/platform/raw.rs:247-278 | In every reachable state a datagram the capture's filter rejects either does not parse or matches no joined subscription of that capture |
| SharedRuns.ReachableGroupsUnmixed | src/config.rs:194-266 | In every reachable state no group's index holds both any-source and per-source ids |
| SharedCursor.FillLaw | src/raw/shared.rs:637-701 | One fill on an empty queue passes over captures that have nothing for it, takes its whole target from the first that has enough, leaves the cursor two places past that one (one when it was the last visited), and leaves the other sockets alone |
| SharedCursor.ReceiveLaw | src/raw/shared.rs:592-599 | One receive, whatever each capture offers, serves the first capture from the cursor whose next datagram is wanted, with that cursor move; fails at an error met before; or returns nothing with the cursor back in place |
| SharedCursor.FirstStop | src/raw/shared.rs:652-701 | One of those three cases always applies |
| SharedRounds.QueueFirst | src/raw/shared.rs:592-595 | While packets are queued, as after a batch that failed midway, receives hand those over in order and touch neither cursor nor sockets |
| SharedRounds.QueueThenLaws | src/raw/shared.rs:592-599 | Once the queue is handed over, receives go on exactly as from the state with an empty queue |
| SharedRounds.BatchQueueFirst | src/raw/shared.rs:613-621 | A batch takes from the queue first, and only for what is still wanted goes on as a batch from the emptied state |
| SharedRounds.CursorLaw | src/raw/shared.rs:592-599 | While every capture has datagrams ready, successive receives serve places c, c + 2, c + 4, ... modulo the number of captures |
| SharedRounds.BatchLaw | src/raw/shared.rs:604-622 | One batch that fits the queue takes all its packets from the first capture from the cursor that has enough, silent ones passed over, with the cursor move of one fill and the sockets further on untouched |
| SharedRounds.BatchCursorLaw | src/raw/shared.rs:604-622 | While every capture has datagrams ready, each packet of each of successive batches, of any size, comes from the place its fill serves, and each fill serves two places further on |
| SharedRounds.SmallBatchCursorLaw | src/raw/shared.rs:604-622 | For batches that fit the queue: the kth batch comes wholly from place c + 2k modulo n |
| SharedRounds.StrideIsMod | src/raw/shared.rs:652-658 | The place of the kth fill is c + 2k modulo n |
| SharedRounds.EvenStarves | src/raw/shared.rs:652-658 | While an even number of captures all stay ready, the one after the cursor is served by no receive |
| SharedRounds.EvenStarvesBatches | src/raw/shared.rs:652-658 | Nor does any batch of any size return one of its packets |
| SharedRounds.RoundRobinIffOdd | src/raw/shared.rs:588-599 | Of n captures that all stay ready, single receives serve every one within n receives exactly when n is odd |
| SharedRounds.BatchRoundRobinIffOdd | docs/raw-packets.md:160-163 | Of n captures that all stay ready, batches of any size return packets of every one within n batches exactly when n is odd |
| SharedStarvation.SampleIsGenuine | src/platform/raw.rs:324-383 | For every validated config the receive loop can return a datagram that config wants |
| SharedStarvation.AlwaysServedIffNext | src/raw/shared.rs:592-599 | A capture that stays ready is sure to be served within n receives, whatever arrives on the others, exactly when the cursor is at it; otherwise there are possible arrivals under which it is not |
| SharedStarvation.FairIffAlone | src/raw/shared.rs:588-599 | From an empty queue, receives serve every capture that stays ready within n receives, whatever the others do, exactly when one capture is open |
| SharedStarvation.ReceivesStarve | src/raw/shared.rs:652-658 | With only a capture and the one before it ready and the cursor elsewhere, the capture is served by no receive, for any number of captures above one |
| SharedStarvation.BatchesStarve | src/raw/shared.rs:652-658 | Nor by any batch |
| SharedStarvation.BatchesFairIffAlone | docs/raw-packets.md:160-163 | From an empty queue, batches of any size serve every capture that stays ready within n batches, whatever the others do, exactly when one capture is open |
| SharedWitness.ScheduleReaches | src/raw/shared.rs:415-505 | Adding and joining one IPv4 and one IPv6 subscription on one interface, with arrivals for both, leads to two open captures with those datagrams waiting |
| SharedWitness.TwoCapturesStarve | docs/raw-packets.md:160-163 | In that reachable state, with any number of datagrams the receive loop can return waiting on both, no batch of any size and no receive returns an IPv6 one while the IPv4 ones last |
| RoundRobin.RunKeepsValid | src/context.rs:88-137 | Under any run of adds, removals, joins, leaves and receives ids stay unique and below the counter, configs unique, the cursor in range |
| RoundRobin.TakeKeepsValid | src/context.rs:122-137 | Removal takes out exactly the subscription with the id, the last one moving to its place and all others staying, with the cursor wrapped |
| RoundRobin.SwapRemoveElements | src/context.rs:122-123 | Swap-removal moves the last element to the freed place and loses nothing else |
| RoundRobin.AddExactly | src/raw/context.rs:72-86 | An add stores the config last, not joined, under a fresh id, and fails exactly on an invalid config, a duplicate or a socket that does not open |
| RoundRobin.SetJoinedExactly | src/context.rs:274-292 | Joining and leaving switch that one flag, exactly when it stood the other way and the socket option took |
| RoundRobin.RecvExactly | src/context.rs:294-346 | A receive returns what the first joined subscription to report anything reports, going round from the cursor, and leaves the cursor one past it; an error or nothing leaves it in place |
| RoundRobin.NothingIffAllEmpty | src/raw/context.rs:123-154 | A receive returns nothing exactly when every joined subscription is empty |
| RoundRobin.OneCall | src/context.rs:294-346 | A call with no error between the cursor and a ready subscription serves it or a nearer one, moving the cursor closer without passing it |
| RoundRobin.Fairness | src/context.rs:294-346 | A joined subscription that stays ready is served within n calls on n subscriptions, whatever the others do, provided that until then no joined one between the cursor and it reports an error |
| RoundRobin.ErrorFreeStaysClear | src/context.rs:294-346 | In particular when no joined subscription reports an error at all |
| RoundRobin.ServedIffClear | src/context.rs:331-346 | When the sockets keep reporting the same, a joined ready subscription is served within n calls exactly when no joined one nearer to the cursor keeps failing, and otherwise never |
| RoundRobin.FaultStarves | src/context.rs:331-336 | A joined subscription that keeps failing between the cursor and another starves that one in every later call |
| RoundRobin.TwoSubscriptions | src/context.rs:331-336 | The smallest instance: the first of two keeps failing and the second, always ready, is never served |
| RoundRobin.BatchIsReceives | src/context.rs:422-443 | A batch is a prefix of single receives, cut at its bound, at the first error or when all are empty |
| RoundRobin.Context.AddSubscription | src/raw/context.rs:72-86 | Is the abstract add: validate, refuse duplicates, open, then a fresh id |
| RoundRobin.Context.TakeSubscription | src/context.rs:264-271 | Is the abstract removal by swap |
| RoundRobin.Context.SetMembership | src/context.rs:274-292 | Is the abstract join or leave, with its state errors |
| RoundRobin.Context.TryRecvAny | src/context.rs:294-346 | The scan loop is the abstract receive; it polls each joined subscription at most once, and all of them before returning nothing |
| RoundRobin.Context.TryRecvBatch | src/context.rs:422-443 | The batch loop is the abstract batch |
| ReceiveLoop.Receive | src/platform/raw.rs:526-590 | One call consumes dropped datagrams and at most one more, at most 256 in all; it reports that one's outcome, or nothing exactly on an empty queue or a spent budget |
| ReceiveLoop.CallFilters | src/platform/mod.rs:1293-1381 | What a call reports is the filtered form of what it consumes |
| ReceiveLoop.RunFilters | src/platform/raw.rs:526-590 | Over any run of calls and arrivals the delivered packets are exactly the matching ones among those consumed, in order, each once |
| ReceiveLoop.RawFilterExactly | src/platform/raw.rs:561-588 | The per-subscription filter delivers exactly the datagrams that parse, go to the group and come from the source if one is named, trimmed and with their own fields, and never fails |
| ReceiveLoop.SharedFilterExactly | src/platform/raw.rs:357-381 | The shared filter delivers exactly the datagrams that parse in its family, with their own fields |
| ReceiveLoop.UdpFilterExactly | src/platform/mod.rs:1259-1290 | The UDP filter fails exactly without a source or destination address, and otherwise delivers unchanged exactly the datagrams of the group, source and interface |
| ReceiveLoop.RawDeliveryReparses | src/platform/raw.rs:561-588 | A delivered raw packet matches its subscription and carries a complete datagram that parses to the addresses it reports |
| ReceiveLoop.SharedDeliveryReparses | src/platform/raw.rs:357-381 | So does a captured one, of the capture's family |
| ReceiveLoop.UdpReturnsNothingOnlyWhenSpent | src/platform/mod.rs:1259-1290 | With source and destination metadata present, a UDP receive never errs on a datagram and returns nothing only on an empty queue or a spent budget |
| Cmsg.WsaCmsgAlign | src/platform/mod.rs:998-1001 | The 64-bit mask form is rounding up to 8 |
| Cmsg.WsaCmsgNxthdr | src/platform/mod.rs:1067-1108 | The overflow and bounds checks on addresses answer exactly as plain offsets do, for any header length and any current address |
| Cmsg.WalkIsBounded | src/platform/mod.rs:1058-1108 | On any bytes the walk visits strictly increasing headers wholly inside the buffer, at most one per 16 bytes |
| Cmsg.WalkRecoversChain | src/platform/mod.rs:1004-1011 | On a well-formed chain placed anywhere the walk recovers exactly the encoded messages, in order |
| Cmsg.ChainMetadata | src/platform/mod.rs:1214-1257 | The metadata of a buffer holding a well-formed chain is the encoded messages' metadata, applied in order |
| Cmsg.AllButLastInside | src/platform/mod.rs:1067-1108 | On any bytes every message the walk visits, except possibly the last, lies wholly inside the control buffer |
| Cmsg.ChainInside | src/platform/mod.rs:1004-1011 | On a well-formed chain every visited message does |
| Cmsg.InsideIsWhole | src/platform/mod.rs:1111-1113 | What is read of a message inside the buffer is its whole announced payload |
| Cmsg.LastInfoWins | src/platform/mod.rs:1222-1250 | The last packet-info message decides the destination, and the interface unless its index is zero, which keeps the one found before; the configured interface is untouched |
| Cmsg.ApplyReceiveAncillaryData | src/platform/mod.rs:1214-1257 | The loop computes the fold of the walk's messages over the metadata |
| Jsonl.ValidateHeaderReader | src/jsonl.rs:206-256 | The one-pass reader with its line count computes the declarative scan of the non-blank rows |
| Jsonl.HeaderCheckIsEnough | src/jsonl.rs:287-299 | On a good file the header-only check answers as the full scan does |
| Jsonl.CallKeepsInv | src/jsonl.rs:54-72 | A refused call leaves the file as it was; an accepted one adds exactly its own rows at the end; the file stays good |
| Jsonl.AcceptedExactly | src/jsonl.rs:259-299 | On a good file a call is accepted exactly when its rows are well formed, the lock is right, and the file has no rows or a header that agrees; and which error it gets else |
| Jsonl.HeaderExactly | src/jsonl.rs:348-363 | A header is an object with the schema, three non-empty names, a numeric time and an object of flags |
| Jsonl.SampleExactly | src/jsonl.rs:321-346 | A sample is an object with none of the five keys only headers have |
| Jsonl.CompatibleExactly | src/jsonl.rs:302-306 | Headers agree when they have the same of those five keys with equal values |
| Jsonl.RunKeepsFileValid | src/jsonl.rs:259-299 | Any sequence of calls on a missing, empty or valid newline-terminated file leaves it empty or fully valid, the header unchanged, the samples in call order |
| Jsonl.AppendNeedsNewline | src/jsonl.rs:118-122 | An accepted append keeps a file that passes the full scan passing exactly when the file ends in a newline or, behind its last newline, in nothing but whitespace that JSON skips |
| Jsonl.UnterminatedHeader | src/jsonl.rs:287-299 | A concrete file with a valid header and no newline after which an accepted append leaves a file no scan passes |
| Jsonl.TrailingFormFeed | src/jsonl.rs:213-220 | Concrete files, with and without a header, that end in a lone form feed: they pass the full scan, the append is accepted, and no later full scan passes |
| Jsonl.MetricsFile.OpenWriter | src/jsonl.rs:54-61 | Is the abstract open, taking the lock only on success |
| Jsonl.MetricsFile.AppendSampleRow | src/jsonl.rs:69-72 | Is the abstract append by the open writer |
| Jsonl.MetricsFile.AppendJsonlSampleRow | src/jsonl.rs:287-299 | Is the abstract stateless append |
| Jsonl.MetricsFile.EnsureSingle | src/jsonl.rs:279-283 | Is the abstract header call |
| Worker.BumpIsNext | mcrx-core-ffi/src/lib.rs:836-842 | The wrapping counter with its floor of 1 counts through 1 .. 2^64 - 1 and skips 0 |
| Worker.GenerationsCollide | mcrx-core-ffi/src/lib.rs:836-842 | Two starts share a generation exactly when they are a multiple of 2^64 - 1 starts apart |
| Worker.ReachableInv | mcrx-core-ffi/src/lib.rs:806-869 | Under every interleaving the lock excludes other starts, workers come from distinct starts, and the active generation is one that was issued |
| Worker.AtMostOneActive | mcrx-core-ffi/src/lib.rs:822-849 | Generations are non-zero and distinct within 2^64 - 1 starts, so at most one worker matches the active one |
| Worker.StaleForever | mcrx-core-ffi/src/lib.rs:452-476 | An invalidated worker never becomes active again and makes at most the one receive and callback it was already past its check for; what an active one does is `WorkerLedger` and `ActiveGoesOn` |
| Worker.WorkerLedger | mcrx-core-ffi/src/lib.rs:452-476 | Under every schedule, the last one of each perhaps still ahead, a worker receives once for each check that found its generation active, calls back once for each receive that got a packet, waits once for each that found nothing, stops with an error once for each receive or wait that failed, and is finished exactly when a check saw another generation or it so stopped |
| Worker.ActiveGoesOn | mcrx-core-ffi/src/lib.rs:459-460 | No worker is finished while its generation is the active one, and its check then takes it to a receive |
| Worker.StaleFinishes | mcrx-core-ffi/src/lib.rs:452-476 | An invalidated worker takes at most four more steps of its own, whatever everyone else does, and is finished when it has taken those it had left |
| Worker.UnfinishedCanStep | mcrx-core-ffi/src/lib.rs:146-167 | Only a start or stop its own callback is making can keep an unfinished worker from its next step |
| Worker.StopInvalidates | mcrx-core-ffi/src/lib.rs:116-143 | After stop stores 0, every worker that existed acts at most once more under any continuation, and not at all if stop came from its own callback |
| Worker.StopWaits | mcrx-core-ffi/src/lib.rs:116-143 | A stop that waits for a worker returns only when that worker is finished, whatever else happens |
| Worker.StopTakesHandle | mcrx-core-ffi/src/lib.rs:122-142 | A stop empties the slot whoever calls it, and waits for that worker unless it runs in that worker's own callback |
| Worker.StartRuns | mcrx-core-ffi/src/lib.rs:806-869 | From any state with the lock free and no running worker in the slot, an uninterrupted start puts a new worker there whose generation is active and whose first check leads to a receive |
| Worker.StartRefusedIffRunning | mcrx-core-ffi/src/lib.rs:822-835 | A start is refused exactly while the worker in the slot has not finished, and then changes nothing but letting go of the lock |
| Worker.ErrorSparesReplacement | mcrx-core-ffi/src/lib.rs:169-180 | A stale worker's error leaves any other active generation active, a running worker's or one whose start has stored it and not spawned yet |
| Worker.FinishedForever | mcrx-core-ffi/src/lib.rs:452-476 | A finished worker never receives or calls back again |
| Worker.RunJoinsNewer | mcrx-core-ffi/src/lib.rs:122-142 | Under every schedule the slot holds only the newest worker, and a stop from inside a worker's callback waits only for a newer one |
| Worker.NoWaitCycle | mcrx-core-ffi/src/lib.rs:122-142 | So no workers ever wait for each other in a circle, nor one for itself |
| Worker.StopCanJoinActiveWorker | mcrx-core-ffi/src/lib.rs:116-143 | A concrete schedule in which stop waits for a worker that is still active |
| Worker.Poll | mcrx-core-ffi/src/lib.rs:769-791 | Poll runs callbacks for leading packets only, none after one that freed the handle, and reports a count of zero on an error |

## Left out

- Real sockets, socket options, interface discovery and the per-platform join and leave
  calls: only their success or failure, the kernel's memberships and the sockets'
  receive queues are modelled.
- The end of a worker's thread after its loop: `is_finished` is taken to hold as soon as
  the loop has ended. In between, `start` answers that a worker is running.
- Memory ordering of the atomics: the worker steps are sequentially consistent. The
  notify is sent without the wait lock, so nothing is claimed about prompt wake-up, nor
  about termination of stop (a schedule where it waits on an active worker is given).
- Payloads of control messages read through raw pointers: a message's payload is the
  part of it inside the buffer, and the packet-info structure is decoded by a parameter.
  The Unix walks use the platform's macros and are not modelled.
- C interface plumbing (strings, packet views, null and panic checks), Python and Tokio
  bindings, binaries and command lines.
- Metrics counters, process sampling and rates.
- JSON text (numbers keep their representation, so 1 and 1.0 differ), timestamps, file creation and input/output errors: lines are abstract values,
  and a write either happens or the call is refused first. What a half-line that is not
  JSON becomes after an append is taken to be not JSON.
- Changes made through `subscriptions_mut` and `get_subscription_mut` from outside a
  context.
- The Windows raw receive, which polls a raw socket with UDP excluded and then a UDP
  socket (src/platform/raw.rs:653-673).
- The macOS buffer refill around the block walk; capture headers are read little-endian
  with a word of 4 bytes.
- The 2^64 limit of the subscription id counters, and `usize` limits of vector lengths:
  ids and lengths are unbounded. The saturating budget of `fill_pending` is a plain sum.
- Index structures and capture records nested in hash maps are values that replace each
  other, since nothing aliases them; binary search stands for the standard library's.
- StaleForever: for at most 2^64 - 1 starts; GenerationsCollide shows why.
- Fairness: only while no nearer joined subscription fails; ServedIffClear shows why.
