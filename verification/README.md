# Forwarding plane: model and proofs

This project models the forwarding plane of cradle and proves what its packed, in-place or incremental
forms owe to the simple meanings behind them. `dafny verify dfyconfig.toml` checks everything.

- **The DIR-24-8 FIB.** `Dir24` is the engine as functions on its state, `Dir24Objects` the same engine and
  the maps it drives as classes whose methods update fields and arrays, `Fib4` the reader and longest-prefix
  match. Proved: the pool of `TBL8` groups is conserved, errors change nothing, every prefix of a plan is
  safe, any sequence of operations refines a plain route table, a bulk load equals serial adds, and a reader
  whose loads are torn apart gets a word its address really held in between (`TornReader`); `TornReaderFinish`
  adds the load of the default word, `TornReaderFallback` and `TornReaderDepth` show both provisos needed.
- **SRv6.** `Srv6` and `Srv6Impose` hold the header codec, End, PSP/USP/USD, End.DT and both impositions, on
  fields and on bytes; `Srv6Laws` states what the RFCs ask of each behavior, and `Srv6RoundTrip` proves that a
  path undoes an imposition. `Usid` is the micro-SID carrier and `UsidWalk` the walk through a segment list of
  them, `ReplaceCsid`, `ReplaceWalk` and `ReplaceInPlace` the REPLACE-C-SID endpoint, `ReplaceList` and
  `ReplaceOwn` its whole walk down a segment list, `ReplaceProgress` what a pass can do to any packet,
  `ReplaceEarlyPop` a list whose pop comes before its end.
- **EVPN over MPLS.** `Mpls`, `MplsInPlace`, `MplsRoundTrip`: imposition, the local disposition loop, and the
  exact frame back with its segment or leaf bit; `MplsPath` the same entry by entry, through nodes that swap
  to deeper stacks, and what lies at the bottom. `Flood`, `EvpnNet`, `EvpnDelivery`: the flood loop, a network
  of any number of PEs, and exactly-once delivery of broadcast, multicast and unknown unicast frames, byte for
  byte from the ingress switch to the far port, and of known unicast to its port alone; `EvpnExample` is a
  network that meets every assumption, leaves included.
- **Policy.** `Policy` is the six-probe verdict against the meaning of a rule list, `PolicyFrame` the same on
  the bytes of a frame with the flow tracking around it, `PolicyAbsorb` the exact test for rules that change
  no verdict; `PolicySwap` and `PolicyObjects` are the A/B replacement with a reader interleaved between its
  map operations, `PolicyFailure` what a call that fails leaves to the next, and `PolicyHistory` any sequence
  of calls, failing or not.
- **Checksums and BFD Echo.** `Checksum`, `IpTtl`, `Bfd`, `BfdInPlace`.

Conventions. A frame is a sequence of bytes, an IPv6 or IPv4 frame also a record of its fields with a parser
and a printer that are inverse. Methods named after a source function work on a `Buffer` (or on arrays and
maps of a class) and are proved equal to a function of the same operation on values; the theorems are about
these functions. `NodeWalk.Walk` hands a packet from node to node and is used for every path.
Words and masks are written in integer arithmetic (`%`, `/`), with the widths of the source; `FibWordBits` and
`MplsBits` prove the arithmetic equal to the shifts and masks on 32-bit vectors. `es_bits` and `SlotEs::skip`
are sets of bit numbers. Bytes the kernel leaves in a grown frame are a parameter. A step that ends in an
error return leaves the packet unspecified, as an aborted program does.

Two places where the code does less than its documentation says, each with a concrete witness and an exact
condition. Rules that calls have put in before they failed come into force with the endpoint's next successful
call: `PolicyFailure.FailureLeaksIntoNextCall`, with `PolicyHistory.RunMeans` for the verdicts after any calls
and `PolicyHistory.RunAloneExactly` for when they are those of the last call alone. A rule for a port of any
protocol is never found: `Policy.AnyProtoPortIsMissed`, with `PolicyAbsorb.ListMeansWhatItSays` for when a list
means what it says. The exact conditions count the packets a header can hold: every identity of 32 bits,
protocol of 8 and port of 16, and either all of them or, while some value of each field is named by no rule,
only those whose identity, protocol and TCP or UDP port are not zero.

Provisos shown to be needed, each by a run or an input that fails without it: no quarantine fallback
(`TornReaderFallback.FallbackTearsAReader`) and at most 64 collapses in a reader's window
(`TornReaderDepth.OneCollapseMore`); no /0 in a batch with longer routes (`Dir24Bulk.MixedBatchIsNotSafe`); no
conflicting keys in a rule list (`Policy.LaterAllowLiftsDeny`); an old reader's probes before the sweep
(`PolicySwap.LateReaderDrops`); at most five segments for a PSP pop (`Srv6RoundTrip.SixSegmentsAreNotPopped`).

## Model

| member | source | states |
|---|---|---|
| FibWord.EntryWord | crates/cradle-common/src/lib.rs:69-83 | a packed entry is a valid non-group word that unpacks to the id cut to 26 bits and the flags cut to 4 |
| FibWord.GroupWord | crates/cradle-common/src/lib.rs:75-78 | a packed group index is a valid group word that reads back cut to 26 bits |
| FibWordBits.MaskedEntry | crates/cradle-common/src/lib.rs:60-72 | the shift-and-mask entry word is the arithmetic one |
| FibWordBits.MaskedGroup | crates/cradle-common/src/lib.rs:75-78 | the shift-and-mask group word is the arithmetic one |
| FibWordBits.MaskedUnpack | crates/cradle-common/src/lib.rs:81-83 | unpacking any word with shifts and masks is unpacking with division |
| FibWordBits.MaskedTbl8 | crates/cradle-ebpf/src/main.rs:2128-2131 | the masked group test is the arithmetic one |
| FibWordBits.MaskedValid | crates/cradle-ebpf/src/main.rs:2132-2139 | the masked validity test is the arithmetic one |
| Fib4.BestIsLongestMatch | crates/cradle/src/dir24.rs:198-205 | the downward search returns the entry of the longest covering route, and only that entry is one |
| Fib4.FinishIsMeaning | crates/cradle-ebpf/src/main.rs:2137-2151 | an invalid slot word falls through to the default word, and together they decode to longest-prefix match including /0 |
| Dir24.AscendingOrdered | crates/cradle/src/dir24.rs:172-190 | the affected blocks of a batch are visited each once, in ascending order |
| Dir24Routes.TargetIsSlotWord | crates/cradle/src/dir24.rs:293-315 | the cover word of a block without long routes is the slot word of every address in it |
| Dir24Routes.RouteIsLocal | crates/cradle/src/dir24.rs:231-240 | a route change leaves the slot word of every address outside its affected blocks as it was |
| Dir24Pool.NewIsValid | crates/cradle/src/dir24.rs:62-70 | a new engine keeps the invariant |
| Dir24Pool.PoolCard | crates/cradle/src/dir24.rs:217-229 | groups in use plus free plus quarantined ones number the pool size |
| Dir24Pool.DrainOnce | crates/cradle/src/dir24.rs:281-287 | the quarantine loop moves at most one group per collapse |
| Dir24Pool.SyncBlockPool | crates/cradle/src/dir24.rs:244-291 | one block's synchronisation keeps the partition of the pool, touches only this block's group, and fails only when no group is left |
| Dir24Pool.SyncAllSucceeds | crates/cradle/src/dir24.rs:94-110 | synchronising any blocks cannot run out of groups once those that need one fit the pool |
| Dir24Refinement.SyncBlockView | crates/cradle/src/dir24.rs:244-291 | after any prefix of a block's writes each address sees its old or its new word, no other address moves, the whole plan gives the new word |
| Dir24Refinement.SyncAllView | crates/cradle/src/dir24.rs:107-111 | the same for a run over several blocks |
| Dir24Refinement.SyncAllInBounds | crates/cradle/src/dir24.rs:252-278 | every emitted index is in range of the tables |
| Dir24Theorems.RouteAddAtomic | crates/cradle/src/dir24.rs:73-111 | an add fails exactly on a bad length or an exhausted pool, a failed add leaves the engine unchanged, a successful one keeps the invariant |
| Dir24Theorems.RouteDelAtomic | crates/cradle/src/dir24.rs:114-140 | a delete fails only on a bad length; deleting an absent route changes and writes nothing |
| Dir24Theorems.AddFits | crates/cradle/src/dir24.rs:87-104 | after the capacity pre-check the synchronisation cannot fail |
| Dir24Theorems.RouteAddSafe | crates/cradle/src/dir24.rs:73-111 | after every prefix of an add's plan each address resolves to its old or new longest match; after the whole plan the tables agree with the routes |
| Dir24Theorems.RouteDelSafe | crates/cradle/src/dir24.rs:114-140 | the same for a delete |
| Dir24Bulk.BulkAtomic | crates/cradle/src/dir24.rs:147-193 | a batch fails exactly when the pre-check refuses it, and then changes nothing |
| Dir24Bulk.BulkFits | crates/cradle/src/dir24.rs:150-169 | after the whole-batch pre-check the synchronisation cannot run out of groups |
| Dir24Bulk.BulkAgrees | crates/cradle/src/dir24.rs:147-193 | a whole batch plan brings the tables to the new routes |
| Dir24Bulk.BulkSafe | crates/cradle/src/dir24.rs:171-192 | after every prefix of a plan whose batch has no /0 each address resolves to its old or new longest match |
| Dir24BulkExact.BulkSafeExactly | crates/cradle/src/dir24.rs:171-192 | for any batch, an address sees only its old or new longest match throughout exactly when a route longer than /0 already covers it or each /0 in the batch is what it had or will have |
| Dir24BulkExact.DefaultPhase | crates/cradle/src/dir24.rs:175-184 | what an address resolves to after each of the leading default writes |
| Dir24Bulk.MixedBatchIsNotSafe | crates/cradle/src/dir24.rs:175-184 | a batch mixing /0 with a longer route shows an address that is neither, as the default word is written first |
| Dir24Bulk.SerialOutcome | crates/cradle/src/dir24.rs:73-111 | adding routes one by one succeeds exactly when all lengths are good and the blocks gaining a group fit the pool |
| Dir24Bulk.BulkSucceedsWithSerial | crates/cradle/src/dir24.rs:142-169 | a batch succeeds exactly when its routes added one by one all do |
| Dir24Bulk.BulkEngineEqualsSerial | crates/cradle/src/dir24.rs:142-193 | then the routes, the grouped blocks and the room left agree |
| Dir24Bulk.BulkLookupEqualsSerial | crates/cradle/src/dir24.rs:142-193 | and so does the lookup of every address, whatever the group numbers |
| Dir24Runs.DoAtomic | crates/cradle/src/dir24.rs:73-193 | any operation from a valid engine fails exactly when refused, a failure changes nothing, a success keeps the invariant and stays in bounds |
| Dir24Runs.RunRefines | crates/cradle/src/dir24.rs:73-291 | after any operations from empty tables the lookup of every address is longest-prefix match over a plain route table kept beside it |
| Dir24Objects.Dir24Engine.AllocGroup | crates/cradle/src/dir24.rs:317-330 | the object's allocation is the function's: last free group, else oldest quarantined one, else failure |
| Dir24Objects.Dir24Engine.SyncBlock | crates/cradle/src/dir24.rs:244-291 | the in-place synchronisation leaves the state and appends the writes of the function |
| Dir24Objects.Dir24Engine.RouteAdd | crates/cradle/src/dir24.rs:73-111 | state and plan are the function's |
| Dir24Objects.Dir24Engine.RouteDel | crates/cradle/src/dir24.rs:114-140 | state and plan are the function's |
| Dir24Objects.Dir24Engine.RouteAddBulk | crates/cradle/src/dir24.rs:147-193 | state and plan are the function's |
| Dir24Objects.Dataplane.Dir24Apply | crates/cradle/src/dataplane.rs:2165-2174 | the arrays after the loop are the plan applied in order; an index out of bounds stops it |
| Dir24Objects.Dataplane.Lookup | crates/cradle-ebpf/src/main.rs:2128-2151 | the reader's loads give the table lookup |
| Dir24Objects.Dataplane.Perform | crates/cradle/src/dataplane.rs:2179-2266 | after any operation, failed or not, the lookup of every address is longest-prefix match over the routes |
| TornReader.WordIsOldOrNew | crates/cradle/src/dataplane.rs:2163-2174 | at every moment of a plan each address's word is the longest match before or after the operation in hand |
| TornReader.PointerMeans | crates/cradle/src/dir24.rs:262-288 | a group word in the table is its block's current group, or the block's last word is about to be written |
| TornReader.Rests | crates/cradle/src/dir24.rs:281-287 | a quarantined group's slots are not written until as many collapses as the quarantine is deep have followed |
| TornReader.FlipIsCollapse | crates/cradle/src/dir24.rs:274-281 | a write that turns a block away from its group is the word of its collapse |
| TornReader.TornReadIsPast | crates/cradle-ebpf/src/main.rs:2130-2137 | a lookup torn across any writes and operations gets a word its address held at a moment between the two loads, given at most 64 collapses and no fallback allocation |
| TornReader.TornReadIsLongestMatch | crates/cradle/src/dir24.rs:275-288 | that word is the longest match of a route table in force, or being put in force, at that moment |
| TornReaderFinish.TornLookupIsPair | crates/cradle-ebpf/src/main.rs:2126-2151 | with the third load at a later moment still, the finished lookup pairs the longest match of a moment between the first two with the default word of the third, and is that route table's own answer, /0 included, exactly when the default word fits it |
| TornReaderFinish.SteadyTornLookup | crates/cradle-ebpf/src/main.rs:2126-2151 | while the default route stays as it is, a lookup torn in three is the longest match, /0 included, of a route table of the window |
| TornReaderDepth.OneCollapseMore | crates/cradle/src/dir24.rs:15-21 | the bound is exact: with 65 collapses, and no fallback, a torn reader gets a word its address never held |
| TornReaderFallback.FallbackTearsAReader | crates/cradle/src/dir24.rs:317-325 | without the proviso on the quarantine fallback a torn reader gets a word its address never held |
| Srv6.ReversedAt | crates/cradle-ebpf/src/main.rs:2870-2896 | entry i of the wire list is the i-th segment from the end |
| Srv6.PopInserted | crates/cradle-ebpf/src/main.rs:4770-4789 | popping an SRH of at most 104 bytes undoes having put it there |
| Srv6.DecapHead | crates/cradle-ebpf/src/main.rs:5664-5679 | the sliding copy and trim leave the Ethernet addresses, the new EtherType and the inner packet; refused outside 40 to 144 bytes |
| Srv6.PopSrhHead | crates/cradle-ebpf/src/main.rs:4770-4789 | the in-place pop is the field-level one, also when the copied header overlaps itself, with its three refusals |
| Srv6.Srv6End | crates/cradle-ebpf/src/main.rs:4644-4721 | verdict and bytes of End, End.X, End.T and the uN fallback: transit step, PSP, and USD before USP at the last segment |
| Srv6.Srv6Decap | crates/cradle-ebpf/src/main.rs:4596-4626 | verdict and bytes of End.DT4, End.DT6 and End.DT46 |
| Srv6Laws.SegmentsLeft | crates/cradle-ebpf/src/main.rs:4691-4721 | with one to six segments left any endpoint sends on the entry below, out its adjacency, by its table or by the main one, as its behavior says; the PSP pop comes with the last |
| Srv6Laws.SegmentsRefused | crates/cradle-ebpf/src/main.rs:4691-4697 | more than six segments left are the host's, a list cut short is an error |
| Srv6Laws.NoneLeft | crates/cradle-ebpf/src/main.rs:4663-4690 | at the ultimate segment USD uncovers IPv4 or IPv6 for the table, else USP pops, else the packet is the host's; adjacency behaviors do neither |
| Srv6Laws.NoSrh | crates/cradle-ebpf/src/main.rs:4644-4662 | without an SRH only USD does anything |
| Srv6Laws.DecapFamily | crates/cradle-ebpf/src/main.rs:4612-4626 | End.DT4 uncovers IPv4 for its table and drops the rest, End.DT6 IPv6, End.DT46 either |
| Srv6Laws.NoOtherFamily | crates/cradle-ebpf/src/main.rs:4612-4620 | whatever the packet, End.DT4 exposes nothing but EtherType 0x0800 and End.DT6 nothing but 0x86dd |
| Srv6Laws.DecapWaits | crates/cradle-ebpf/src/main.rs:4599-4609 | a packet with segments left or an oversized SRH is not decapsulated |
| Srv6Impose.ApplyHencap | crates/cradle-ebpf/src/main.rs:2827-2896 | the bytes written are the outer header, the reduced SRH for more than one segment, and the inner packet; an unset source, zero or more than six segments change nothing |
| Srv6Impose.Srv6Insert | crates/cradle-ebpf/src/main.rs:3101-3154 | the bytes written are the patched header, the SRH with the old destination last, and the payload, the hop limit one less |
| Srv6RoundTrip.WalkArrives | crates/cradle-ebpf/src/main.rs:4694-4721 | k endpoints, each sending its packet the way its behavior says, make k segment steps, a PSP pop only at the last, and change nothing else |
| Srv6RoundTrip.HEncapsVisits | crates/cradle-ebpf/src/main.rs:2827-2896 | the endpoint of segment k is handed the packet with segment k as destination and the encap source as source |
| Srv6RoundTrip.HEncapsLayout | crates/cradle-ebpf/src/main.rs:2850-2896 | the outer packet byte by byte: no SRH for one segment, else type 4, one fewer left than segments, the last segment first, the inner packet behind |
| Srv6RoundTrip.HEncapsRoundTrip | crates/cradle-ebpf/src/main.rs:2827-2896 | one to six segments, the endpoints in order with any flavors, and a decap of the right family recover the inner packet byte for byte with its EtherType, unless a PSP pop meets an outer length that overflowed 16 bits; the outer header has that source, version 6, hop limit 64 and the length of what follows |
| Srv6RoundTrip.HInsertLayout | crates/cradle-ebpf/src/main.rs:3101-3154 | the inserted SRH byte by byte: all repair segments and the displaced destination as entry 0 |
| Srv6RoundTrip.HInsertRoundTrip | crates/cradle-ebpf/src/main.rs:3101-3154 | insertion, the repair endpoints and the PSP pop restore the packet but for its hop limit, exactly when there are at most five segments and the grown length fits 16 bits |
| Srv6RoundTrip.SixSegmentsAreNotPopped | crates/cradle-ebpf/src/main.rs:4770-4789 | six segments make an SRH length field of 14, delivered but refused by the pop |
| ReplaceWalk.Countdown | crates/cradle-ebpf/src/main.rs:4960-5007 | the next container position is the one before the active C-SID on the line of all containers, and it lies inside the SRH the header announces, as does container 0 |
| ReplaceWalk.RewriteBits | crates/cradle-ebpf/src/main.rs:4836-4844 | a rewrite changes the C-SID bytes and the index bits of the destination and nothing else |
| ReplaceWalk.StepRewrites | crates/cradle-ebpf/src/main.rs:4965-5033 | on a non-zero next position the C-SID before the active one becomes active, and the PSP pop fires exactly when the result satisfies the next visit's ultimate-segment test |
| ReplaceWalk.AtEndMeans | crates/cradle-ebpf/src/main.rs:4935-4937 | the ultimate-segment test holds exactly when no C-SID is left or only padding is |
| ReplaceWalk.ZeroEndsContainer | crates/cradle-ebpf/src/main.rs:4967-4993 | a zero position ends the container: the entry below becomes the whole destination, or with no entry below the ultimate segment has been reached, so the return for a zero position with Segments Left zero is never taken |
| ReplaceProgress.PassProgresses | crates/cradle-ebpf/src/main.rs:4898-5033 | a pass leaves the packet alone exactly for a geometry it does not handle, a packet without SRH it does not decapsulate, an oversized SRH, an ultimate segment delivered as it is, or header fields out of bounds; any other pass fails, strips, takes the SRH off, or lowers SL * K + index |
| ReplaceProgress.UltimateIs | crates/cradle-ebpf/src/main.rs:4938-4957 | at the ultimate segment USD uncovers IPv4 or IPv6, else USP pops, else the packet is the host's; End.X does neither |
| ReplaceProgress.BareIs | crates/cradle-ebpf/src/main.rs:4898-4930 | without an SRH only USD does anything, and only for the geometries handled |
| ReplaceProgress.NoEndlessWalk | crates/cradle-ebpf/src/main.rs:4871-5033 | endpoints of any geometries, second passes included, can change a packet and pass it on only as often as a measure of the packet allows |
| ReplaceList.ContainersReadInOrder | crates/cradle-ebpf/src/main.rs:4871-5033 | the endpoints of a path, each sending out its adjacency or by the main table as its SID says, see exactly the destinations the segment list announces: C-SIDs down a container, the full SID below a zero position, the next container below position 0; the PSP pop only at the end |
| ReplaceList.EnteringShows | crates/cradle-ebpf/src/main.rs:4836-4844 | what a node is handed shows its step in the destination, every other bit as the packet set out |
| ReplaceList.PopsAtEnd | crates/cradle-ebpf/src/main.rs:4975-5033 | which steps pop: exactly the last, and a full SID from entry 0 even when its own last bits index that entry |
| ReplaceEarlyPop.EarlyPop | crates/cradle-ebpf/src/main.rs:4983-4993 | a segment list and a packet on which a full SID from entry 0 pops the SRH with one announced step still to come |
| ReplaceList.LastSidEnds | crates/cradle-ebpf/src/main.rs:4975-4993 | a list whose entry 0 carries no index is never popped early |
| ReplaceList.WalkEnds | crates/cradle-ebpf/src/main.rs:4932-4958 | after the last step of a walk without a pop the next endpoint finds the ultimate segment |
| ReplaceOwn.OwnSidsWalk | crates/cradle-ebpf/src/main.rs:4871-4895 | a walk through nodes some of which serve the full SIDs they load is the walk with the two endpoints each stands for in its place |
| ReplaceOwn.OwnSidEnds | crates/cradle-ebpf/src/main.rs:4866-4895 | a node that serves the last SID gives it its ultimate-segment treatment in the same visit |
| ReplaceInPlace.ReadPosition | crates/cradle-ebpf/src/main.rs:4821-4830 | the bounds-checked packet read is the container position |
| ReplaceInPlace.WriteCsid | crates/cradle-ebpf/src/main.rs:4836-4844 | the in-place writes are the rewrite of the destination |
| ReplaceInPlace.ReplaceOnceHead | crates/cradle-ebpf/src/main.rs:4898-5033 | one pass on bytes has the outcome and the bytes of the pass on fields, error returns included |
| ReplaceInPlace.ReplaceHead | crates/cradle-ebpf/src/main.rs:4871-4895 | at most two passes, the second when this node serves the loaded SID |
| Usid.ShiftCarrier | crates/cradle-ebpf/src/main.rs:5346-5368 | a shift drops the active micro-SID, keeps the block and zero-fills the tail |
| Usid.ExhaustedCarrier | crates/cradle-ebpf/src/main.rs:5383-5387 | a carrier is at its end exactly when one micro-SID is left |
| Usid.CarrierInjective | crates/cradle-ebpf/src/main.rs:5338-5345 | different micro-SID lists make different destinations |
| Usid.CarrierWalk | crates/cradle-ebpf/src/main.rs:5377-5402 | k micro-SIDs are exposed in order by k-1 shifts with block and payload kept, and only then does the node act as End, if no node serves the carrier it exposes as its own adjacency SID |
| Usid.UnThenUa | crates/cradle-ebpf/src/main.rs:5389-5400 | a node's own adjacency micro-SID behind its uN is used up in the same visit |
| Usid.OtherGeometry | crates/cradle-ebpf/src/main.rs:5346-5371 | blocks of 16, 32 and 48 bits before micro-SIDs of 16 are shifted, no other geometry |
| UsidWalk.CarriersWalk | crates/cradle-ebpf/src/main.rs:5377-5428 | through any carriers of a segment list, nodes that shift, nodes that also use up an adjacency micro-SID of their own, uA nodes and the End fallback between carriers, each sending its packet the way it lies, make exactly the packet of the state they lead to, PSP pop included, and change nothing else |
| UsidWalk.UsedInOrder | crates/cradle-ebpf/src/main.rs:5377-5428 | the micro-SIDs of all carriers are used up in order, one or two a node, none skipped |
| UsidWalk.LastActs | crates/cradle-ebpf/src/main.rs:5383-5387 | the node of the last micro-SID acts as End at the ultimate segment |
| UsidWalk.Repair | crates/cradle-ebpf/src/main.rs:5389-5428 | a repair carrier of a node's uN and uA restores the original destination in that node's one visit |
| Usid.ShiftHead | crates/cradle-ebpf/src/main.rs:5346-5371 | the in-place shift is the field-level one for blocks of 16, 32 and 48 bits, refused otherwise |
| Usid.UnHead | crates/cradle-ebpf/src/main.rs:5377-5402 | verdict and bytes of uN |
| Usid.UaHead | crates/cradle-ebpf/src/main.rs:5409-5428 | verdict and bytes of uA |
| Mpls.UnpackPack | crates/cradle-common/src/lib.rs:786-801 | an entry packed and unpacked is itself |
| Mpls.PackUnpack | crates/cradle-common/src/lib.rs:786-801 | any four bytes unpacked and packed are themselves |
| Mpls.OneBottom | crates/cradle-ebpf/src/main.rs:3992-4021 | a stack imposed ends, for a reader, at its last entry: it alone is marked bottom |
| MplsBits.WordFields | crates/cradle-common/src/lib.rs:786-801 | the masked word gives its fields back, the label cut to 20 bits |
| MplsBits.UnpackIsWord | crates/cradle-common/src/lib.rs:794-801 | unpacking with shifts and masks is unpacking the wire bytes |
| MplsBits.WordIsPack | crates/cradle-common/src/lib.rs:786-788 | the big-endian bytes of the word built with shifts and masks are the packed entry, any label, class, bottom flag and TTL |
| MplsRoundTrip.ServiceDecap | crates/cradle-ebpf/src/main.rs:5530-5575 | the service label's disposition bridges the exact frame with the bit of the label under it, or drops it |
| MplsRoundTrip.LocalStack | crates/cradle-ebpf/src/main.rs:4030-4101 | a stack of local labels is delivered exactly when the loop has an iteration for each and one for the service label |
| MplsRoundTrip.PathPops | crates/cradle-ebpf/src/main.rs:5718-5750 | penultimate hops pop one transport label each and keep the rest of the frame |
| MplsRoundTrip.EncapStack | crates/cradle-ebpf/src/main.rs:3969-4024 | the built frame is one label stack with only the last entry bottom, and the frame behind it |
| MplsRoundTrip.EvpnRoundTrip | crates/cradle-ebpf/src/main.rs:3969-4024 | up to three transport labels popped anywhere, even all locally in one run, then the decap: the exact frame with the matching es_bits |
| MplsPath.GrowSwapReads | crates/cradle-ebpf/src/main.rs:5790-5802 | the frame a swap to a deeper stack sends reads as the nexthop's labels in order, one hop older, bottom only on the last and only if the old label was, then what followed the old label |
| MplsPath.PathSends | crates/cradle-ebpf/src/main.rs:4030-4101 | nodes that pop and swap hand on the inside of the frame, under the stack they make, out the ports their nexthops name |
| MplsPath.FarEnd | crates/cradle-ebpf/src/main.rs:4030-4101 | any local labels over the service label are popped in one run, and the frame is bridged with the bit of the extra entry |
| MplsPath.SwapRoundTrip | crates/cradle-ebpf/src/main.rs:3969-4024 | imposition, a path of pops and swaps to deeper stacks, and the far end: exactly the frame, with the matching es_bits |
| MplsPath.EndsInVrf | crates/cradle-ebpf/src/main.rs:4155-4193 | a label that ends here over an IP packet gives the packet alone to the entry's VRF, under the EtherType of its own version, with the label's TTL in the uniform model |
| MplsPath.EndsOnWay | crates/cradle-ebpf/src/main.rs:5718-5750 | and popped toward a port, out that port under new addresses, one hop older in the uniform model |
| MplsPath.HandsUp | crates/cradle-ebpf/src/main.rs:4030-4101 | a label with no life left, unknown, without nexthop or not for this stage is handed up as it is |
| MplsPath.CrossConnects | crates/cradle-ebpf/src/main.rs:4058-4063 | a cross-connect label goes to its circuit |
| MplsPath.ServiceRefused | crates/cradle-ebpf/src/main.rs:5530-5575 | a service label over more than one entry is dropped, one over less than an Ethernet header is an error |
| MplsPath.ImposedAre | crates/cradle-ebpf/src/main.rs:3992-4021 | every imposed entry has its label cut to 20 bits, class 0, TTL 255, and the bottom mark only if last |
| MplsPath.ImposesWhen | crates/cradle-ebpf/src/main.rs:3937-3990 | up to three transport labels and a resolved adjacency are imposed out its port, anything else nothing |
| MplsInPlace.L2MplsEncap | crates/cradle-ebpf/src/main.rs:3937-4027 | the bytes written are the imposed frame; no adjacency or too deep a stack leaves it alone |
| MplsInPlace.PopHeadInPlace | crates/cradle-ebpf/src/main.rs:5755-5764 | the sliding copy pops the top entry |
| MplsInPlace.PopDecapL2Head | crates/cradle-ebpf/src/main.rs:5530-5575 | verdict, es_bits and bytes of the L2 disposition |
| MplsInPlace.PopAndForwardHead | crates/cradle-ebpf/src/main.rs:5718-5750 | the pop with new Ethernet addresses, above the bottom of the stack or, with the EtherType of the version nibble and the uniform TTL, at it |
| MplsInPlace.PopDecapLocalHead | crates/cradle-ebpf/src/main.rs:4155-4193 | the last pop for local routing: EtherType from the version nibble, uniform TTL, and the VRF to route in |
| MplsInPlace.GrowSwapHead | crates/cradle-ebpf/src/main.rs:5772-5805 | the swap to a deeper stack: the incoming entry gives way to the nexthop's labels, the bottom mark only on the innermost |
| MplsInPlace.TryMplsXdp | crates/cradle-ebpf/src/main.rs:4030-4101 | verdict and bytes of the loop of MAX_LABELS + 1 iterations, every operation included; a cross-connect is a verdict |
| Flood.FloodLoop | crates/cradle-ebpf/src/main.rs:1098-1159 | the clones are those of the slots looked at that pass every filter, in slot order |
| Flood.CopiesAre | crates/cradle-ebpf/src/main.rs:1115-1159 | a port gets a copy exactly when a slot names it and it passes every filter |
| Flood.FloodedAt | crates/cradle-ebpf/src/main.rs:1115-1130 | a flood looks at the domain's slots, and at no more than 64 |
| Flood.CopiesDistinct | crates/cradle-ebpf/src/main.rs:1115-1159 | no port gets two copies |
| Flood.ControlToHost | crates/cradle-ebpf/src/main.rs:894-898 | the sixteen reserved group addresses go to the host, and nothing else does |
| Flood.FloodsUnlearned | crates/cradle-ebpf/src/main.rs:924-957 | a group address, an unknown station and one behind the overlay are flooded, unless the frame enters through a standby port |
| Flood.SendsLearned | crates/cradle-ebpf/src/main.rs:928-955 | a station on a local port gets the frame at that port alone, and nobody does exactly for a hairpin, leaf to leaf, or a standby port on either side |
| Flood.SwitchKeepsLeavesApart | crates/cradle-ebpf/src/main.rs:885-955 | no frame from a local or remote leaf reaches a leaf port, known unicast included |
| Flood.RowReadsBack | crates/cradle/src/dataplane.rs:1006-1020 | an affinity row set reads back, an all-zero one as no row, and a missing row serves everything |
| EvpnDelivery.SlotChoice | crates/cradle-common/src/lib.rs:694-721 | with rows as documented exactly the slot of one role toward each PE takes a frame: leaf slot, segment slot or plain slot |
| EvpnDelivery.SlotBits | crates/cradle-ebpf/src/main.rs:5535-5560 | a slot's extra label resolves at its PE to the segment's bit, the leaf bit or none |
| EvpnDelivery.RemotePort | crates/cradle-ebpf/src/main.rs:1142-1151 | at the far PE the bits and filters keep the copy from exactly the ports of the sender's segment, leaf to leaf, and non-DF ports |
| EvpnDelivery.CopyReaches | crates/cradle-ebpf/src/main.rs:1098-1159 | over the whole network the ports that get a copy are exactly the forwarding ports of customers that may have the frame |
| EvpnDelivery.BumDelivery | crates/cradle-ebpf/src/main.rs:1098-1159 | from ingress switch to far port: every permitted customer gets a broadcast, multicast or unknown unicast frame exactly once and byte for byte, the sender's segment never, no leaf from a leaf |
| EvpnDelivery.UnicastDelivery | crates/cradle-ebpf/src/main.rs:928-955 | a frame to a station its PE has learned goes to that port alone, or nowhere exactly for a hairpin, leaf to leaf, or a standby port |
| EvpnDelivery.LearnedCopy | crates/cradle-ebpf/src/main.rs:928-955 | a flooded frame whose station a far PE knows reaches there that port alone, unless leaf to leaf or standby |
| EvpnDelivery.NeverReflooded | crates/cradle-ebpf/src/main.rs:1081-1142 | no copy that crossed the overlay goes into a replication slot again |
| EvpnDelivery.BumFloods | crates/cradle-ebpf/src/main.rs:885-957 | a frame to a group or an unlearned station is flooded, unless it enters through a standby port |
| EvpnDelivery.CopyArrives | crates/cradle-ebpf/src/main.rs:5512-5529 | the frame a slot sends is bridged at its PE byte for byte with the bits of the slot's role |
| EvpnExample.SharedCustomer | crates/cradle-common/src/lib.rs:694-703 | on a concrete network with a multihomed customer and a leaf at each PE the assumptions hold and the customer's frame is delivered as stated |
| EvpnExample.LeafCustomer | crates/cradle-common/src/lib.rs:694-703 | and so is a leaf's |
| Policy.ProbeAll | crates/cradle-ebpf/src/main.rs:1405-1426 | the loop with its early exit denies exactly when a probe hits a deny or none hits an allow |
| Policy.PolicyDenied | crates/cradle-ebpf/src/main.rs:1347-1426 | the loop's answer is the verdict function on the frame |
| PolicyFrame.FrameVerdict | crates/cradle-ebpf/src/main.rs:1347-1426 | on the bytes: a frame passes as a reply exactly when the flow with its addresses and ports exchanged is tracked; otherwise it is denied exactly as the rules mean for the peer - source on ingress, destination on egress - by its binding, else its CIDR's, else the world's; a frame cut short is the error return |
| PolicyFrame.PctTrack | crates/cradle-ebpf/src/main.rs:1183-1208 | the flow recorded is the frame's |
| PolicyFrame.TrackedIs | crates/cradle-ebpf/src/main.rs:1183-1208 | exactly TCP and UDP frames without IP options are recorded |
| PolicyFrame.AnswersPass | crates/cradle-ebpf/src/main.rs:1364-1376 | once a frame is recorded exactly its answers pass that did not before |
| Policy.MatchIsProbed | crates/cradle-ebpf/src/main.rs:412-412 | a rule that matches is among the six probes exactly when it names a protocol or no port |
| Policy.VerdictIsMeaning | crates/cradle-ebpf/src/main.rs:1400-1426 | on every rule list the verdict is the meaning of its live rules: not replaced by a later one, and probed at all |
| Policy.TidyVerdict | crates/cradle/src/dataplane.rs:849-861 | on a list without any-protocol port rules and conflicting keys it is the meaning of the list itself |
| PolicyAbsorb.AbsorbedExactly | crates/cradle-ebpf/src/main.rs:1400-1426 | rules added to a list change no verdict exactly when a test on the two lists says so: every added allow is covered, every added deny stops nothing that is let through; over all packets, or over those with no zero field if the lists leave a value of each field unnamed |
| PolicyAbsorb.ShortListsHaveSpare | crates/cradle-ebpf/src/main.rs:1400-1426 | fewer than 253 rules leave one |
| PolicyAbsorb.ListMeansWhatItSays | crates/cradle/src/dataplane.rs:849-861 | the verdict on a list is, for every packet, the meaning of the list itself exactly when its dead rules pass that test against its live ones |
| Policy.AnyProtoPortIsMissed | crates/cradle-ebpf/src/main.rs:412-412 | one rule allowing a port of any protocol allows nothing |
| Policy.LaterAllowLiftsDeny | crates/cradle/src/dataplane.rs:849-861 | an allow inserted after a deny under the same key lifts it |
| PolicySwap.RowAt | crates/cradle/src/dataplane.rs:863-868 | the endpoint's row changes at the switch and nowhere else, other rows never |
| PolicySwap.KeyAt | crates/cradle/src/dataplane.rs:838-869 | new rules never touch keys of the generation in force, the sweep never those of the new one, neither any other endpoint |
| PolicySwap.SwapIsAtomic | crates/cradle/src/dataplane.rs:806-870 | a packet judged in any interleaving gets the full old verdict or the full new one, decided by its row read, if an old reader's probes precede the sweep; other endpoints see no change |
| PolicySwap.LateReaderDrops | crates/cradle/src/dataplane.rs:863-869 | an old reader whose probes come after the sweep drops what both policies forward |
| PolicySwap.CallMeans | crates/cradle/src/dataplane.rs:806-870 | from any maps: after a call the endpoint's verdicts are what the rules lying under its idle generation and then the call's own mean together, audit included |
| PolicySwap.SwapInstalls | crates/cradle/src/dataplane.rs:806-870 | from clean maps: after the call verdicts are what the given rules mean, and no idle key is left |
| PolicySwap.CleanAfter | crates/cradle/src/dataplane.rs:815-825 | no key of an idle generation survives a call |
| PolicySwap.CallFits | crates/cradle/src/dataplane.rs:849-861 | the inserts of a call all go in exactly when the table they make has room or adds no key |
| PolicyFailure.FailureChangesNoVerdict | crates/cradle/src/dataplane.rs:850-861 | a call stopped by a failed insert has changed no verdict, whatever earlier calls have left |
| PolicyFailure.FailureLeavesClean | crates/cradle/src/dataplane.rs:831-861 | what the inserts that go in leave is clean exactly when the call has none or the map was full |
| PolicyFailure.WroteIdles | crates/cradle/src/dataplane.rs:831-861 | the inserts of a call come on top of the rules already idle at its endpoint |
| PolicyFailure.NextCallMeans | crates/cradle/src/dataplane.rs:831-870 | from any maps: after a call stopped at any insert, the endpoint's next call gives the verdicts of the rules that were idle, those that went in, and its own, in that order |
| PolicyFailure.CallAloneExactly | crates/cradle/src/dataplane.rs:831-870 | from any maps: a call gives every packet the verdict of its own rules alone exactly when these absorb what is left of the idle ones |
| PolicyFailure.NextCallAloneExactly | crates/cradle/src/dataplane.rs:831-870 | so after a failed call the next one does exactly when its rules absorb what was idle before and what the failed call left |
| PolicyFailure.NextCallCleans | crates/cradle/src/dataplane.rs:815-825 | after that call no key of an idle generation is left at its endpoint, whatever was there |
| PolicyFailure.FailureLeaksIntoNextCall | crates/cradle/src/dataplane.rs:831-861 | with room for one rule: a call of two allows fails at the second, and the next call, of no rules, forwards a packet its own rules drop |
| PolicyHistory.RunIdles | crates/cradle/src/dataplane.rs:806-870 | after any calls at any endpoints, failed or not, what lies under an endpoint's idle generation is exactly the rules its failed calls have put in since its last success |
| PolicyHistory.RunMeans | crates/cradle/src/dataplane.rs:806-870 | and every packet's verdict is that of the last call at its endpoint to succeed, over the rules pending then and its own |
| PolicyHistory.RunAloneExactly | crates/cradle/src/dataplane.rs:806-870 | which is the verdict of its own rules, on every packet, exactly when they absorb the pending ones |
| PolicyHistory.RetryHeals | crates/cradle/src/dataplane.rs:806-870 | as they do when the earlier calls at the endpoint named only keys that this one names too: a retry that succeeds puts in force what its rules mean |
| PolicyObjects.PlanEnds | crates/cradle/src/dataplane.rs:815-825 | the end state does not depend on the order in which the sweep finds its keys |
| PolicyObjects.PolicyMaps.EndpointPolicySet | crates/cradle/src/dataplane.rs:806-870 | the call succeeds exactly when it only clears or its table and its row have room; the maps then hold the plan's end and no idle key, and on a failure exactly the inserts that fit |
| Checksum.TwoFoldsSuffice | crates/cradle-ebpf/src/main.rs:5683-5684 | two carries fold any 32-bit sum |
| Checksum.ChecksumLoop | crates/cradle/src/bfd_echo.rs:331-345 | the loop computes the complement of the folded sum of big-endian words, an odd byte padded, the sum wrapping at 32 bits, and so the checksum of any data whose sum stays below |
| Checksum.OddBytePads | crates/cradle/src/bfd_echo.rs:331-345 | an odd last byte counts as if a zero byte followed |
| Checksum.UpdateIsRecomputation | crates/cradle-ebpf/src/main.rs:5676-5686 | the incremental update equals the checksum from scratch exactly when the changed words do not sum to zero |
| Checksum.UpdateOneWord | crates/cradle-ebpf/src/main.rs:5676-5686 | the same for one word among many |
| Checksum.UpdateKeepsValid | crates/cradle-ebpf/src/main.rs:5676-5686 | any valid checksum stays valid modulo 65535 |
| Checksum.GtpHeaderChecksum | crates/cradle-ebpf/src/main.rs:2902-2945 | the unrolled header sum is the general checksum of the twenty bytes written, and with it in place the header sums to all ones |
| IpTtl.WithTtlValid | crates/cradle-ebpf/src/main.rs:5694-5711 | a TTL written into an exposed IPv4 header changes it and the checksum alone, and keeps that valid, and canonical if it was |
| IpTtl.UniformIsTtl | crates/cradle-ebpf/src/main.rs:5694-5711 | on a whole IPv4 or IPv6 header the bytes are the header with the new TTL or hop limit, its checksum patched, and nothing else changes |
| IpTtl.UniformToIp | crates/cradle-ebpf/src/main.rs:5694-5711 | the in-place writes are these bytes, any other EtherType untouched, a short frame an error |
| Bfd.PatchKeepsSum | crates/cradle-ebpf/src/bfd.rs:193-218 | the RFC 1141 patch keeps the header sum modulo 65535 |
| Bfd.BouncesV4 | crates/cradle-ebpf/src/bfd.rs:375-384 | a frame is bounced exactly once per unit of its TTL, changing only TTL, checksum and direction |
| Bfd.BouncesV6 | crates/cradle-ebpf/src/bfd.rs:397-407 | the IPv6 twin, source and destination trading places |
| Bfd.BouncesKeepSum | crates/cradle-ebpf/src/bfd.rs:196-218 | the header sum is kept modulo 65535 over any number of reflections |
| Bfd.BouncedUdpSum | crates/cradle-ebpf/src/bfd.rs:339-343 | the address swap keeps the UDP sum |
| Bfd.UdpCkValid | crates/cradle/src/bfd_echo.rs:347-374 | the UDP checksum built is never zero and makes the datagram valid |
| Bfd.EchoHeaderValid | crates/cradle/src/bfd_echo.rs:252-276 | the header built sums to all ones |
| Bfd.RearmsExactly | crates/cradle-ebpf/src/bfd.rs:278-291 | a session is re-armed exactly by a frame from an address of ours with the magic and its discriminator; a frame is bounced exactly when it comes from elsewhere with hops left |
| Bfd.BouncesBack | crates/cradle-ebpf/src/bfd.rs:318-407 | a bounced frame has its Ethernet addresses exchanged, one hop less, and in IPv6 its addresses exchanged |
| Bfd.EchoLayoutV4 | crates/cradle/src/bfd_echo.rs:252-289 | the Echo frame field by field, in numbers |
| Bfd.EchoLayoutV6 | crates/cradle/src/bfd_echo.rs:293-328 | the IPv6 Echo frame |
| Bfd.EchoLoopV4 | crates/cradle/src/bfd_echo.rs:252-289 | up to 255 reflections and home: both checksums valid modulo 65535, the discriminator read back |
| Bfd.EchoLoopV6 | crates/cradle/src/bfd_echo.rs:293-328 | the IPv6 loop |
| BfdInPlace.DecrementTtl | crates/cradle-ebpf/src/bfd.rs:196-218 | the in-place decrement and patch; TTL zero is an error |
| BfdInPlace.SwapRanges | crates/cradle-ebpf/src/bfd.rs:182-192 | byte swaps exchange the two ranges and nothing else |
| BfdInPlace.ReflectV4Head | crates/cradle-ebpf/src/bfd.rs:375-384 | own frames re-arm their session and are dropped, others are bounced |
| BfdInPlace.ReflectV6Head | crates/cradle-ebpf/src/bfd.rs:397-407 | the IPv6 twin |
| BfdInPlace.RecordReturn | crates/cradle-ebpf/src/bfd.rs:278-291 | the magic and the discriminator are read at their offsets, a short frame is an error |
| BfdInPlace.BuildEcho | crates/cradle/src/bfd_echo.rs:252-289 | the buffer filled field by field is the Echo frame |
| BfdInPlace.BuildEchoV6 | crates/cradle/src/bfd_echo.rs:293-328 | the buffer filled field by field is the IPv6 Echo frame |

## Left out

- Dir24Objects.Dataplane.Perform: models the global table in DIR-24-8 mode; the LPM tries of VRFs and of the default mode are kernel maps, and a failing map write does not occur because every index is proved in range.
- TornReaderFinish.SteadyTornLookup: while a default route changes hands in the window, `TornLookupIsPair` says what the reader gets, and exactly when that is one route table's own answer.
- ReplaceList.ContainersReadInOrder: one geometry for all endpoints of a list, as the list is packed for one; a path ends at the node that pops, and an endpoint of another geometry is covered by `ReplaceProgress` alone.
- Srv6RoundTrip.HEncapsRoundTrip: the nexthop's MTU is not part of the model.
- MplsRoundTrip.EvpnRoundTrip: single-label swaps at transit nodes are TC's in-place job and not part of the path.
- MplsInPlace.TryMplsXdp: what a cross-connect does with its frame is not part of this model, it is a verdict with its table entry.
- EvpnDelivery.BumDelivery: DF roles, segment ids, slots and labels are assumptions taken from the documentation of the tables; `clone_redirect` succeeds; VXLAN and SRv6 overlays, where the non-DF test precedes the source filter, are not covered.
- Flood.SwitchKeepsLeavesApart: the learned station of a destination is a parameter; learning is not modelled.
- Policy.PolicyDenied: the CIDR identity lookup is a parameter; the IPv6 twin and the network byte order of ports are left out, both are the same code over other keys.
- PolicyAbsorb.AbsorbedExactly: for lists that name every value of a field one by one the "only if" half rests on packets with a zero in that field, which no rule can name.
- BfdInPlace.SwapRanges: the swaps unrolled in the source are a loop here.
- Numbers of long routes per block and sequence numbers are unbounded; group indices fit 26 bits because pools are bounded by 2^24.
- Statistics counters, neighbour resolution, `bpf_redirect`, packet metadata cookies, timers firing: foreign calls, kept only as verdicts.
- L4 NAT, masquerade, VXLAN, GTP tunnels other than their checksum, End.M, End.B6, mirror and replication segments, VPWS.
- gRPC, configuration replay, IPAM, Kubernetes watchers: input and output.
