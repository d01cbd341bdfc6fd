# A model of the agent's aggregation pipeline and policy compiler

The deepflow agent turns the flows it sees into metrics and flow logs, and the access control
lists it is given into tables that can be searched quickly. This project models the parts of the
Rust agent in which that is done with the most care for speed, and proves them equal to plain
descriptions of what they are for.

**Time windows.** `SubQuadGen` keeps a ring of stashes and a ring of connection counters, one pair
for each slot of the window, and shifts them as time goes on. `QuadGen` says what the rings and the
output stand for: functions of the history of accepted flows (`FlowHistory`). `Connections` and
`Timeouts` do so for the counters and their ages, `FinalFlush` for the loads sent at the end;
`Generator` holds the object itself and its whole runs. `Collector` models the `Stash` that groups the records into documents and sends them in
batches, also over whole runs, and `Pipeline` runs one into the other.

**Flow logs.** `FlowAggr` models the aggregation of reports into records of a minute, in which the
direction of a flow may turn from one report to the next. `FlowLogs` states what is conserved, in
the original direction; `FlowRecords`, how many records there are and where they begin and end; `Throttle`, the reservoir that
the records go through.

**Policies.** `PortSegments` and `CidrRanges` compile ranges into aligned blocks, on top of a theory
of aligned decompositions for any width (`Powers`, `Blocks`). `PortPartition` splits the overlapping
port ranges of the ACLs into maximal runs, `RangeLists` brings range lists into normal form, `PortLists`
reads the port lists that the compiler takes. `AclCompiler` takes an ACL, with all its networks and port
lists, to masked rules, and `MatchedFields` and `PolicyTable` take the rules to a table indexed by
selected bits. `VectorInit` selects the bits. `RuleIndex` says exactly when the table finds the rules in
it, `MaskBits` and `CompiledIndex` exactly when it finds every rule that the compiler can make. That gives
one theorem from a list of ACLs to the policies found for a key (`CompiledIndex.CompiledLookupIff`).
`MissedRule` is a list of ACLs on which a rule is missed, and `FirstPath` holds the object and its whole
runs.

**Supporting parts.** `U16Sets` is the union inside one vector, `QuadKeys` and `KeyPacking` are the
packed keys, `Ip6Options` the walk over IPv6 extension headers. `Numbers`, `Bytes`, `BitSets` and
`Wrappers` hold what several modules share.

Objects that the agent updates in place are classes here, its loops are loops with invariants, and
what they are proved against are functions and predicates on values. Clock readings, random choices
and what the queues do are parameters or arbitrary choices.

## What is not as one might expect

Where the code does not do what its comments or its use suggest, the model follows the code, and the
exact condition is proved.

- The conversion of an address range to CIDRs is exact iff the start is even, the end is odd, and it is
  not the case that the start is 0 and the end in the upper half. It never yields a single address, and an
  odd start with an even end loses the end (`CidrRanges.ExactIff`, `CidrRanges.OddStartLosesEnd`). With a
  start of 0 or 1 and an end in the upper half it shifts by the full width, which is a panic in a checked
  build.
- `set_bits` overwrites a byte for each bit it sets, so that the bits an index is made of are not the ones
  the rules were filed by. A rule in the table is never missed iff, at each bit of the index, it asks about
  that bit or leaves open the listed bit in its place (`RuleIndex.NeverMissedIff`); lookups give every key
  what the ACLs ask for iff that holds of all their rules (`CompiledIndex.CompiledLookupIff`). It holds of
  whatever ACLs there can be iff each bit of the index belongs to the same EPC, port, protocol or tap type,
  or to the same byte of the same address, as the listed bit in its place (`CompiledIndex.BuiltFindsIff`).
  Two pairs of hosts and a rule for 10.0.0.0/8 give a table that does not find that rule for a packet from
  10.1.0.0 (`MissedRule.WideIsMissed`).
- An ACL has its ports twice, as ranges and as lists. The compiler reads the lists, and parsing fills in only
  the ranges. So the ports of a key do not matter (`AclCompiler.PortsIgnored`), and a parsed ACL is taken at
  its word iff its ranges hold all ports or there are no networks to match
  (`AclCompiler.TakenAtItsWordIff`). An ACL for source port 80 is brought up for source port 81
  (`AclCompiler.Port80Takes81`).
- A port list is read as the run of ports that begins with its first, once more at each gap. Nothing of an
  ascending list is lost iff it has no gap (`PortLists.AscendingReadIff`); of 80 and 90, 80 is read twice and
  90 is lost (`PortLists.GapLosesPort`).
- An ACL brings its policy up once for each choice of a source network, a destination network and a range
  of the port list on each side that hold the key's, so more than once where they overlap
  (`AclCompiler.TimesIs`).
- Port ranges need not be ordered. `interest` panics iff some range ends below the start of every range
  (`PortPartition.Interest`), as with one ACL that has the ports 5-3 on both sides
  (`PortPartition.InvertedBoth`).
- The table of port representatives goes wrong iff port 0 is covered and a piece of its own, and some port
  is in no piece (`PortPartition.SoundIff`), as with one ACL for port 0 on both sides
  (`PortPartition.PortZeroBoth`). Neither happens once some ACL leaves a side open
  (`PortPartition.OpenSideSafe`).
- Normalising a range list overflows iff a range that is not the last one ends at 65535
  (`RangeLists.Normalise`), as 0-65535 followed by 5-9 does (`RangeLists.TopOverflows`).
- Of the two edge codes with an application protocol, one does not pack it: documents that differ
  only in it have the same key (`KeyPacking.EdgeAppIgnoresL7`).
- Reversing the performance statistics leaves the maxima where they are (`FlowLogs.MaximaRightIff`).
- Lowering the throttle discards items that had been accepted (`Throttle.ThrottlingQueue.EndPeriod`):
  from 200 to 100, one hundred of five hundred (`Throttle.LoweringCuts`).
- A record whose flows report no known application protocol has the application meter of just one of them:
  a report that repeats Unknown or Other replaces the meter where one that repeats a known protocol adds to it
  (`FlowHistory.FoldApp`).
- Until a whole delay has passed since time zero, a tick moves the collector past slots that the generator
  still keeps open; from then on it never does (`Collector.TickBehindGenerator`).
- A carried connection count is the true one iff closes never outnumbered opens
  (`FlowHistory.CarriedIsAliveIff`): a close and then an open are counted as one
  (`FlowHistory.CarriedDiffers`).
- The records sent when the generator ends carry a count that runs over the slots of the last window, not
  the load of their slot. For the first slot the two are the same iff nothing of the key ends in it or at
  most one of its connections is open in it (`FinalFlush.FirstLoadIff`); for every slot, if nothing of the
  key ends in the window up to it (`FinalFlush.FinalLoadIsLoad`). Two connections that begin and end in one
  slot have a load of 2, and of 1 at the end (`FinalFlush.FinalLoadDiffers`).
- With a delay of one second the generator has a single slot and panics as soon as its window has to move;
  with none it panics at the first report (`Generator.RunToEnd`).

## Model

| member | source | states |
|---|---|---|
| `PortSegments.CalcRightZero` | agent/src/common/policy.rs:230-239 | the count is the number of trailing zero bits: the port is a multiple of that power of two and of no higher one; 16 exactly for port 0 |
| `PortSegments.CalcMask` | agent/src/common/policy.rs:241-248 | the exponent is that of the largest aligned block at the port that ends by the maximum, and the mask is the 16-bit mask of that block |
| `PortSegments.CompiledMatch` | agent/src/common/policy.rs:221-228 | comparing a port under a segment's mask is testing whether it lies in the segment's block |
| `PortSegments.New` | agent/src/common/policy.rs:250-270 | for any range, also an inverted one, the loop yields, block by block, the segments of the greedy aligned decomposition |
| `PortSegments.SegmentsMatchRange` | agent/src/common/policy.rs:250-270 | a port is in the range iff some segment matches it, and never two segments match the same port |
| `PortSegments.SegmentsFewest` | agent/src/common/policy.rs:250-270 | at most 30 segments, and no set of prefix blocks that covers exactly the range is smaller |
| `Blocks.GreedyMinimal` | agent/src/common/policy.rs:241-270 | no cover of an interval by aligned blocks inside it has fewer blocks than the greedy one, for every width |
| `Blocks.GreedyCount` | agent/src/common/policy.rs:250-270 | an interval of w-bit numbers needs at most 2w - 2 blocks |
| `CidrRanges.FirstExp` | agent/src/common/policy.rs:114-129 | the first-mask search for any width: None exactly where it shifts by the full width, else the exponent of the first block; a /32 (or /128) is never returned |
| `CidrRanges.RangeConvert` | agent/src/common/policy.rs:131-199 | the conversion loop for any width: None (a full-width shift) iff start is 0 or 1 and end is in the upper half; else the networks of the CIDRs are exactly the specified blocks, in order |
| `CidrRanges.ConvertedCovers` | agent/src/common/policy.rs:131-199 | which addresses the CIDRs of any start <= end cover: from start rounded down to even, up to an end that depends on both parities |
| `CidrRanges.ConvertedShape` | agent/src/common/policy.rs:131-199 | the CIDRs are aligned, ascending and disjoint |
| `CidrRanges.ExactIff` | agent/src/common/policy.rs:131-199 | what a conversion returns is exactly the requested range iff start is even, end is odd and the range is not one of those on which it shifts by the full width |
| `CidrRanges.ExactIsFewest` | agent/src/common/policy.rs:131-199 | where exact, no other set of networks inside the range covers it with fewer |
| `CidrRanges.OddStartLosesEnd` | agent/src/common/policy.rs:114-129 | the range 0.0.0.1 to 0.0.0.2 becomes 0.0.0.0/31, which lacks 0.0.0.2 and has 0.0.0.0 |
| `PortPartition.CreateTable` | agent/src/common/port_range.rs:79-107 | for ranges in any order the table says of each port whether ranges start, end, both or go on there |
| `PortPartition.CoverChanges` | agent/src/common/port_range.rs:79-154 | the set of covering ranges changes between neighbouring ports iff a range starts at the one or ends at the other, for ordered ranges |
| `PortPartition.Interest` | agent/src/common/port_range.rs:109-154 | for any ranges: None (an index out of bounds) iff some range ends below the start of every range; else, in ascending order, exactly the pieces between the starts and ends of ranges |
| `PortPartition.PiecesAreRuns` | agent/src/common/port_range.rs:109-154 | for ordered ranges the scan never fails and the pieces are exactly the maximal runs of ports with the same nonempty set of covering ranges |
| `PortPartition.SameRun` | agent/src/common/port_range.rs:109-154 | two maximal runs that share a port are the same, so the result is disjoint |
| `PortPartition.InterestTable` | agent/src/policy/fast_path.rs:202-239 | the table of representatives: each piece's own range, and a common representative for ports of no piece |
| `PortPartition.SoundIff` | agent/src/policy/fast_path.rs:202-245 | every port is covered by the same rules as its representative iff port 0 is not a covered piece of its own or all ports are in pieces |
| `PortPartition.Representatives` | agent/src/policy/fast_path.rs:202-245 | the same, of the table that the whole method builds from the joined source and destination ranges of the ACLs, and None where the scan fails |
| `PortPartition.OpenSideSafe` | agent/src/policy/fast_path.rs:202-245 | as soon as one ACL leaves a side open, which is parsed as 0-65535, the scan does not fail and every port is in a piece |
| `PortPartition.InvertedBoth` | agent/src/policy/fast_path.rs:202-213 | one ACL with the ports 5-3 on both sides is a case in which the scan fails |
| `PortPartition.PortZeroBoth` | agent/src/policy/fast_path.rs:202-245 | one ACL for port 0 on both sides is a case in which the table is not sound |
| `RangeLists.Normalise` | agent/src/common/port_range.rs:185-217 | None (the 16-bit sum overflows) iff a range that is not the last after sorting ends at 65535; else the sorted ranges with touching ones merged |
| `RangeLists.SortSorts` | agent/src/common/port_range.rs:185-217 | sorting yields a permutation ordered by lower bound |
| `RangeLists.NormalForm` | agent/src/common/port_range.rs:185-217 | for any ranges the result covers the same ports and leaves a free port between neighbours |
| `RangeLists.NormaliseIdempotent` | agent/src/common/port_range.rs:185-217 | normalising a normal form gives it back, and never overflows |
| `RangeLists.TopOverflows` | agent/src/common/port_range.rs:185-217 | 0-65535 followed by 5-9 is a case in which normalising overflows |
| `MatchedFields.GetTableIndex` | agent/src/common/matched_field.rs:260-274 | for any window and mask vector: None (a panic) iff the window is empty or ends past the last bit, or a bit of the key is to be shifted by 32 or more; else the number that gathers the key's bits at the first sixteen one-bits of the vector in the window, in ascending order |
| `MatchedFields.GatheredBits` | agent/src/common/matched_field.rs:260-274 | bit r of the index is the key's bit at the r-th of those offsets, and there are no others |
| `MatchedFields.GetAllTableIndex` | agent/src/common/matched_field.rs:230-258 | None (a panic) iff there is no first index, a listed offset is past the last bit, or a position from 16 on is open; else, without repeats, exactly the numbers that agree with the rule's index outside the positions the rule leaves open |
| `PolicyTable.FiledIff` | agent/src/common/matched_field.rs:230-274 | with every listed offset in the window, a rule is filed under an index iff some key that agrees with the rule on its mask has that index |
| `PolicyTable.NeverMissesIff` | agent/src/common/matched_field.rs:230-274 | no field under any mask is ever missed by any key iff the offsets that make up an index are the first of the listed vector bits |
| `PolicyTable.SetBits` | agent/src/common/matched_field.rs:210-228 | each offset overwrites its byte: an offset's bit is set iff it is listed and no later offset shares its byte |
| `PolicyTable.GenerateTable` | agent/src/policy/first_path.rs:397-447 | each bucket holds, in order, exactly the rules filed under its index |
| `PolicyTable.Lookup` | agent/src/policy/first_path.rs:489-531 | the rules found are those of the key's bucket that match it under their masks, in order |
| `PolicyTable.LookupIsMatching` | agent/src/policy/first_path.rs:397-531 | if every rule that matches a key is filed under its index, the bucket yields exactly what a scan of all rules would, in order |
| `AclCompiler.ItemMatches` | agent/src/common/policy.rs:528-634 | a compiled rule matches a key iff both EPCs and both networks do in the plain sense, tap type and protocol do modulo 256 (256, 0 and Any being wildcards) and both port segments match |
| `AclCompiler.HeadPlain` | agent/src/common/policy.rs:528-634 | for tap types and protocols that fit a byte, comparing modulo 256 is equality |
| `AclCompiler.BackwardVerdict` | agent/src/common/lookup_key.rs:103-157 | the backward key meets the rule with its ends swapped exactly as the forward key meets the rule |
| `PortLists.GetPortRange` | agent/src/common/policy.rs:479-506 | None iff the run that begins with the first port reaches 65535 before the last (the 16-bit sum overflows); else that run, as far as it has come, at each port that does not continue it, and once at the end |
| `PortLists.ReadRightIff` | agent/src/common/policy.rs:479-506 | the ranges hold no port that is not listed, and hold every listed one iff all lie in the run |
| `PortLists.AscendingReadIff` | agent/src/common/policy.rs:479-506 | of an ascending list nothing is lost iff it has no gap |
| `PortLists.GapLosesPort` | agent/src/common/policy.rs:479-506 | of 80 and 90, 80 is read twice and 90 is lost |
| `AclCompiler.GeneratePortSegment` | agent/src/common/policy.rs:508-526 | None where reading the list overflows; else the segments of the aligned blocks of the ranges read from it, in order, or the one of all ports without a list |
| `AclCompiler.GenerateMatchField` | agent/src/common/policy.rs:528-634 | the nested loops append one rule for each pair of source and destination port segments, in order |
| `AclCompiler.GenerateMatch` | agent/src/common/policy.rs:636-652 | None where reading a port list overflows; else the rules for every pair of a source and a destination network of the same version and every pair of port segments, in order, version 4 and version 6 apart |
| `AclCompiler.AclHits` | agent/src/common/policy.rs:479-652 | of the rules compiled from an ACL as many match a key as there are choices of a network and a range of the port list on each side that hold the key's |
| `AclCompiler.TimesIff` | agent/src/common/policy.rs:479-652 | there is such a choice iff the head fits and, on each side, some network holds the address and the port lies in the run that the port list, if there is one, begins with |
| `AclCompiler.TimesIs` | agent/src/common/policy.rs:479-652 | their number is the product of the four counts |
| `AclCompiler.PortsIgnored` | agent/src/common/policy.rs:448-467 | an ACL without port lists, as new and try_from make them, is brought up as often whatever the ports of the key, whatever its port ranges |
| `AclCompiler.TakenAtItsWordIff` | agent/src/common/policy.rs:657-717 | such an ACL is brought up for exactly the keys it says, port ranges included, iff one side has no network of the version or its ranges hold all ports on both sides |
| `AclCompiler.Port80Takes81` | agent/src/common/policy.rs:657-717 | the ACL for source port 80 between any addresses is brought up, once, for source port 81 |
| `AclCompiler.NoGroupCountsOnce` | agent/src/policy/first_path.rs:370-375 | the two networks that stand in for an end without groups hold every address of either version, exactly once |
| `AclCompiler.RulesMean` | agent/src/common/policy.rs:479-652 | over all ACLs, the policies of the rules that match a key are those of the ACLs, in order, each as often as its ACL brings it up |
| `RuleIndex.NeverMissedIff` | agent/src/policy/first_path.rs:397-531 | a rule is filed under the index of every key it matches iff, at each bit of the index, it asks about that bit or leaves open the listed bit in its place |
| `RuleIndex.LookupRightIff` | agent/src/policy/first_path.rs:397-531 | of a table of rules, the bucket of every key yields as many as a scan of all rules iff that holds of every rule |
| `CompiledIndex.FindsCompiledIff` | agent/src/policy/first_path.rs:397-531 | a vector finds every rule the compiler can make, whatever the ACLs, for every key that the rule matches, iff each bit of the index lies in the same field as the listed bit in its place and, in an address or port, no lower |
| `CompiledIndex.BuiltFindsIff` | agent/src/policy/first_path.rs:165-184 | for a vector that init builds: iff each bit of the index lies in the same EPC, port, protocol or tap type, or in the same byte of the same address, as the listed bit in its place |
| `CompiledIndex.CompiledLookupIff` | agent/src/policy/first_path.rs:397-531 | compiling the ACLs, filing the rules and looking up in a key's bucket yields, for every key, the policies of the ACLs, in order, each as often as its ACL brings it up, iff every rule of the ACLs is kept in that sense |
| `CompiledIndex.AlwaysKept` | agent/src/policy/first_path.rs:397-531 | which with a vector that finds every compiled rule they are, whatever the ACLs |
| `FirstPath.GenerateAclBits` | agent/src/policy/first_path.rs:341-382 | the rules of all ACLs in order, with all networks of an end that has groups and, for one without, networks that hold every address exactly once; it fails iff reading a port list overflows |
| `FirstPath.OrAnySame` | agent/src/policy/first_path.rs:347-375 | the networks an end is compiled with hold each address as often as its own do, and once if it has none |
| `FirstPath.FirstPath.constructor` | agent/src/policy/first_path.rs:228-256 | the empty tables, which yield nothing |
| `FirstPath.FirstPath.GenerateFirstTable` | agent/src/policy/first_path.rs:451-461 | both vectors are those that init picks for the rules of the ACLs, and both tables hold these rules |
| `FirstPath.FirstPath.GetPolicyFromTable` | agent/src/policy/first_path.rs:533-559 | what the forward and the backward field of a key bring up, in the table of their version |
| `FirstPath.Run` | agent/src/policy/first_path.rs:341-559 | a whole run, ACLs in and any keys looked up: it fails iff reading a port list overflows; else, where the vector built keeps the rules of a version, every key of that version gets in both directions the policy of each ACL, in order, once for each choice of a network of its own and a port range on each side that hold the key's, an end without networks holding every address |
| `VectorInit.IndexInBounds` | agent/src/policy/first_path.rs:75-92 | the rank of a bit is always within the sort table |
| `VectorInit.CalcIndexIs` | agent/src/policy/first_path.rs:75-80 | the index of a bit is the number of rules less twice those that have the rarer value |
| `VectorInit.RankOrder` | agent/src/policy/first_path.rs:75-92 | of two bits the one with the larger minority ranks no later, and earlier if the other's index is at most 32767 or further off than indices share a place |
| `VectorInit.GenerateSortTable` | agent/src/policy/first_path.rs:94-163 | under each rank, in ascending order, exactly the bits of that rank |
| `VectorInit.PickBest` | agent/src/policy/first_path.rs:165-184 | sixteen different bits, none of them ranked after a bit that is not picked |
| `VectorInit.PickedSplitBest` | agent/src/policy/first_path.rs:165-184 | with fewer than 32768 rules the bits picked have larger minorities than those left, or as large and lower offsets |
| `VectorInit.Init` | agent/src/policy/first_path.rs:165-184 | the vector: the sixteen least ranked bits in ascending order, a window over the first four, and the mask that set_bits leaves |
| `MissedRule.WideIsMissed` | agent/src/policy/first_path.rs:165-184 | for the rules of 10.0.0.0 to 0.0.0.0, 202.1.1.255 to 15.0.0.0 and 10.0.0.0/8 to anywhere, the vector that init builds does not find the third for a packet from 10.1.0.0 |
| `U16Sets.BinarySearch` | agent/src/collector/acc_flow.rs:98-102 | the place of a value in a sorted vector, or where it has to go |
| `U16Sets.U16Set.Add` | agent/src/collector/acc_flow.rs:98-102 | the vector stays strictly increasing and gains exactly the value |
| `U16Sets.U16Set.Merge` | agent/src/collector/acc_flow.rs:104-146 | the vector stays strictly increasing and becomes exactly the union |
| `U16Sets.MergeLoop` | agent/src/collector/acc_flow.rs:113-131 | the write cursor never passes what is still to be read, and what is written is the union of what was read |
| `U16Sets.CopyRest` | agent/src/collector/acc_flow.rs:133-145 | copying the rest of the longer side completes the union |
| `FlowHistory.CarriedIsAliveIff` | agent/src/collector/quadruple_generator.rs:86-98 | the count carried slot by slot, negative counts dropped, equals opens minus closes over all history iff closes never outnumbered opens at any slot so far |
| `FlowHistory.CarriedDiffers` | agent/src/collector/quadruple_generator.rs:86-98 | a close in one slot and an open in the next are a case in which it does not |
| `FlowHistory.LoadWhenBalanced` | agent/src/collector/quadruple_generator.rs:194-208 | then a slot's load is the connections alive on entry plus the flows that begin in it, and at least one |
| `FlowHistory.FoldTraffic` | agent/src/collector/acc_flow.rs:28-88 | each counter of an accumulated record is the plain sum of that counter over its flows |
| `FlowHistory.FoldPolicies` | agent/src/collector/acc_flow.rs:68-71 | the policies of a record are exactly those of its flows |
| `FlowHistory.FoldProtocol` | agent/src/collector/acc_flow.rs:72-80 | the protocol of a record is the first known one that a flow reports; else Other iff a flow reports that |
| `FlowHistory.FoldApp` | agent/src/collector/acc_flow.rs:72-86 | with a known protocol the application meter is the sum over the flows that report it; without one it is that of the last flow that reports Unknown or Other, whichever the record has |
| `FlowHistory.FoldLoad` | agent/src/metric/meter.rs:401-410 | the flow count kept with a record is the largest rise of begun over ended flows up to its last report, the first report aside; the load is the count before the last report and the flows it begins |
| `Connections.CountFlowCounts` | agent/src/collector/quadruple_generator.rs:210-244 | adding and deleting connections keeps the counters equal to the counts of the slot's history |
| `Connections.CountFlowStamps` | agent/src/collector/quadruple_generator.rs:210-244 | a flow that is counted stamps its key's entry with its time and touches no other |
| `Connections.Merge` | agent/src/collector/quadruple_generator.rs:128-167 | entry by entry, what merge leaves: live entries within the timeout are added, all others are not |
| `Connections.MergeAdds` | agent/src/collector/quadruple_generator.rs:128-167 | merging adds what a key has open to both of its counts iff it was seen within 300 seconds, and keeps the time of the entry merged into |
| `Connections.MergeCarries` | agent/src/collector/quadruple_generator.rs:128-167 | if nothing times out, merging a finished slot into the next carries its count on |
| `Connections.DroppedAreZero` | agent/src/collector/quadruple_generator.rs:128-167 | while closes never outnumber opens, the entries that merge drops for their count are exactly zero |
| `Timeouts.SeenWhenSent` | agent/src/collector/quadruple_generator.rs:194-208 | after a slot's records are sent, every counter's time is that of the last report of its key up to that slot |
| `Timeouts.NoneTimesOut` | agent/src/collector/quadruple_generator.rs:128-167 | if each key with connections to pass on was seen within 300 seconds, merge drops no live connection |
| `QuadGen.ReportSlot` | agent/src/collector/quadruple_generator.rs:396-421 | sending a stash extends the output by exactly one record for each key with flows in the slot |
| `QuadGen.RingStep` | agent/src/collector/quadruple_generator.rs:323-355 | one turn of the shift keeps the two rings a map from absolute slots to the records and counts of their flows |
| `QuadGen.RingRotate` | agent/src/collector/quadruple_generator.rs:343-355 | rotating the stashes after a short shift puts them in step with the counters again |
| `QuadGen.RingJump` | agent/src/collector/quadruple_generator.rs:323-342 | after a shift past the whole window the rings stand for the new slots, the skipped ones having no flows |
| `QuadGen.TrafficConserved` | agent/src/collector/quadruple_generator.rs:396-429 | of each counter, the sum over all records sent is the sum over all flows accepted |
| `Generator.EmitAll` | agent/src/collector/quadruple_generator.rs:363-394 | each record is sent once with its load, and exactly the counters of TCP and UDP records sent are refreshed |
| `Generator.SubQuadGen.constructor` | agent/src/collector/quadruple_generator.rs:702-797 | the empty rings |
| `Generator.SubQuadGen.FlushFlow` | agent/src/collector/quadruple_generator.rs:396-421 | the stash at an index is emptied in place and its records are sent, once each |
| `Generator.SubQuadGen.MoveWindow` | agent/src/collector/quadruple_generator.rs:309-361 | false iff the time is before the window; a panic iff the window has to move with a single slot; else the window moves at most once and never back, to the first slot start that has the time within its delay |
| `Generator.WindowNoFurther` | agent/src/collector/quadruple_generator.rs:324-348 | the window moves no further than it must: no earlier slot start has the time within its delay |
| `Generator.WindowAfterIff` | agent/src/collector/quadruple_generator.rs:309-361 | after any times the window starts with the first slot that is still open: not before the first window, and with no time seen as much as the delay past its start |
| `Generator.SubQuadGen.InjectFlow` | agent/src/collector/quadruple_generator.rs:473-537 | a flow inside the window goes into a slot that exists and counts as the slot of its time |
| `Generator.SlotInWindow` | agent/src/collector/quadruple_generator.rs:473-485 | the slot computed inside the window is in range and tells the absolute slot |
| `Generator.SubQuadGen.Handle` | agent/src/collector/quadruple_generator.rs:828-903 | one event: the window, and whether its flow is accepted, are determined by the time alone |
| `Generator.SubQuadGen.Run` | agent/src/collector/quadruple_generator.rs:828-903 | over any events, a flow is accepted iff its slot is still open when it comes, by the times alone, and goes into the slot of its time; the window is the one those times lead to |
| `Generator.SticksIff` | agent/src/collector/quadruple_generator.rs:309-361 | when a run panics, from the times alone: with a single slot iff some time is past the first window, with none iff some report comes while its slot is still open |
| `Generator.SubQuadGen.FlushAllFlow` | agent/src/collector/quadruple_generator.rs:423-429 | every stash is emptied and its records are sent, slot after slot, each with the count that runs over the slots: what the first slot leaves open, plus what each later one opens more than it closes |
| `FinalFlush.RunningIsCarriedIff` | agent/src/collector/quadruple_generator.rs:423-429 | that count is never below what the slot leaves open, and is just that iff in every slot after the first either nothing was carried in or no more closed than opened |
| `FinalFlush.FirstLoadIff` | agent/src/collector/quadruple_generator.rs:423-429 | in the first slot the load sent at the end is the load of the slot iff nothing of the key ends in the slot or at most one of its connections is open in it |
| `FinalFlush.FinalLoadIsLoad` | agent/src/collector/quadruple_generator.rs:423-429 | in any slot it is, if nothing of the key ends in the last window up to the slot |
| `FinalFlush.FinalLoadDiffers` | agent/src/collector/quadruple_generator.rs:423-429 | two connections that begin and end in one slot are a case in which it is not |
| `Generator.RunToEnd` | agent/src/collector/quadruple_generator.rs:309-429 | over any run: a panic iff there is a single slot and some time is past the first window, or there is no slot and some report comes while its slot is still open; else each flow whose slot was still open when it came is in exactly one record, one record for each slot and key, in slot order; and if the protocol goes with the key and no key with connections went unseen for more than 300 seconds, the records sent as the window moved carry the load defined from the history and those sent at the end the running count |
| `Collector.SendInBatches` | agent/src/collector/collector.rs:812-835 | batches of at most 1024 whose concatenation is a prefix of the documents, and all of them unless the queue is terminated |
| `Collector.Drain` | agent/src/collector/collector.rs:812-835 | one document for each key of the map, stamped with the slot |
| `Collector.Stash.constructor` | agent/src/collector/collector.rs:308-328 | the empty stash at the start of a slot |
| `Collector.Stash.FlushStats` | agent/src/collector/collector.rs:812-835 | the map is emptied and each entry becomes one document; all documents so far are delivered unless the queue took its last batch |
| `Collector.Stash.Add` | agent/src/collector/collector.rs:802-810 | the meter is added to that of its key in the current slot, counter by counter, or starts it |
| `Collector.Stash.Collect` | agent/src/collector/collector.rs:350-403 | a time before the window is dropped and counted; a flow moves the window to the slot of its time, a tick to that of its corrected time if later; documents group exactly what was added, one for each slot and key, and none is taken back |
| `Collector.TickMoves` | agent/src/collector/collector.rs:350-372 | a tick at a given second moves the window to the last slot that starts no later than the delay before it, or the delay less a minute in the minutes collector, and never back; before a whole delay has passed since time zero, to the slot of the tick itself |
| `Collector.RecordMoves` | agent/src/collector/collector.rs:350-372 | a record moves the window to the slot that its time lies in |
| `Collector.TickBehindGenerator` | agent/src/collector/collector.rs:362-366 | a tick never takes the collector past the window that the same time gives the generator iff a whole delay has passed since time zero or the time is in the first slot of the window |
| `Collector.StartAtIff` | agent/src/collector/collector.rs:350-372 | after any records and ticks the window starts with the first slot that no record was past and no tick left behind |
| `Collector.Run` | agent/src/collector/collector.rs:350-403 | over any records and ticks and the flush at the end: exactly one document for each slot and key that something was added to, each counter of it the plain sum of what was added; added is what the records hold that come before a record of a later slot and before a tick that leaves their slot behind; as many drops as inputs came after one |
| `Pipeline.Feed` | agent/src/collector/collector.rs:350-403 | fed the generator's output, a collector that started no later drops nothing and adds each record under the generator's slot |
| `Pipeline.RunPipeline` | agent/src/collector/quadruple_generator.rs:328-348 | a whole run through both: exactly one document for each slot and document key, each counter of it the plain sum of what the records of that slot add under that key, the records being those of the flows whose slot was still open when they came |
| `FlowLogs.ReversalNeutral` | agent/src/common/flow.rs:433-437 | reversing a record together with its statistics changes none of its totals in the original direction |
| `FlowLogs.MergeAddsUp` | agent/src/common/flow.rs:813-842 | merged in the same direction, all 38 counts and sums of bytes, packets, retransmissions, windows, delays, handshakes and layer 7 requests add up |
| `FlowLogs.MixedDirections` | agent/src/common/flow.rs:813-842 | merged without turning one of them, they need not |
| `FlowLogs.MergedAddsUp` | agent/src/collector/flow_aggr.rs:182-189 | turned first as minute_merge does, they always add up; id and time stay those of the record |
| `FlowLogs.MergedEnds` | agent/src/common/flow.rs:813-842 | a merged record is new, starts and is tagged as the record was, and ends, is turned and has the EPCs of the report; its longest response is the longer of the two |
| `FlowLogs.MaximaRightIff` | agent/src/common/flow.rs:433-437 | the largest round trip times come out on the right side iff the directions agree, or the record's two maxima are equal, or neither is above either of the report's |
| `FlowLogs.MaximaSwap` | agent/src/common/flow.rs:433-437 | a case in which a client's maximum ends up as the server's |
| `FlowLogs.FinishedKeeps` | agent/src/collector/flow_aggr.rs:207-233 | sending changes no total; a record of a flow that neither began nor ended there spans exactly its minute |
| `FlowRecords.PastMinute` | agent/src/collector/flow_aggr.rs:162-259 | of a minute the slots have left, all that was accepted was sent; a flow has a record for it iff it reported in it; if its reports came in order it has only one, which is new iff the first report of the minute was, then starts as that one and else with the minute, and ends as the last one if that closed the flow and else with the minute |
| `FlowAggr.Aggregator.constructor` | agent/src/collector/flow_aggr.rs:137-160 | two empty slots at time zero |
| `FlowAggr.Aggregator.SendFlow` | agent/src/collector/flow_aggr.rs:207-233 | the record is handed on with its start and end rounded to the minute where the flow went on |
| `FlowAggr.Aggregator.FlushFrontSlotAndRotate` | agent/src/collector/flow_aggr.rs:235-243 | the front slot's records are sent and the slots move on by a minute |
| `FlowAggr.Aggregator.FlushSlots` | agent/src/collector/flow_aggr.rs:245-259 | the slots move on by exactly the given number of minutes, any number |
| `FlowAggr.Aggregator.MergeInto` | agent/src/collector/flow_aggr.rs:179-192 | the record of the flow's minute becomes the merged one, or is sent if the report closes the flow; totals, record counts, starts and ends stay right |
| `FlowAggr.Aggregator.Start` | agent/src/collector/flow_aggr.rs:193-204 | a report without a record starts one or is sent, and the flow's record of the minute before is sent |
| `FlowAggr.Aggregator.MinuteMerge` | agent/src/collector/flow_aggr.rs:162-205 | dropped iff its minute is before the front slot's; else accepted, the slots moving just far enough; totals, minutes and record counts stay right |
| `FlowAggr.WindowHolds` | agent/src/collector/flow_aggr.rs:162-178 | a report moves the slots to the first place where they hold its minute, and no further |
| `FlowAggr.WindowAfterIff` | agent/src/collector/flow_aggr.rs:162-283 | after any run the front slot is the first minute that is still open: no stored report was more than a minute after it, counting a minute more for each wait since that timed out more than two minutes after the slots last moved |
| `FlowAggr.Aggregator.Handle` | agent/src/collector/flow_aggr.rs:261-283 | one turn of the loop: a report, or a timeout that flushes the front slot after two minutes without a flush |
| `FlowAggr.Run` | agent/src/collector/flow_aggr.rs:162-283 | over any run of reports and timeouts: a stored report is accepted iff its minute is still open; per flow, minute and measure, accepted = sent + held in the original direction; past minutes are complete, with a record for exactly the flows that reported; where reports came in order only one, which reaches from the start of the first, if that was new, to the end of the last, if that closed the flow, and to the bounds of the minute otherwise |
| `FlowAggr.WindowAdvances` | agent/src/collector/flow_aggr.rs:235-259 | the minute of the front slot never goes back |
| `Throttle.ThrottlingQueue.constructor` | agent/src/collector/flow_aggr.rs:327-342 | the empty queue with four times the threshold |
| `Throttle.ThrottlingQueue.UpdateThrottle` | agent/src/collector/flow_aggr.rs:373-397 | a threshold in range replaces the throttle, and the kept items are cut to it |
| `Throttle.ThrottlingQueue.EndPeriod` | agent/src/collector/flow_aggr.rs:350-360 | what was kept goes out, up to the throttle that now holds; what a lowered throttle cuts off is lost |
| `Throttle.LoweringCuts` | agent/src/collector/flow_aggr.rs:373-397 | five hundred items kept under a threshold of 200 that is lowered to 100: one hundred are lost |
| `Throttle.ThrottlingQueue.Offer` | agent/src/collector/flow_aggr.rs:361-371 | taken iff fewer than the throttle have arrived in the period; else the arrival or exactly one kept item is discarded, at an index in bounds |
| `Throttle.ThrottlingQueue.Send` | agent/src/collector/flow_aggr.rs:350-371 | kept items are always as many as the smaller of arrivals and throttle, distinct arrivals of this period, all of them in order while they fit; taken = sent + kept + cut |
| `Throttle.SampleIsPart` | agent/src/collector/flow_aggr.rs:361-371 | the kept items occur among the period's arrivals, as often as they are kept |
| `Throttle.SendAll` | agent/src/collector/flow_aggr.rs:327-397 | over any calls: sent + kept + cut + refused = calls; no item is made up or doubled; nothing refused or cut means all items in order; nothing is cut while the threshold stays; refused are exactly the calls whose four seconds already had as many as four times the threshold configured when they began, or as before if that is out of range |
| `QuadKeys.SetKey` | agent/src/collector/quadruple_generator.rs:1045-1070 | the bytes written into the zeroed buffer, field by field |
| `QuadKeys.GetKey` | agent/src/collector/quadruple_generator.rs:1072-1102 | the whole key with its addresses, zeros where their version is not the key's |
| `QuadKeys.KeyIff` | agent/src/collector/quadruple_generator.rs:1045-1102 | two flows have the same key iff they agree field by field: EPCs modulo 2^16, tap type modulo 256, port 0 unless the flow closed normally or is to an active service, and addresses that are zeros where one is not of the key's version |
| `QuadKeys.KeysTellEnds` | agent/src/collector/quadruple_generator.rs:1045-1102 | with EPCs from -2 to 64000 the same key means the same EPCs, tap port with its origin, tunnel type, tap side, protocol, port and addresses |
| `QuadKeys.KeyTellsProtocol` | agent/src/collector/quadruple_generator.rs:1063 | whether a flow is one of TCP or UDP can be read from its key, so all flows of a key agree on it |
| `QuadKeys.EpcsCollide` | agent/src/collector/quadruple_generator.rs:1045-1102 | EPC -2 and EPC 65534 have the same key |
| `KeyPacking.PartsRoundTrip` | agent/src/common/tap_port.rs:52-104 | a tap port made from its parts splits into them, a tunnel type that is none of the five becoming none, and leaves the reserved bits clear |
| `KeyPacking.ReservedKeepsFields` | agent/src/common/tap_port.rs:108-114 | filling the reserved bytes changes nothing of what a tap port splits into |
| `KeyPacking.UnpackPack` | agent/src/collector/collector.rs:167-286 | everything a packed key holds can be read back from it, the kind of key included |
| `KeyPacking.FastIdIff` | agent/src/collector/collector.rs:167-293 | two documents have the same packed key iff they have the same code and agree, field by field, on EPC, protocol, direction, port and tap type, for edges also on the second EPC and the tap port, and on the application protocol for three of the four codes with one; or, for ACL documents, on group, tag type and tag value |
| `KeyPacking.EdgeAppIgnoresL7` | agent/src/collector/collector.rs:266-279 | the edge code without hardware addresses does not tell application protocols apart, the one with them does |
| `KeyPacking.ReservedCollide` | agent/src/common/tap_port.rs:108-114 | with reserved bits that are not clear, different tap ports become the same |
| `Ip6Options.MetaPacket.constructor` | agent/src/common/meta_packet.rs:267-270 | a packet with its offsets cleared |
| `Ip6Options.MetaPacket.UpdateIp6Opt` | agent/src/common/meta_packet.rs:267-336 | for any packet with a whole fixed header the walk ends, reads in bounds and returns the protocol after the chain and its size, and the offsets of the last and the fragment option; for a chain that is cut off, the first protocol, zero, and cleared offsets |
| `Ip6Options.ParseIsChain` | agent/src/common/meta_packet.rs:267-336 | the reference parser finds a list of headers iff they form the chain that RFC 8200 and RFC 4302 describe, so there is at most one |
| `Ip6Options.LengthCounts` | agent/src/common/meta_packet.rs:267-336 | every kind is eight bytes long without further units; a unit adds eight, to an authentication header four, to a fragment header nothing |
| `Ip6Options.ChainTiles` | agent/src/common/meta_packet.rs:267-336 | the headers lie one after the other without gaps, the walk ends where the last one does with what that one names, and the fragment offset is that of the last fragment header |

## Left out

- Connections.Merge: the counters are kept in an LRU cache in the source; eviction is not modelled.
- FirstPath.GenerateAclBits: starts from the networks of the groups; looking groups up, and leaving out ACLs whose groups are unknown, are not modelled.
- FirstPath.FirstPath.GetPolicyFromTable: yields the policies in order; how their actions are merged, and the cache of the fast path, are not modelled.
- CidrRanges.RangeConvert: a shift by the full width is modelled as None; what an unchecked build computes then is not.
- Throttle.ThrottlingQueue.Offer: the random index is an arbitrary one in its range; nothing is said of its distribution.
- FlowAggr.Aggregator.SendFlow: hands records to a sequence; the throttling queue behind it is modelled on its own, and the ACL group ids it fills in are not.
- FlowLogs.MergeAddsUp: is about counts and sums; of the maxima only those of round trip and response times are modelled, and of the fields that are taken over from the later report those that `MergedEnds` names.
- QuadKeys.GetKey: takes the tap port already split into its three parts.
- Collector.Stash.Collect: takes what a record adds as a parameter; the case tables of fill_stats are not modelled.
- Overflow of 64-bit counters is not modelled; all sums are unbounded.
- The flags for active and possible hosts, the delay statistics and the counters of the agent itself.
- Meters other than the additive ones: latency, anomaly and performance meters.
- Parsing of strings, configuration, protobuf encoding and the debug commands.
- Threads, queues and atomics: each component is a sequence of calls.
- The order of emission within a slot, which the source takes from hash maps, is arbitrary here.
- The TCP option walk and the rest of packet parsing: byte offsets with no invariant across steps.
