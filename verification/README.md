# Quagga bgpd in Dafny

A model of the parts of Quagga's BGP daemon that keep delicate state, with
proofs about all inputs, all runs or all reachable states.

- `Options` and `Sequences` hold what several parts share.
- **AS paths** (`Asns`, `AsPaths`, `AsPathObjects`, `AsPathLaws`,
  `AsPathFigures`): segment lists and the hop sequence they stand for.  The hop
  sequence is the reference reading; normalisation, prepending, confederation
  removal and AS4 reconciliation are proved against it.
- **AS paths on the wire** (`Streams`, `AsPathWire`, `AsPathParse`,
  `AsPathBytes`, `AsPathRoundTrip`, `AsPathPacking`, `As4Transit`, `As4Packed`,
  `As4Exact`): the encoder with its splitting, packing and back-patched lengths,
  the parser, the exact limits of the round trip, and the survival of 4-byte
  paths in transit through 2-byte speakers.
- **Aggregation** (`AsPathAggregate`) and **text** (`Decimals`, `AsPathText`,
  `AsPathStrings`) of AS paths.
- **Multipath lists** (`MultipathSpec`, `MultipathShares`, `MultipathBounds`,
  `Multipath`): the walk that rebuilds a doubly linked list in place while
  taking the old one apart equals a greedy filter of the candidates.
  `MultipathAggregate` puts the attributes of the selected paths together.
- **Interning** (`Interning`, `InternRuns`, `Interner`): nested
  reference-counted hash-consing of attributes and the structures they point to;
  what sending such an attribute does to it (`InternSend`); and the chained hash
  tables under it with their keys (`HashTables`, `HashKeys`).
- **Attribute codec** (`AttrTlv`, `AttrTransit`, `AttrCodec`, `AttrMeaning`,
  `AttrSent`, `AttrRoundTrip`, `AttrStream`): the type-length-value parser, its
  independence of order, and its encoder.
- **Session state machine** (`FsmSpec`, `FsmMeaning`, `FsmRuns`, `Fsm`) and
  **update delay** (`UpdateDelay`): invariants over whole runs.
- **Flap dampening** (`DampLists`, `DampSpec`, `DampWheel`, `DampWheelExact`,
  `DampTimer`, `DampRuns`, `DampPenalties`, `Damping`): records moving between a
  rotating wheel of lists and one side list.
- **Community sets** (`Communities`, `CommunityText`, `ExtCommunities`) and the
  **EVPN import route-target index** (`ImportRt`, `ImportKeys`).

Each imperative operation is a method on a class or a method with loops, proved
equal to a function or a relation on values; the theorems are about those.
`AsPathBytes`, `AsPathFigures`, `MultipathBounds`, `AttrMeaning`, `AttrSent`,
`FsmMeaning`, `DampPenalties` and `ImportKeys` say what these functions come to
in the codes, bytes, events and figures of the standards. Where a property
fails, the code is modelled as it is, a concrete instance is given, and the
exact condition under which the property holds is proved.  Such conditions are:
`PutCountExact`, `WireRoundTrip`, `PutReadBackIff`, `DropConfedsNormal`,
`ConfedFreeKept`, `AddSequenceHops`, `ReconcileLength`, `As4Transparency`,
`As4TransparencyExact`, `TextRoundTrip` (of paths and of communities),
`NexthopAntisymmetric`, `SharesBestIff`, `FindsByCompareIff`, `SendRunGoodIff`,
`TransitOrderIff`, `CodecRoundTrip`, `AggregatorAlone`, `WriteAttributes`,
`EstablishedExits`, `TimerPartitionIff` and `UnconfigureOne`.

Findings where the code departs from its evident intent:

- `aspath_put` sends the first 255 numbers of a long segment again for every
  further piece and counts more bytes than it writes (bgpd/bgp_aspath.c:951-957),
  and patches only the last packed length (bgpd/bgp_aspath.c:983); paths that are
  packed so are written once confederation segments were removed
  (bgpd/bgp_attr.c:3201).
- `bgp_packet_attribute` removes confederation segments from the attribute's own
  path when it writes AS4_PATH to an internal 2-byte peer (bgpd/bgp_attr.c:3201).
  The path of an advertised attribute is interned (bgpd/bgp_updgrp_packet.c:733),
  so that other routes lose the segments too and the hash table loses the path.
- AS4_AGGREGATOR without AGGREGATOR is taken over without its address
  (bgpd/bgp_attr.c:1636).
- The reuse timer frees a record by unlinking it from a list it is not on
  (bgpd/bgp_damp.c:165 and 362-365), which loses or cross-links other records.
- Clearing one address family of an established peer posts a completion event
  that drops the session to Idle without clearing (bgpd/bgp_fsm.c:1664-1808).
- Removing one of several import route targets leaves a VNI out of the index
  (bgpd/bgp_evpn_ui.c:529-534).
- The community parser adds the last value twice (bgpd/bgp_community.c:636-656);
  sorting into a set makes this harmless.

Standards: sections 4.3, 5.1.2, 8.2.2 and 9.2.2.2 of RFC 4271, sections 4.2.2 and
4.2.3 of RFC 6793, section 4.1 of RFC 5065, sections 4.8.2, 4.8.6 and 4.8.7 of
RFC 2439.

`dafny verify dfyconfig.toml` checks the whole project.

## Model

| member | source | states |
|---|---|---|
| Asns.StrictlyIncreasingUnique | bgpd/bgp_aspath.c:279-303 | a set of AS numbers has exactly one strictly increasing array, so a normalised set segment is determined by its members |
| Asns.WeedDupes | bgpd/bgp_aspath.c:287-301 | the in-place weeding loop on a sorted array leaves the strictly increasing array of the same set |
| Asns.CanonSetOfPermutation | bgpd/bgp_aspath.c:279-285 | sorting first does not change the canonical array of a set |
| AsPaths.NormCanonical | bgpd/bgp_aspath.c:264-327 | normalisation is canonical: two lists of non-empty segments normalise to the same list if and only if they stand for the same hop sequence, which forgets exactly how runs of AS_SEQUENCE are cut and the order and repetition inside sets |
| AsPaths.NormalDeterminedByHops | bgpd/bgp_aspath.c:264-327 | a normal path is determined by its hop sequence |
| AsPaths.NormKeepsHops | bgpd/bgp_aspath.c:264-327 | normalisation keeps the hop sequence |
| AsPaths.NormIsNormal | bgpd/bgp_aspath.c:264-327 | normalising non-empty segments gives non-empty segments, strictly increasing sets and no two adjacent sequences |
| AsPaths.NormalIsFixed | bgpd/bgp_aspath.c:264-327 | a normal path is its own normal form |
| AsPaths.NormIdempotent | bgpd/bgp_aspath.c:264-327 | normalising twice is normalising once |
| AsPaths.NormReaches | bgpd/bgp_aspath.c:264-327 | a normal path is recovered from any other reading of the same hops |
| AsPaths.NormKeepsCounts | bgpd/bgp_aspath.c:264-327 | hop count, confederation count and AS membership survive normalisation |
| AsPaths.MembersOfHops | bgpd/bgp_aspath.c:427-461 | the AS numbers of a path are those of its hops |
| AsPaths.CountHops | bgpd/bgp_aspath.c:445-461 | the loop counts the hops outside the confederation of the hop sequence: one for a set, one for each number of a sequence |
| AsPaths.CountConfeds | bgpd/bgp_aspath.c:427-443 | the loop counts the confederation hops of the hop sequence |
| AsPathFigures.SegmentLength | bgpd/bgp_aspath.c:427-461 | a sequence counts its numbers and a set counts one, and so do those of a confederation, apart |
| AsPathFigures.LengthsAdd | bgpd/bgp_aspath.c:427-461 | the length of a path is that of its parts |
| AsPathObjects.AsPath.Normalise | bgpd/bgp_aspath.c:264-327 | the pin-and-swallow loop computes the normal form |
| AsPathObjects.Pin | bgpd/bgp_aspath.c:271-321 | one pinned segment swallows the packable segments behind it and leaves the normal form of the list unchanged |
| AsPathObjects.SortSet | bgpd/bgp_aspath.c:279-303 | sorting and weeding a set segment gives its canonical array |
| AsPathObjects.Cmp | bgpd/bgp_aspath.c:2109-2132 | the segment-by-segment comparison is equality of paths |
| AsPathObjects.AsPath.AddToLeft | bgpd/bgp_aspath.c:1614-1645 | the prepend leaves the segment list that `AddAsns` names |
| AsPathLaws.AddSequenceHops | bgpd/bgp_aspath.c:1614-1660 | prepending a number as AS_SEQUENCE puts that many copies in front of the hops if and only if the prepend is not a huge one onto an existing sequence |
| AsPathLaws.AddSequenceNormal | bgpd/bgp_aspath.c:1614-1660 | prepending a sequence keeps a normal path normal |
| AsPathFigures.PrependMeans | bgpd/bgp_aspath.c:1614-1660 | copies of a number go in front of a first segment of the same kind, unless there are 255 or more, and else make a segment of their own in the place of an empty one |
| AsPathObjects.AsPath.DeleteConfeds | bgpd/bgp_aspath.c:1835-1875 | the unlinking loop removes every confederation segment and nothing else |
| AsPathLaws.DropConfedsHops | bgpd/bgp_aspath.c:1835-1875 | exactly the confederation hops disappear (section 4.1 of RFC 5065) |
| AsPathLaws.DropConfedsNormal | bgpd/bgp_aspath.c:1835-1875 | removing confederation segments keeps a normal path normal if and only if they never separate two AS_SEQUENCE segments |
| AsPathLaws.ConfedFreeKept | bgpd/bgp_aspath.c:1835-1875 | a path is left alone if and only if it has no confederation segments |
| AsPathWire.DataPut | bgpd/bgp_aspath.c:894-910 | AS numbers go out in 4 bytes, or in 2 bytes with AS_TRANS for the large ones |
| AsPathWire.PutSplits | bgpd/bgp_aspath.c:949-957 | the splitting loop writes the first 255 numbers once for every full piece and charges the running total each time |
| AsPathWire.PackFollowing | bgpd/bgp_aspath.c:963-987 | packed neighbours are written behind the segment and only the last one is counted in the patched length byte |
| AsPathWire.Put | bgpd/bgp_aspath.c:924-995 | bytes written and byte count returned, for every path |
| AsPathBytes.SegmentBytes | bgpd/bgp_aspath.h:27-30 | a path of one segment is written as its code, 1 for a set, 2 for a sequence, 3 and 4 for those of a confederation, its length, and its numbers most significant byte first, in 2 bytes with 23456 for those above 65535 |
| AsPathBytes.LongSegmentBytes | bgpd/bgp_aspath.c:949-962 | a segment of 256 to 510 numbers is written as one of its first 255 and one of the rest |
| AsPathBytes.TwoSequencesBytes | bgpd/bgp_aspath.c:963-987 | two sequences are written as one exactly when they have at most 255 numbers together |
| AsPathBytes.SegmentRead | bgpd/bgp_aspath.c:765-822 | a segment is read exactly from a code between 1 and 4, a length above zero and as many numbers; it has the kind of the code and these numbers |
| AsPathBytes.TwoPiecesMeans | bgpd/bgp_aspath.c:924-995 | count and bytes agree exactly for segments of at most 510 numbers |
| AsPathRoundTrip.PutCountExact | bgpd/bgp_aspath.c:924-995 | the byte count is at least the bytes written, and equal to them if and only if no segment is longer than 510 |
| AsPathRoundTrip.ParsePut | bgpd/bgp_aspath.c:749-995 | what a receiver makes of the bytes written for any path of non-empty segments in which no turn of the encoder packs two neighbours: the pieces on the wire, narrowed, normalised |
| AsPathRoundTrip.WireRoundTrip | bgpd/bgp_aspath.c:749-995 | a normal path is read back unchanged by a 4-byte peer if and only if every AS_SEQUENCE has at most 510 numbers and every other segment at most 255 (section 4.3 of RFC 4271) |
| AsPathRoundTrip.HopsReadBack | bgpd/bgp_aspath.c:749-995 | every such path within the wire limits is read back with the same hops, by a 2-byte peer with AS_TRANS for the large numbers |
| AsPathRoundTrip.NarrowRoundTrip | bgpd/bgp_aspath.c:749-995 | in particular a 2-byte peer reads back the hops of every normal path within the wire limits, narrowed |
| AsPathRoundTrip.OverlongSegmentFails | bgpd/bgp_aspath.c:949-957 | no path with a segment longer than 510 is read back: the announced length does not match the bytes |
| AsPathPacking.PutReadBackIff | bgpd/bgp_aspath.c:924-995 | for every path of non-empty segments within the wire limits, normal or not, the receiver ends up with the narrowed hops of the path if and only if no turn of the encoder packs two neighbours |
| AsPathPacking.RightHopsAnnounced | bgpd/bgp_aspath.c:963-987 | bytes that decode to the right hops in whatever way were written without packing two neighbours |
| AsPathPacking.DropConfedsPacks | bgpd/bgp_attr.c:3187-3208 | the failing paths do occur: removing the confederation segments of a normal path with three short sequences leaves a path that is not read back |
| AsPathPacking.DropConfedsPacksExample | bgpd/bgp_attr.c:3187-3208 | one such path, with a number that makes AS4_PATH necessary |
| AsPathParse.ReadOne | bgpd/bgp_aspath.c:765-822 | one segment is accepted or refused exactly as the reference reading of its bytes says |
| AsPathParse.ReadSegments | bgpd/bgp_aspath.c:749-843 | the segment loop accepts exactly well-formed segment lists and consumes them to the last byte |
| AsPathParse.Parse | bgpd/bgp_aspath.c:844-891 | parsing refuses odd or overlong lengths, else gives the normalised path and consumes exactly the attribute |
| AsPathObjects.AsPath.Merge | bgpd/bgp_aspath.c:1437-1455 | merging puts the head in front, for a head with at least one segment |
| AsPathObjects.CopyHead | bgpd/bgp_aspath.c:1735-1790 | the copying loop takes the head of AS_PATH that `Cut` names |
| AsPathObjects.ReconcileAs4 | bgpd/bgp_aspath.c:1706-1804 | reconciliation computes `Reconcile` |
| AsPathLaws.CutHops | bgpd/bgp_aspath.c:1735-1790 | the copied head stands for the leading hops of the wanted weight |
| AsPathLaws.ReconcileHops | bgpd/bgp_aspath.c:1706-1804 | the hops of a reconciled path: the head of AS_PATH, then all of AS4_PATH |
| AsPathFigures.ReconciledHead | bgpd/bgp_aspath.c:1706-1804 | a reconciled path is the shortest front of AS_PATH with the hops that AS4_PATH is short of, or with all its plain hops when AS4_PATH is too long, and behind it AS4_PATH |
| AsPathFigures.As4TooLong | bgpd/bgp_aspath.c:1720-1732 | an AS4_PATH too long for a path without confederation segments is put behind all of it |
| AsPathLaws.ReconcileSafe | bgpd/bgp_aspath.c:1706-1804 | a reconciled path is normal and keeps every AS number AS4_PATH mentions |
| AsPathLaws.ReconcileHeadNonEmpty | bgpd/bgp_aspath.c:1794-1801 | the merge never starts from an empty head |
| AsPathLaws.ReconcileLength | bgpd/bgp_aspath.c:1706-1804 | reconciliation keeps the hop count of AS_PATH if and only if AS4_PATH is no longer, has no confederation hops, and the cut does not fall inside a confederation sequence |
| As4Transit.HasAs4 | bgpd/bgp_aspath.c:514-530 | the search finds a number above 65535 if and only if the path has one |
| As4Transit.RelayHops | bgpd/bgp_aspath.c:844-995 | after any chain of 2-byte speakers AS_PATH holds their numbers and the narrowed hops, and AS4_PATH is untouched |
| As4Transit.TransitHops | bgpd/bgp_attr.c:2954-2960 | what arrives: everything in full, except confederation segments of a path that needed AS4_PATH |
| As4Transit.As4Transparency | bgpd/bgp_aspath.c:1706-1804 | a normal path with leading confederation segments arrives, behind the prepended numbers, as the same path if and only if no confederation segment holds a number above 65535 (sections 4.2.2 and 4.2.3 of RFC 6793) |
| As4Transit.As4TransparencyPlain | bgpd/bgp_aspath.c:1706-1804 | every confederation-free normal path survives transit through any chain of 2-byte speakers |
| As4Exact.As4TransparencyExact | bgpd/bgp_aspath.c:1706-1804 | every normal path survives transit if and only if it has no number above 65535, or its confederation segments come first and hold none |
| As4Exact.PackedLost | bgpd/bgp_aspath.c:963-987 | a path whose AS4_PATH packs two neighbours does not survive transit |
| As4Packed.ShiftedAnnounced | bgpd/bgp_aspath.c:749-987 | bytes that decode to the last hops of a path, behind hops without large numbers, were written without packing two neighbours |
| As4Packed.LargeLeftOver | bgpd/bgp_aspath.c:765-822 | where two neighbours are packed, the receiver takes an AS number above 65535 for the header of a segment |
| As4Exact.ScatteredLost | bgpd/bgp_aspath.c:1706-1804 | a path that needs AS4_PATH and survives has its confederation segments in front |
| As4Exact.SmallSurvives | bgpd/bgp_aspath.c:844-995 | a path without large numbers survives wherever its confederation segments are |
| As4Transit.ConfedNumberLost | bgpd/bgp_attr.c:3187-3208 | a concrete confederation number that arrives as AS_TRANS |
| AsPathAggregate.SetAdd | bgpd/bgp_aspath.c:1024-1062 | one number is added to the set segment unless it is there |
| AsPathAggregate.SetAddRest | bgpd/bgp_aspath.c:1128-1146 | all numbers left over from a path reach the set |
| AsPathAggregate.CommonHead | bgpd/bgp_aspath.c:1076-1119 | the loop stops where the paths stop agreeing and has copied their common head |
| AsPathAggregate.AggregatePaths | bgpd/bgp_aspath.c:1064-1147 | the aggregation computes `Aggregate` |
| AsPathAggregate.AggregateCommutes | bgpd/bgp_aspath.c:1064-1147 | aggregation does not depend on the order of its arguments |
| AsPathAggregate.AggregateSelf | bgpd/bgp_aspath.c:1064-1147 | aggregating a normal path with itself changes nothing |
| AsPathAggregate.AggregateMembers | bgpd/bgp_aspath.c:1064-1147 | an aggregate is normal and mentions exactly the AS numbers of both paths (section 9.2.2.2 of RFC 4271) |
| AsPathAggregate.AggregateParts | bgpd/bgp_aspath.c:1064-1147 | an aggregate is a head that both paths start with, number by number, and behind it the set of exactly the numbers that follow it in either path |
| AsPathAggregate.AggregateKeepsCommonHead | bgpd/bgp_aspath.c:1064-1147 | everything the two paths share at the front stays at the front |
| MultipathAggregate.AggregateMultipath | bgpd/bgp_mpath.c:694-743 | the loop over the multipaths folds AS path, origin, communities and extended communities |
| MultipathAggregate.JoinAllMeans | bgpd/bgp_mpath.c:694-743 | the attribute advertised for a multipath route has a normal path with exactly the AS numbers of all its paths, the largest origin, and communities, extended or not, exactly when some path has them: the sorted set of all |
| MultipathAggregate.SummaryUnique | bgpd/bgp_mpath.c:694-743 | AS numbers, origin and communities of both kinds in the aggregate do not depend on which path is best or on the order of the others |
| AsPathText.LexPrint | bgpd/bgp_aspath.c:1963-2026 | the tokens of a printed path are those of its segments |
| AsPathText.PrintParse | bgpd/bgp_aspath.c:2028-2092 | parsing the text of any path gives the path with empty sequences dropped and adjacent ones joined |
| AsPathText.ParsesIff | bgpd/bgp_aspath.c:2028-2092 | a text is refused exactly when it holds an unknown token |
| AsPathText.TextRoundTrip | bgpd/bgp_aspath.c:532-659 | the text of a path parses back to the path if and only if no AS_SEQUENCE is empty or next to another |
| AsPathText.NormalTextRoundTrip | bgpd/bgp_aspath.c:532-659 | every normalised path survives printing and parsing |
| AsPathText.NextToken | bgpd/bgp_aspath.c:1963-2026 | every token but an unknown one takes at least one character, and there is no token exactly when only separators are left |
| AsPathText.SegmentMeans | bgpd/bgp_aspath.c:379-407 | the text of a segment: spaces in sequences, commas in sets, round, curly and square brackets |
| AsPathText.PrintMeans | bgpd/bgp_aspath.c:586-650 | segments stand one behind the other with a space between them |
| AsPathText.SeparatorMeans | bgpd/bgp_aspath.c:1963-1990 | white space and commas separate tokens |
| Decimals.DecMeans | bgpd/bgp_aspath.c:620-630 | decimal figures with the last one at the end |
| AsPathStrings.MakeStr | bgpd/bgp_aspath.c:532-659 | the text is the printed path; every print fits its buffer and the final length stays below the buffer size, so the assertion never fires |
| AsPathStrings.PrintSegment | bgpd/bgp_aspath.c:586-650 | one segment with its delimiters fits in the room the loop makes for it |
| AsPathStrings.GetToken | bgpd/bgp_aspath.c:1963-2026 | the scanning loops find the token of the text and the position behind it; numbers accumulate in 32 bits |
| AsPathStrings.StrToPath | bgpd/bgp_aspath.c:2028-2092 | the token loop builds the path the text stands for, or fails on an unknown token |
| MultipathSpec.NexthopAntisymmetric | bgpd/bgp_mpath.c:107-164 | the next-hop comparison is antisymmetric if and only if it is not between an IPv6 next hop and one of another family |
| MultipathSpec.NexthopTransitive | bgpd/bgp_mpath.c:107-164 | within one family the comparison is transitive |
| MultipathSpec.WalkIsGreedy | bgpd/bgp_mpath.c:487-598 | whatever the old list was, the parallel walk takes exactly what the greedy filter of the candidates takes |
| MultipathSpec.WalkUnchanged | bgpd/bgp_mpath.c:487-598 | if the walk reports no change, the new list is what was left of the old one |
| MultipathSpec.WalkSameList | bgpd/bgp_mpath.c:487-598 | for candidates in order the walk reports a change only if the list changed |
| MultipathSpec.GreedyDistinctNexthops | bgpd/bgp_mpath.c:487-598 | with sorted candidates of one family the selected paths have pairwise distinct, increasing next hops |
| MultipathShares.SharesBestIff | bgpd/bgp_mpath.c:487-598 | for sorted candidates of one family a selected path has the next hop of the best path if and only if another candidate has it, some candidate sorts below it, and one more than the number of distinct next hops below it is less than the maximum |
| MultipathShares.SharesFromBest | bgpd/bgp_mpath.c:487-598 | the same for any number of paths selected before, with the next hops below the best path counted as changes along the sorted candidates |
| MultipathSpec.GreedyAvoidsBest | bgpd/bgp_mpath.c:487-598 | in particular, if no candidate sorts below the best path, no selected path shares its next hop |
| MultipathSpec.BestNexthopRepeated | bgpd/bgp_mpath.c:487-598 | a concrete selection in which an entry does share the next hop of the best path |
| Multipath.Paths.Enqueue | bgpd/bgp_mpath.c:301-319 | linking behind a path keeps the chain doubly linked |
| Multipath.Paths.Dequeue | bgpd/bgp_mpath.c:325-337 | unlinking a path keeps the rest of the chain doubly linked and clears its flag |
| Multipath.Paths.Detach | bgpd/bgp_mpath.c:442-469 | the old list is cut loose from the old best path and the new best path leaves it |
| Multipath.Paths.StepEqual | bgpd/bgp_mpath.c:512-545 | a candidate that is next on the old list moves to the new one if it is taken |
| Multipath.Paths.StepPurge | bgpd/bgp_mpath.c:547-569 | a path that is no candidate any more leaves the old list |
| Multipath.Paths.StepNew | bgpd/bgp_mpath.c:570-608 | a candidate that is not next on the old list is appended if it is taken |
| Multipath.Paths.Resync | bgpd/bgp_mpath.c:487-598 | the loop ends with the old list dismantled and the new one equal to the walk |
| Multipath.Paths.Update | bgpd/bgp_mpath.c:430-620 | the list becomes the greedy filter of the candidates; links, count and BGP_INFO_MULTIPATH flags agree with it; an unmarked best path has the same list as before, and for sorted candidates of one family the mark means a changed list; the list keeps to the maximum for internal or for external paths, and reaches it if there are as many next hops |
| MultipathBounds.SelectedCount | bgpd/bgp_mpath.c:456-608 | for sorted candidates of one family the list is as long as the maximum allows, the best path counted, and as there are different next hops to choose from |
| MultipathBounds.SelectedBound | bgpd/bgp_mpath.c:456-608 | whatever the candidates, the maximum is kept to |
| MultipathBounds.SelectedWhich | bgpd/bgp_mpath.c:456-608 | with no candidate below the best path each selected path is the first candidate with its next hop, and where there is not room for all next hops the lowest are selected |
| MultipathBounds.ChoicesAbove | bgpd/bgp_mpath.c:456-608 | with every candidate above the best path the choices are all their next hops |
| MultipathBounds.SameNexthopIff | bgpd/bgp_mpath.c:107-164 | two next hops compare equal exactly when they agree in all that their lengths of 4, 12, 16 or 32 say is in use |
| MultipathBounds.LowerNexthopIff | bgpd/bgp_mpath.c:107-164 | lower addresses come first: the IPv4 next hop, the global address, the link-local one |
| MultipathBounds.PeerOrder | bgpd/bgp_mpath.c:180-204 | paths with one next hop are ordered by peer address, those without one last |
| Multipath.Paths.DmedDeselect | bgpd/bgp_mpath.c:628-651 | the list of a path that was not selected is dismantled completely |
| Interning.InternPartGood | bgpd/bgp_aspath.c:676-695 | interning a value gives the caller one reference on the one object with that value |
| Interning.UninternPartGood | bgpd/bgp_aspath.c:355-373 | giving a reference back keeps every count right, and frees the object if and only if no caller and no attribute refers to it any more |
| InternRuns.AcquireSlotsGood | bgpd/bgp_attr.c:735-780 | interning the pointers of an attribute gives exactly one reference on each, and loses none |
| InternRuns.InternAttrGood | bgpd/bgp_attr.c:729-786 | interning an attribute keeps conservation and gives the caller one reference on an attribute with the given fields and parts |
| InternRuns.RefAttrGood | bgpd/bgp_attr.c:793-817 | `bgp_attr_refcount` gives one more reference on the attribute and on each of its parts |
| InternRuns.UninternAttrGood | bgpd/bgp_attr.c:943-973 | giving back an attribute takes exactly one reference from it and from each of its parts |
| InternRuns.MakeAttrKeepsPath | bgpd/bgp_attr.c:842-911 | giving the first path reference back never frees the path of the attribute returned |
| InternRuns.AdvertiseGood | bgpd/bgp_advertise.c:128-139 | an advertisement takes over the reference that interning its attribute gave |
| InternRuns.UnadvertiseGood | bgpd/bgp_advertise.c:141-158 | ending an advertisement keeps conservation; the entry goes if and only if it was the last use, and an entry that stays keeps its attribute |
| InternRuns.RunGood | bgpd/bgp_attr.c:729-973 | reference conservation in every state of every run of interning, counting, giving back and advertising: each count is the number of references attributes, advertisements and callers hold, everything referred to is allocated, equal values share one object |
| InternRuns.PointersCompareValues | bgpd/bgp_attr.c:613-659 | on interned parts comparing pointers is comparing values |
| InternRuns.EqualAttrsShared | bgpd/bgp_attr.c:613-659 | in every such run two interned attributes are one object if and only if their fields and the values of their parts are equal |
| InternRuns.NothingLeaks | bgpd/bgp_attr.c:943-973 | once callers and advertisements have given everything back, the tables are empty |
| InternSend.SendStep | bgpd/bgp_attr.c:3187-3208 | sending an interned attribute keeps every count, and keeps sharing and the index if and only if it changes no path |
| InternSend.SendRunGoodIff | bgpd/bgp_updgrp_packet.c:730-736 | in every run that also sends attributes, conservation, sharing and the index hold in every state if and only if each sending was to a 4-byte peer, of a path without numbers above 65535, or of one without confederation segments |
| InternSend.FirstChangeConserved | bgpd/bgp_updgrp_packet.c:730-736 | the first sending that changes a path leaves every count right and the index wrong |
| InternSend.RewrittenFoundIff | bgpd/bgp_aspath.c:1835-1875 | interning the value that an object has now finds the object if and only if it had that value when it was entered |
| InternSend.SendingUnshares | bgpd/bgp_attr.c:3187-3208 | a run that interns an attribute and sends it to a 2-byte peer, after which the table has lost its path |
| HashTables.FindsByCompareIff | lib/hash.c:112-131 | every table finds exactly what its compare function calls equal to an entry if and only if equal data have equal keys |
| HashTables.GetMap | lib/hash.c:112-158 | in a table without equal entries a lookup means the one equal entry, or none and then entering an equal one keeps it so |
| HashTables.Hash.Expand | lib/hash.c:68-107 | doubling the index keeps every entry, on the chain its key selects |
| HashTables.Hash.TooLong | lib/hash.c:90-106 | when expanding is given up: a chain at the threshold, or more than half the entries beyond half of it |
| HashTables.LosersMean | lib/hash.c:92-101 | the losers of a chain are its entries behind the first five |
| HashTables.Hash.Search | lib/hash.c:124-131 | the walk along one chain finds an entry that matches if and only if the table holds one |
| HashTables.Hash.Get | lib/hash.c:112-158 | the one matching entry, else the allocated data entered, with or without an expansion; a map keyed by the compare function stays one |
| HashTables.Hash.Release | lib/hash.c:183-215 | the matching entry is unlinked and returned; in a map nothing equal is left |
| HashKeys.CachedPath.KeyMake | bgpd/bgp_aspath.c:2095-2107 | the key made of the text that is kept is the hash of the text of the segments |
| HashKeys.CachedPath.DeleteConfeds | bgpd/bgp_aspath.c:1835-1875 | the text stays that of the segments |
| HashKeys.CachedPath.AddToLeft | bgpd/bgp_aspath.c:1614-1645 | the text stays that of the segments |
| HashKeys.AsPathTable | bgpd/bgp_aspath.c:2095-2138 | for path objects whose text is that of their segments, the path table is a map keyed by the segments, whatever the hash function |
| HashKeys.KeysAgreeIff | bgpd/bgp_aspath.c:2095-2132 | two normal paths have equal keys under every hash function if and only if they are equal |
| HashKeys.StaleEntryIff | lib/hash.c:124-131 | the entry of a path changed in place is found only for the new path, and only if the hash takes both texts to one key |
| HashKeys.TextsTellApart | bgpd/bgp_aspath.c:2095-2107 | normal paths have the same text if and only if they are equal |
| HashKeys.EncapSame | bgpd/bgp_attr.c:285-327 | the nested loops compare the sets of sub-TLVs |
| HashKeys.AttrCmp | bgpd/bgp_attr.c:613-659 | the comparison, with its cases of missing extra attributes |
| HashKeys.SameIffErased | bgpd/bgp_attr.c:613-659 | attributes compare equal exactly when they differ in nothing but interface index, reference count, preference of the global next hop, mobility sequence number, and order of sub-TLVs |
| HashKeys.AttrTable | bgpd/bgp_attr.c:561-659 | the attribute comparison is an equivalence and equal attributes have equal keys, whatever the hash functions and the contents behind the pointers |
| Interner.InternTables.InternValue | bgpd/bgp_aspath.c:676-695 | find or allocate, then count |
| Interner.InternTables.Release | bgpd/bgp_aspath.c:355-373 | the pointer is nulled if and only if nothing else refers to the object |
| Interner.InternTables.Intern | bgpd/bgp_attr.c:729-786 | the in-place operation is `InternAttr` |
| Interner.InternTables.Count | bgpd/bgp_attr.c:793-817 | the in-place operation is `RefAttr` |
| Interner.InternTables.Unintern | bgpd/bgp_attr.c:915-973 | the in-place operation is `UninternAttr`; the pointer is nulled exactly when the attribute is gone |
| Interner.InternTables.Make | bgpd/bgp_attr.c:842-911 | the in-place operation is `MakeAttr`; the path pointer of the result is still valid |
| Interner.InternTables.Advertised | bgpd/bgp_advertise.c:128-139 | the in-place operation is `Advertise` |
| Interner.InternTables.Unadvertised | bgpd/bgp_advertise.c:141-158 | the in-place operation is `Unadvertise` |
| AttrTlv.FlagValidIff | bgpd/bgp_attr.c:1126-1204 | flags are right if and only if the Optional and Transitive bits are the required ones and Partial is set on optional transitive attributes only |
| AttrMeaning.RecordMeans | bgpd/bgp_attr.c:1020-1680 | every record of a modelled type, by number: which flags and values are right, what a right one leaves, and how a wrong one ends for each sort of peer |
| AttrSent.HeaderMeans | bgpd/bgp_attr.c:2281-2353 | flags, type, a length of one byte or two as the fourth flag bit says, and the value |
| AttrTlv.ParseConcat | bgpd/bgp_attr.c:2279-2473 | parsing the bytes of a list of records does the records one after the other |
| AttrTlv.AcceptedRecords | bgpd/bgp_attr.c:2279-2486 | accepted bytes are records to their very end |
| AttrTlv.FoldAccepts | bgpd/bgp_attr.c:2279-2473 | records are accepted if and only if no type repeats, none was seen before and none of them stops the parse |
| AttrTlv.FoldLeaves | bgpd/bgp_attr.c:2279-2473 | each record leaves its own value under its type and nothing else changes |
| AttrTlv.OrderIndependent | bgpd/bgp_attr.c:2279-2512 | the order of the records changes neither acceptance nor what they leave, unknown transitive attributes aside |
| AttrTransit.Transit.Store | bgpd/bgp_attr.c:2145-2203 | an unknown attribute is malformed if well known, ignored if not transitive, else appended with the Partial bit set |
| AttrTransit.UnknownTypes | bgpd/bgp_attr.c:2378-2441 | the types that are unknown, by number |
| AttrTransit.TransitOrderIff | bgpd/bgp_attr.c:2145-2203 | two orders of the same records leave the same bytes of unknown transitive attributes if and only if they have these in the same order |
| AttrTransit.TransitSwapped | bgpd/bgp_attr.c:2187-2200 | any two unknown transitive attributes the other way round leave other bytes |
| AttrCodec.ParseOrderIndependent | bgpd/bgp_attr.c:2256-2573 | nor the attribute that the whole parse gives |
| AttrCodec.ParseConsumesAll | bgpd/bgp_attr.c:2256-2573 | every accepted input is exactly the concatenation of records with pairwise different types |
| AttrMeaning.AttributeIff | bgpd/bgp_attr.c:2256-2573 | when a message gives an attribute, for peers of every sort: records of different types, none of which ends the parse, ORIGIN, AS_PATH and a next hop, LOCAL_PREF from internal peers only, and a path that suits the sort of the peer |
| AttrMeaning.AttributeGiven | bgpd/bgp_attr.c:2478-2573 | the attribute it gives: the path behind the local AS, the aggregator of the 4-byte helpers, nothing of LOCAL_PREF from an external peer, and else what the records leave |
| AttrSent.EncodingMeans | bgpd/bgp_attr.c:2855-3246 | the encoding is one record for each type there is something to send under, in ascending order, with the flags and the value of its type |
| AttrCodec.EncodeIsRecords | bgpd/bgp_attr.c:2855-3246 | while lengths fit their fields the encoder writes one record for each attribute sent |
| AttrRoundTrip.EncodingParsed | bgpd/bgp_attr.c:2855-3246 | the encoding is accepted if and only if no record stops the parse, and then leaves what was sent |
| AttrRoundTrip.AggregatorMunged | bgpd/bgp_attr.c:1546-1650 | AS4_AGGREGATOR never makes the receiver ignore AS4_PATH, and restores the aggregator |
| AttrCodec.AggregatorAlone | bgpd/bgp_attr.c:1624-1638 | an AS4_AGGREGATOR that comes alone is taken over unchanged if and only if its address is zero |
| AttrRoundTrip.PathMunged | bgpd/bgp_attr.c:1642-1648 | the reconciled path is the path that was sent if and only if that has no number above 65535, or its confederation segments come first and hold none |
| AttrRoundTrip.CodecRoundTrip | bgpd/bgp_attr.c:2855-3246 | for an internal IPv4-unicast peer, parsing the encoding gives the attribute back if and only if the origin is defined, the next hop is present and not martian, the communities are absent or a non-empty sorted set, and, for a 2-byte peer, the path has no number above 65535 or has its confederation segments in front and without such a number |
| AttrStream.ReadWord | bgpd/bgp_attr.c:1359-1458 | NEXT_HOP, MED and LOCAL_PREF have the effect of their record |
| AttrStream.ReadPath | bgpd/bgp_attr.c:1255-1276 | AS_PATH and AS4_PATH have the effect of their record |
| AttrStream.ReadAggregator | bgpd/bgp_attr.c:1484-1541 | AGGREGATOR and AS4_AGGREGATOR have the effect of their record |
| AttrStream.ReadCommunities | bgpd/bgp_attr.c:1652-1680 | COMMUNITIES leave the sorted set of their values |
| AttrStream.ReadValue | bgpd/bgp_attr.c:2378-2436 | the switch over the types has the effect of the record and consumes its value exactly |
| AttrStream.ReadHeader | bgpd/bgp_attr.c:2281-2353 | the header checks find the next record, or refuse it when the bytes are too few |
| AttrStream.ReadRecords | bgpd/bgp_attr.c:2279-2473 | the loop accepts exactly what the record-wise reading accepts and consumes every byte |
| AttrStream.MungeAs4 | bgpd/bgp_attr.c:1546-1650 | the 4-byte helpers are worked into path and aggregator as `Munge` says |
| AttrStream.ReadAttributes | bgpd/bgp_attr.c:2256-2573 | the whole parse, errors included |
| AttrStream.WriteAttributes | bgpd/bgp_attr.c:2855-3246 | the bytes written are the encoding; the attribute's own path is unchanged if and only if the peer is a 4-byte one, the path has no number above 65535, or it has no confederation segments |
| AttrStream.SendingChangesPath | bgpd/bgp_attr.c:3187-3205 | a concrete attribute whose path loses its confederation segment by being sent |
| FsmRuns.StepInv | bgpd/bgp_fsm.c:921-991 | every step but the clearing of a single address family keeps the invariant: one completion event is pending or owed exactly while the peer is in Clearing |
| FsmRuns.LeavingEstablished | bgpd/bgp_fsm.c:1826-1889 | handling one event leaves Established for a state other than Clearing if and only if it is the completion event |
| FsmMeaning.IdleMoves | bgpd/bgp_fsm.c:1668-1687 | Idle is left for Connect exactly by a start that gets a connection attempt under way |
| FsmMeaning.ConnectMoves | bgpd/bgp_fsm.c:1688-1704 | which events lead from Connect to OpenSent, Active and Idle |
| FsmMeaning.ActiveMoves | bgpd/bgp_fsm.c:1705-1721 | which events lead from Active to OpenSent, Connect and Idle |
| FsmMeaning.OpenSentMoves | bgpd/bgp_fsm.c:1722-1738 | which events lead from OpenSent to OpenConfirm, Active and Idle |
| FsmMeaning.OpenConfirmMoves | bgpd/bgp_fsm.c:1739-1755 | OpenConfirm is left for Established exactly by a KEEPALIVE, and stays on a start and the keepalive timer |
| FsmMeaning.EstablishedMoves | bgpd/bgp_fsm.c:1756-1772 | Established stays exactly on a start, the keepalive timer, KEEPALIVE and UPDATE, and goes to Idle exactly by the completion |
| FsmMeaning.ClearingMoves | bgpd/bgp_fsm.c:1773-1806 | Clearing ends exactly by the completion, Deleted never |
| FsmMeaning.EstablishedStays | bgpd/bgp_fsm.c:1756-1772 | a session that stays up is as it was, with its timers set |
| FsmMeaning.TimersAfter | bgpd/bgp_fsm.c:237-363 | which timers run after any event: the keepalive timer in OpenConfirm and Established exactly when the hold time is not zero |
| FsmMeaning.HoldtimeAfter | bgpd/bgp_fsm.c:995-1172 | the hold time goes back to the configured one exactly where the connection is dropped |
| FsmMeaning.StartTimerAfter | bgpd/bgp_fsm.c:1175-1620 | when the start timer is doubled up to 120 and when it goes back to 1 |
| FsmMeaning.PendingAfter | bgpd/bgp_fsm.c:1826-1889 | what is pending after any event |
| FsmMeaning.ClearsAfter | bgpd/bgp_fsm.c:921-979 | routes are cleared exactly on the way from Established to Clearing |
| FsmMeaning.RunStaysUp | bgpd/bgp_fsm.c:1756-1772 | in every run an established session stays up exactly on the ordinary messages, a start, the keepalive timer, and steps that handle no event |
| FsmMeaning.TimersMove | bgpd/bgp_fsm.c:366-470 | where the timers lead when they run out |
| FsmMeaning.TrackingPosts | bgpd/bgp_fsm.c:1625-1661 | what next-hop tracking posts |
| FsmMeaning.FreshMeans | bgpd/bgp_fsm.c:237-363 | a new peer waits in Idle for its start timer |
| FsmRuns.EstablishedExits | bgpd/bgp_fsm.c:1664-1889 | in every run, a step out of Established leads somewhere other than Clearing if and only if it runs a completion event; it then leads to Idle, clears no routes, and a single family was cleared earlier in the run |
| FsmRuns.StrayCompletion | bgpd/bgp_fsm.c:982-991 | in every run, a completion under way outside Clearing comes from an earlier clear of a single family |
| FsmRuns.EstablishedLeftIntoClearing | bgpd/bgp_fsm.c:1664-1889 | in particular, in every run in which no single address family is cleared on its own, Established is left only into Clearing, and all routes are cleared |
| FsmRuns.CompletionOnlyInClearing | bgpd/bgp_fsm.c:982-991 | in every such run a pending completion means the peer is in Clearing |
| FsmRuns.FamilyClearDropsSession | bgpd/bgp_packet.c:2050-2060 | the restriction is needed: clearing one family of any established session posts a completion that takes it straight to Idle |
| FsmRuns.FamilyClearRun | bgpd/bgp_packet.c:2050-2060 | a run from a fresh peer that does so: the session comes up, one family is cleared, and the session is in Idle with no routes cleared |
| FsmRuns.TimerSetArms | bgpd/bgp_fsm.c:237-363 | setting the timers arms every state but Clearing |
| FsmRuns.EventUpdateStirs | bgpd/bgp_fsm.c:1826-1889 | handling any event leaves a completion under way in Clearing, whatever was under way before |
| FsmRuns.NeverWedged | bgpd/bgp_fsm.c:237-363 | in every run of an active, non-passive, unsuppressed peer with nonzero hold time, every state has something armed to move it |
| FsmRuns.ZeroHoldtimeUnarmed | bgpd/bgp_fsm.c:285-350 | with a zero hold time nothing is armed in the states that rely on the hold timer |
| FsmRuns.ClearingEnds | bgpd/bgp_fsm.c:982-991 | once the completion is posted, handling the events up to it ends in Idle |
| Fsm.PeerObject.SetTimers | bgpd/bgp_fsm.c:237-363 | the timers after `bgp_timer_set`, state by state |
| Fsm.PeerObject.StopSession | bgpd/bgp_fsm.c:995-1172 | the modelled fields after `bgp_stop` |
| Fsm.PeerObject.SetStatus | bgpd/bgp_fsm.c:921-979 | the status change, with the clear queue and its completion |
| Fsm.PeerObject.StartSession | bgpd/bgp_fsm.c:1275-1380 | the start, with its refusals |
| Fsm.PeerObject.CallHandler | bgpd/bgp_fsm.c:1222-1620 | each handler of the table |
| Fsm.PeerObject.DispatchEvent | bgpd/bgp_fsm.c:1826-1889 | one event: table row, handler, status change, timers |
| Fsm.PeerObject.NexthopChanged | bgpd/bgp_fsm.c:1625-1661 | the next-hop tracking callback |
| UpdateDelay.StepCounted | bgpd/bgp_fsm.c:949-972 | one status change, of any peer, keeps the count exact |
| UpdateDelay.EstablishedCounts | bgpd/bgp_fsm.c:585-596 | for any interleaving of flaps over any number of peers, until the delay is over `established` is the number of peers in Established, and the delay timer runs whenever it is positive |
| UpdateDelay.ChangeMeans | bgpd/bgp_fsm.c:949-972 | one status change: when the delay ends and when its timer runs |
| UpdateDelay.OverIff | bgpd/bgp_fsm.c:585-596 | in every run the delay is over exactly from the first time on that its timers run out or the last peer waited for comes up |
| UpdateDelay.BgpInstance.EndDelay | bgpd/bgp_fsm.c:585-596 | the delay ends: the timers stop and the count is no longer kept |
| UpdateDelay.BgpInstance.ChangePeer | bgpd/bgp_fsm.c:949-972 | the in-place update of status and count |
| DampLists.PushFiled | bgpd/bgp_damp.c:66-78 | putting a record in front of a list keeps every list well formed and every record on exactly one |
| DampLists.CutFiled | bgpd/bgp_advertise.h:130-139 | unlinking a record from the list it is on does so too |
| DampSpec.WithdrawGood | bgpd/bgp_damp.c:178-259 | a withdrawal keeps each record on exactly the list its flag and index name, and moves no other record |
| DampSpec.UpdateGood | bgpd/bgp_damp.c:262-299 | so does an update, whether the record is kept, taken off the wheel or freed |
| DampSpec.ScanGood | bgpd/bgp_damp.c:303-348 | so does a scan |
| DampSpec.FreeGood | bgpd/bgp_damp.c:351-373 | freeing takes the record off its list and leaves every other record where it is |
| DampWheel.HarmlessWhole | bgpd/bgp_damp.c:130-172 | the timer walk leaves every list whole when the freed records end the slot and the misplaced unlinking touches nothing in use |
| DampWheelExact.WalkWholeIff | bgpd/bgp_damp.c:130-172 | it does so if and only if that is the case |
| DampTimer.RefileAllFold | bgpd/bgp_damp.c:130-172 | the walk over the records is the walk over the pointers, and flags and indexes say where the records were put |
| DampTimer.TimerPartitionIff | bgpd/bgp_damp.c:111-175 | the timer keeps the partition if and only if no record of the slot has decayed to half the reuse limit, or those that have are the last of the slot behind a record re-filed alone on its list, or the whole slot with no record outside the wheel |
| DampRuns.TimerRefiles | bgpd/bgp_damp.c:111-175 | while every record of the slot stays above half the reuse limit, each is re-filed once by its decayed penalty in front of its new list, and no other record or order changes |
| DampRuns.TimerLosesList | bgpd/bgp_damp.c:362-365 | when the whole slot is forgotten while a record is outside the wheel, the partition is broken |
| DampRuns.TimerLosesListExample | bgpd/bgp_damp.c:362-365 | a run of two withdrawals after which the timer breaks the partition |
| DampRuns.RunPartition | bgpd/bgp_damp.c:111-498 | the partition in every state of every run of withdrawals, updates, scans, cleanings and unbroken timer steps |
| DampRuns.DampedOnWheel | bgpd/bgp_damp.c:49-90 | in every such state a record is on the wheel's list at its index if its route is damped and on the other list if not |
| DampRuns.SuppressionChanges | bgpd/bgp_damp.c:111-348 | a route becomes suppressed only by its own withdrawal at the suppress value or more, and is released only below the reuse limit, after the maximum suppress time, or by cleaning (sections 4.8.2 and 4.8.7 of RFC 2439) |
| DampRuns.WithdrawDamped | bgpd/bgp_damp.c:178-259 | a withdrawal leaves the route suppressed if and only if it was so or its penalty reaches the suppress value; repeated penalties stay below the ceiling |
| DampPenalties.WithdrawRecord | bgpd/bgp_damp.c:178-259 | the whole record after a withdrawal: 1000, or 500 for a change of attributes, on top of the decayed penalty and below the ceiling; suppressed from the suppress value on; in the slot of its penalty |
| DampPenalties.UpdateRecord | bgpd/bgp_damp.c:262-299 | the whole record after an announcement, the status reported, and when it is forgotten |
| DampPenalties.ScanRecord | bgpd/bgp_damp.c:303-348 | the same for a scan, and when the route has to be announced |
| DampPenalties.TimerMeans | bgpd/bgp_damp.c:111-175 | the timer turns the wheel by one slot and re-files, releases or forgets each record of the slot by its decayed penalty |
| DampPenalties.EnoughWithdrawals | bgpd/bgp_damp.c:178-259 | in every run enough withdrawals in a row suppress the route, if penalties do not decay and the suppress value is within the ceiling |
| DampPenalties.FlapsCount | bgpd/bgp_damp.c:178-259 | from the start, so many withdrawals suppress the route if and only if 1000 times their number reaches the suppress value |
| Damping.DampTable.Withdrawal | bgpd/bgp_damp.c:178-259 | the in-place operation is `Withdraw` |
| Damping.DampTable.Announcement | bgpd/bgp_damp.c:262-299 | the in-place operation is `Update` |
| Damping.DampTable.ScanRoute | bgpd/bgp_damp.c:303-348 | the in-place operation is `Scan` |
| Damping.DampTable.FreeRecord | bgpd/bgp_damp.c:351-373 | the in-place operation is `Free` |
| Damping.DampTable.ReuseTimer | bgpd/bgp_damp.c:111-175 | the loop follows the detached chain and is `Timer`, whether or not records are freed on the way |
| Damping.DampTable.Clean | bgpd/bgp_damp.c:471-498 | every record is freed once and every list is empty |
| Communities.UniqSort | bgpd/bgp_community.c:169-194 | the result is the strictly increasing array of the set of values |
| ExtCommunities.ExtCommunity.AddVal | bgpd/bgp_ecommunity.c:62-99 | the scan inserts the value before the first larger one, or leaves the list alone where it meets the value |
| ExtCommunities.UniqSort | bgpd/bgp_ecommunity.c:104-122 | the loop adds the values one by one |
| ExtCommunities.AddedAllMeans | bgpd/bgp_ecommunity.c:62-122 | adding values one by one gives a sorted array of the set of them all |
| ExtCommunities.RisingUnique | bgpd/bgp_ecommunity.c:62-122 | which is the only one of that set |
| Communities.Match | bgpd/bgp_community.c:443-470 | the one-pass loop finds whether the second list occurs in order in the first; missing lists match only each other |
| Communities.WithinIff | bgpd/bgp_community.c:443-470 | the one-pass comparison finds the values of the second list in the first wherever they are in their order |
| Communities.WithinIsSubset | bgpd/bgp_community.c:443-470 | on sorted sets that is exactly inclusion |
| Communities.MatchNeedsOrder | bgpd/bgp_community.c:443-470 | on unsorted lists it is not: a concrete pair |
| Communities.Community.DelVal | bgpd/bgp_community.c:72-104 | the first occurrence is removed |
| Communities.Community.Delete | bgpd/bgp_community.c:107-120 | deleting a list from a sorted set is set difference and keeps it sorted |
| CommunityText.PrintFits | bgpd/bgp_community.c:241-271 | text and terminating zero fit the measured buffer, exactly so if and only if every value is well known or has two five-digit parts |
| CommunityText.SetString | bgpd/bgp_community.c:205-323 | the text is the printed set and is shorter than its buffer |
| CommunityText.NextShrinks | bgpd/bgp_community.c:515-623 | every token takes at least one character |
| CommunityText.CollectPrint | bgpd/bgp_community.c:626-667 | parsing printed text collects every value, and the last one twice |
| CommunityText.TextRoundTrip | bgpd/bgp_community.c:205-667 | the text of a list parses back to the list if and only if the list is a non-empty sorted set |
| CommunityText.GetToken | bgpd/bgp_community.c:515-623 | the scanning loops find the token of the text |
| CommunityText.ValTextMeans | bgpd/bgp_community.c:275-316 | the text of one value: the four names, else two numbers with a colon |
| CommunityText.PairMeans | bgpd/bgp_community.c:575-623 | two numbers with a colon are a value exactly when both are at most 65535 |
| CommunityText.NumberMeans | bgpd/bgp_community.c:575-623 | a number alone is a value up to 65535 |
| CommunityText.StrToCommunity | bgpd/bgp_community.c:626-667 | the loop is the reference parse, with the last token still set at the end of the text |
| CommunityText.ParseMeans | bgpd/bgp_community.c:626-667 | a text is read as the sorted set of all its values, and refused if it has none or holds anything else |
| ImportRt.MapAtListed | bgpd/bgp_evpn.c:233-261 | mapping adds exactly one pair of key and VNI |
| ImportRt.UnmapAtListed | bgpd/bgp_evpn.c:267-278 | unmapping takes exactly one pair away and leaves no empty list |
| ImportRt.Evpn.MapVni | bgpd/bgp_evpn.c:1956-1972 | after the loops the VNI is listed at exactly the keys its list yields, besides where it was |
| ImportRt.Evpn.UnmapVni | bgpd/bgp_evpn.c:1978-2006 | after the loops it is listed at none of them |
| ImportRt.Evpn.New | bgpd/bgp_evpn.c:2091-2126 | a new VNI is listed at the masked key of its automatic route target; an exact index stays exact |
| ImportRt.Evpn.Free | bgpd/bgp_evpn.c:2134-2146 | a freed VNI is listed nowhere; an exact index stays exact |
| ImportRt.Evpn.ConfigureImport | bgpd/bgp_evpn_ui.c:454-480 | configuring replaces the automatic route target; an exact index stays exact |
| ImportRt.Evpn.UnconfigureAll | bgpd/bgp_evpn_ui.c:485-537 | unconfiguring all returns to the automatic route target; an exact index stays exact |
| ImportRt.Evpn.UnconfigureOne | bgpd/bgp_evpn_ui.c:511-534 | removing one set: an exact index stays exact if and only if no set is left or the sets left hold no route target |
| ImportRt.RtDeleteAuto | bgpd/bgp_evpn_ui.c:406-432 | the last set that holds the automatic route target is unlinked |
| ImportKeys.AutomaticGoes | bgpd/bgp_evpn_ui.c:406-432 | of the sets that hold the automatic route target the last one goes |
| ImportKeys.GivenGoes | bgpd/bgp_evpn_ui.c:511-534 | of the sets that hold all of the given one the first one goes |
| ImportKeys.ConfiguredGoes | lib/linklist.c:86-125 | a configured set goes in front of the first one that compares larger |
| ImportKeys.AutomaticBytes | bgpd/bgp_ecommunity.h:79-91 | the bytes of the automatic route target: type, subtype, 16 bits of the AS number, and the VNI |
| ImportKeys.KeyBytes | bgpd/bgp_evpn.c:210-228 | which bytes a key keeps: all of a configured route target, and not the type and the global administrator of an automatic one |
| ImportKeys.AutomaticKeysAgree | bgpd/bgp_evpn.c:210-300 | routers of any AS numbers have the same automatic key exactly for the same VNI |
| ImportRt.ExactIff | bgpd/bgp_evpn.c:210-278 | the index lists exactly the VNIs that import a key if and only if no VNI left out of it yields one |
| ImportRt.LeftOutExact | bgpd/bgp_evpn_ui.c:529-534 | with one VNI left out, if and only if its list yields no key |
| ImportRt.RemovingOneLosesVni | bgpd/bgp_evpn_ui.c:529-534 | a run from the empty instance: a VNI with two sets configured loses one of them, and the index no longer lists it |

## Left out

Behaviour that is modelled only in part:

- AsPathWire.Put: the stream has room for every write; the early return of
  `aspath_put` on a full stream and the 16-bit wrap-around of segment lengths are
  not modelled.
- AsPathRoundTrip.HopsReadBack: states the hops read back, for paths within the wire
  limits only; `OverlongSegmentFails` covers segments longer than 510.
- As4Exact.As4TransparencyExact: for paths that stay within the wire limits with the
  prepended numbers.
- AttrRoundTrip.CodecRoundTrip: covers normal paths within the wire limits whose byte
  counts fit 16-bit length fields; route reflection, maximum MED, extended
  communities, MP_REACH and unknown transitive attributes are not encoded.
- AttrTlv.OrderIndependent: attribute types outside the model go through a
  parameter; the bytes of unknown transitive attributes do depend on the order,
  as `TransitOrderIff` says.
- AttrTransit.Transit.Store: types of the VNC extension are taken as unknown, as in
  a build without it.
- MultipathAggregate.AggregateMultipath: interning the result and keeping it with the
  best path is not part of it.
- Multipath.Paths.Update: paths are values with an identity and the links are a
  map keyed by it, so aliasing of heap objects is not captured; the multipath
  count is unbounded.
- Interner.InternTables.Intern: objects are identified by numbers handed out once;
  the hash tables are maps keyed by value, as `Hash.Get`, `Hash.Release` and
  `AttrTable` justify; allocation does not fail.
- InternSend.SendStep: the texts of a path with and without its confederation
  segments have different keys; with equal keys `StaleEntryIff` applies.
- HashTables.Hash.Expand: the size is any positive number and the chain is the key
  modulo it, which is the bit mask of the code for powers of two.
- FsmRuns.EstablishedLeftIntoClearing: for runs in which no single address family
  is cleared on its own; `EstablishedExits` is about every run, and
  `FamilyClearDropsSession` shows such a clear ending a session.
- FsmRuns.NeverWedged: for a configured, static, active, non-passive, unsuppressed
  peer with nonzero hold time and no graceful-restart wait.
- Fsm.PeerObject.CallHandler: sockets, packets and route processing are outcomes
  chosen by the environment; timers are armed or not, without durations.
- UpdateDelay.EstablishedCounts: the delay is configured from the start.
- DampSpec.WithdrawGood: decay and slot distance are arbitrary functions of time
  and penalty, so the floating-point tables are not modelled; penalties are
  unbounded.
- Damping.DampTable.ReuseTimer: a record is identified with its route and its
  links are a map, so use of freed memory cannot occur in the model.
- ImportRt.Evpn.New: the caller has found that the VNI does not exist yet.
- ImportRt.Evpn.ConfigureImport: installing and uninstalling routes is not part of
  the model.
- CommunityText.StrToCommunity: texts are sequences of characters without a zero
  inside.

Not modelled at all:

- `aspath_prepend`, `aspath_filter_exclude`, private-AS removal and replacement,
  left comparison, loop checks: the first reads a freed segment in one branch, the
  others add only easy members.
- Text and encoding of extended communities; their sets and their match are modelled.
- Adjacency lists (`bgp_adj_in_set`, `bgp_adj_in_unset`): easy list updates.
- Connection transfer between a peer and its doppelganger, dynamic neighbours,
  peer deletion, graceful restart, BFD.
- Best-path selection, `bgp_process`, update groups, zebra messages.
- vty commands, show and JSON output, logging, debug flags, memory accounting.
- Regular-expression community and AS-path lists, tunnel encapsulation sub-TLVs,
  labels, route distinguishers, MRT dump.
- Sockets, authentication, signals and process start-up.
