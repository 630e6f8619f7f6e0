# Verified model of the Octeon firewall

A Dafny model of the parts of the firewall where a mistake is hardest to see: the HyperSplit packet
classifier, the flow table shared by all cores, IPv4 fragment reassembly, the incremental command-line
parser, and the ownership of packet buffers between them. `dafny verify dfyconfig.toml` checks it all.

How it is laid out:

- **Classifier** (`Words`, `HyperSplit`, `HyperSplitBounds`, `SegmentPoints`, `HyperSplitBuild`). Rules and
  packets are big-endian 32-bit words; a specification over natural numbers says what a tree must be. The
  build is proved to terminate and to produce such a tree, and every such tree is proved to answer as a
  scan of all rules does. Assumed, as the code needs it: lower bound at most upper bound in every
  dimension, and rule priority equal to its position at the root.
- **Flow table** (`FlowHash`, `FlowTable`, `FlowInvariant`, `FlowSteps`, `FlowRuns`, `FlowAgeing`). A state machine
  with one shared-memory access per step and any number of cores: packet handling, packet destruction and the
  ageing callback, with spinlocks, try-locks and a use count. Whatever interleaving is chosen, the invariant
  holds; and ageing takes only flows unused for longer than the timeout, and, undisturbed, all of them.
- **Reassembly** (`Checksum`, `Defrag`, `DefragRuns`, `FragmentBlock`). One block's bookkeeping as written,
  including the search that compares a stored fragment's *length* with the new offset and the totals that
  are updated before the overlap check and never rolled back.
- **Command line** (`CliGrammar`, `CliParse`, `CliFsm`, `CliLine`, `CliEditor`). A reference parse of a text, the
  incremental parser proved equal to it after every keystroke, the line buffer, and the editor that keeps
  the two in step.
- **Buffers** (`Transmit`, `MemPool`, `DataPath`), **prefix ranges** (`IpRange`) and the **rule list**
  (`RuleStore`). `Common` holds what several modules share.

Places where the code does less than it appears to promise, each with a proved counterexample and the exact
condition, for all inputs, under which it does meet the promise:

- `LookupHSTree` turns left on equality, so it answers for another packet: `AtMostLookupCanBeWrong`, and for
  every packet `AtMostLookupIsRightIff`; the turns agree exactly as `WalksAgreeIff` says.
- The 16-bit rule count of a leaf can wrap: `RuleCounterWraps`, and for every rule set `NarrowFieldsExactIff`.
- A fragment that overlaps nothing can be rejected: `DisjointFragmentCanBeRejected`, `AcceptedIff`.
- A rejected fragment can change the block: `RejectedFragmentCanChangeBlock`, `RejectionLeavesBlockIff`.
- The command parser's token-stack assertion can fail: `DeepChainOverflows`; `Fsm.Input` says on which texts
  exactly, and neither a high tree alone does it (`MuteTreesAreShallow`) nor a low one ever (`LowTreesAreShallow`).
- A line of 383 characters puts the parser out of step with the line (`LongLineLosesStep`; exact per key in
  `Editor.Press`), after which the key for the beginning of the line fails an assertion (`LongLineHome`; exact
  in `Editor.MoveFirst`).
- Unchecked indices: a prefix length above 32 (`ReadIPRange`), a rule id past the array (`DelById`) and port 4
  (`TxProcess`) leave the array bounds exactly when those contracts say.

## Model

| member | source | states |
|---|---|---|
| `Words.Compare` | dataplane/src/acl/acl.c:318-338 | the word-by-word comparison is the order of the numbers the words stand for |
| `Words.Subtract` | dataplane/src/acl/acl.c:791-803 | in place, exactly minus one on the whole number, for every nonzero value |
| `Words.Add` | dataplane/src/acl/acl.c:812-823 | in place, exactly plus one, returning 0 only on wrap-around |
| `Words.AssignDiffBits` | dataplane/src/acl/acl.c:488-508 | widening a key to the wide buffer keeps its value |
| `Words.LeadingWordsAreZero` | dataplane/src/acl/acl.c:2132-2137 | a value that fits the narrow width loses nothing when the high words are dropped |
| `Words.LowWordsSplit` | dataplane/src/acl/acl.c:2320-2321 | the low words are the remainder of the whole number |
| `HyperSplit.LeftKeepsMatches` | dataplane/src/acl/acl.c:2149-2205 | clipping to the left half keeps exactly the rules a packet of that half matches, in order |
| `HyperSplit.RightKeepsMatches` | dataplane/src/acl/acl.c:2206-2264 | the same for the right half |
| `HyperSplit.DescentKeepsMatches` | dataplane/src/acl/acl.c:2415-2435 | along the whole walk the matching rules of the packet never change |
| `HyperSplit.LeafRulesShareOneBox` | dataplane/src/acl/acl.c:2085-2125 | all rules of a leaf have the same box |
| `HyperSplit.LookupAgreesWithScan` | dataplane/src/acl/acl.c:2282-2472 | for every packet the leaf lists exactly the matching rules if the packet is in the leaf's box, and no rule matches it otherwise |
| `HyperSplit.MatchedPrisAscend` | dataplane/src/acl/acl.c:2282-2305 | the scan lists all matching rules, only those, in ascending priority |
| `HyperSplit.FirstEntryIsFirstMatch` | dataplane/src/acl/acl.c:2400-2472 | the first entry of the leaf is the lowest-numbered rule that matches |
| `HyperSplit.CutSeparates` | dataplane/src/acl/acl.c:1978-2064 | with at least 3 points the median cut leaves a rule starting below it and a rule ending at or above it |
| `HyperSplit.ChildrenKeepARule` | dataplane/src/acl/acl.c:2149-2255 | neither child of a split is empty |
| `HyperSplit.NoEmptyLeaf` | dataplane/src/acl/acl.c:2085-2125 | no leaf of a tree for a nonempty rule set is empty |
| `HyperSplitBounds.SplitHalves` | dataplane/src/acl/acl.c:1978-2064 | each child has at most half of the splittable points in the split dimension |
| `HyperSplitBounds.OtherDimensionsShrink` | dataplane/src/acl/acl.c:2149-2264 | no other dimension gains points in a child |
| `HyperSplitBounds.ChildPotential` | dataplane/src/acl/acl.c:1729-2267 | the sum over dimensions of halvings left falls strictly at every split: the termination measure |
| `HyperSplitBounds.HeightWithinPotential` | dataplane/src/acl/acl.c:1729-2267 | a tree is at most as high as its rules' measure |
| `HyperSplitBounds.DepthAtMost198` | dataplane/src/acl/hs.h:52-57 | at most 100000 rules in 11 dimensions give a tree at most 198 high |
| `HyperSplitBounds.NarrowFieldsExactIff` | dataplane/src/acl/hs.h:207-217 | for every rule set within the limit, all stored 8-bit depths and 16-bit counts are exact if and only if no packet matches 65536 rules |
| `HyperSplitBounds.NarrowFieldsNeverTruncate` | dataplane/src/acl/hs.h:207-217 | in particular below 65536 rules |
| `HyperSplitBounds.RuleCounterWraps` | dataplane/src/acl/acl.c:2085-2095 | the failing input: 65536 copies of one box give a leaf with a full list and a stored count of 0, its corner matching them all |
| `HyperSplitBounds.MedianCutUnique` | dataplane/src/acl/acl.c:1978-2064 | a rule set and dimension have only one median cut |
| `HyperSplitBounds.TreeIsUnique` | dataplane/src/acl/acl.c:1729-2267 | any two trees the specification admits are the same |
| `HyperSplitBounds.AtMostClassifiesPredecessor` | dataplane/src/acl/acl.c:2336-2388 | turning left on equality reaches the leaf of the packet one lower in every nonzero field |
| `HyperSplitBounds.LeafListsItsCorner` | dataplane/src/acl/acl.c:2085-2125 | every leaf lists exactly the rules that the low corner of its box matches |
| `HyperSplitBounds.AtMostLookupIsRightIff` | dataplane/src/acl/acl.c:2367 | for every packet that answer is right if and only if the packet matches the same rules as the low corner of the box its predecessor falls into |
| `HyperSplitBounds.WalksAgreeIff` | dataplane/src/acl/acl.c:2336-2472 | the two walks take the same turns exactly when no threshold on the way equals the packet's field |
| `HyperSplitBounds.AtMostLookupCanBeWrong` | dataplane/src/acl/acl.c:2367 | a tree and packet for which it reports a rule that does not match and misses the one that does, the condition failing there |
| `SegmentPoints.MergePoint` | dataplane/src/acl/acl.c:1847-1892 | one scan step: a new value is appended with its flag, a known one gets both flags, values stay distinct |
| `SegmentPoints.SegPointParity` | dataplane/src/acl/acl.c:1832-1837 | point number num is rule num/2's start or end and carries the flag (num & 1) + 1 |
| `SegmentPoints.FieldKeyHoldsField` | dataplane/src/acl/acl.c:2320-2321 | the words a lookup reads hold the packet's four-word number cut to the dimension's width, the number itself if it fits |
| `SegmentPoints.CountSegmentPoints` | dataplane/src/acl/acl.c:1832-1893 | the two counters are the number of distinct values and of distinct starts plus distinct ends |
| `SegmentPoints.AssignPoints` | dataplane/src/acl/acl.c:613-782 | the second scan produces the same points and fills exactly the slots allocated |
| `SegmentPoints.SortSummarises` | dataplane/src/acl/acl.c:1943-1950 | sorting keeps the points and their flags |
| `SegmentPoints.WeightCounts` | dataplane/src/acl/acl.c:1978-1999 | the walk's counter is the number of starts and ends below a point |
| `SegmentPoints.MedianWalk` | dataplane/src/acl/acl.c:1986-1996 | the walk stops at the event that splits the points in half, without running off the array |
| `HyperSplitBuild.ChooseDimension` | dataplane/src/acl/acl.c:1816-1913 | the first dimension with the largest count, and its two counts |
| `HyperSplitBuild.ChooseCut` | dataplane/src/acl/acl.c:1920-2064 | two adjacent nonempty ranges covering every rule, the threshold being the first value of the right one and a median cut |
| `HyperSplitBuild.CutAround` | dataplane/src/acl/acl.c:2037-2064 | minus one and plus one on the 128-bit buffer never wrap and fit the dimension's width |
| `HyperSplitBuild.SelectRules` | dataplane/src/acl/acl.c:2149-2264 | the rules selected for a child, trimmed, are exactly the overlapping ones in order |
| `HyperSplitBuild.LeftChild` | dataplane/src/acl/acl.c:2149-2205 | the left rule list on words stands for the specification's left rules |
| `HyperSplitBuild.RightChild` | dataplane/src/acl/acl.c:2206-2264 | the right rule list on words stands for the specification's right rules |
| `HyperSplitBuild.BuildHSTree` | dataplane/src/acl/acl.c:1729-2267 | terminates on every rule set and returns a tree the specification admits |
| `HyperSplitBuild.Matched` | dataplane/src/acl/acl.c:2315-2326 | true exactly when every field, the packet's number cut to the dimension's width, lies within the rule's bounds |
| `HyperSplitBuild.LinearSearch` | dataplane/src/acl/acl.c:2282-2305 | the listed rules that match, in list order, and failure exactly when there are none |
| `HyperSplitBuild.FullScanIsReference` | dataplane/src/acl/acl.c:2282-2305 | over the whole rule list that is the reference scan |
| `HyperSplitBuild.LookupPacket` | dataplane/src/acl/acl.c:2400-2472 | the loop reaches the leaf the specification's descent reaches |
| `HyperSplitBuild.LookupHSTree` | dataplane/src/acl/acl.c:2336-2388 | the loop reaches, in any tree the build makes, the leaf of the packet one lower in every nonzero field |
| `HyperSplitBuild.LookupAgainstScan` | dataplane/src/acl/acl.c:1729-2472 | build, look up and scan end to end: leaf and scan are equal exactly when some rule matches |
| `IpRange.ReadIPRange` | dataplane/src/acl/acl.c:2568-2629 | the interval holds exactly the addresses that share the prefix; an octet index leaves the array exactly for lengths above 32 |
| `FlowHash.HashIsSymmetric` | dataplane/src/flow/tluhash.h:7-35 | both directions of a conversation hash to one bucket |
| `FlowHash.FlowHashIndex` | dataplane/src/flow/flow.c:75-78 | the index computed for a packet is that of every flow the packet matches, in either direction |
| `FlowHash.KnownHashes` | dataplane/src/flow/tluhash.h:7-35 | the hash values and the bucket of one given conversation |
| `FlowHash.MatchIsBidirectional` | dataplane/src/flow/flow.c:80-93 | a match is exactly the same tuple or its reverse, and matching keys share a bucket |
| `FlowHash.MatchIsEquivalence` | dataplane/src/flow/flow.c:80-93 | matching is reflexive, symmetric and transitive |
| `FlowInvariant.OneItemPerConversation` | dataplane/src/flow/flow.c:95-167 | two listed flows matching the same key are one flow |
| `FlowInvariant.MissMeansUnattached` | dataplane/src/flow/flow.c:177-207 | a packet whose bucket holds no match is attached to no flow |
| `FlowInvariant.MovesAreDefined` | dataplane/src/flow/flow.c:121-324 | in every state satisfying the invariant, every pointer the next access follows is valid |
| `FlowInvariant.RelyKeepsPc` | dataplane/src/flow/flow.c:121-324 | what a core relies on at its point survives any step of another core that leaves its locks, items and packet alone |
| `FlowSteps.LockBucketKeeps` | dataplane/src/flow/flow.c:177-197 | taking the bucket lock keeps the invariant |
| `FlowSteps.ScanHitKeeps` | dataplane/src/flow/flow.c:95-113 | finding and stamping a match under the bucket lock keeps it |
| `FlowSteps.InsertKeeps` | dataplane/src/flow/flow.c:142-154 | the second check makes insertion at the list head keep one flow per conversation |
| `FlowSteps.DiscardKeeps` | dataplane/src/flow/flow.c:155-166 | the loser of an insertion race frees only its own item |
| `FlowSteps.ReferenceKeeps` | dataplane/src/flow/flow.h:131-139 | raising the count before storing the pointer keeps the count exact |
| `FlowSteps.DestroyKeeps` | dataplane/src/common/mbuf.c:16-57 | dropping a packet's reference keeps the count exact, even against a concurrent ageing test |
| `FlowSteps.UnlinkKeeps` | dataplane/src/flow/flow.c:287-299 | the ageing loop unlinks only a locked flow nobody references |
| `FlowSteps.AgeFreeKeeps` | dataplane/src/flow/flow.c:310-318 | freeing the private timeout list keeps the invariant |
| `FlowSteps.StepKeeps` | dataplane/src/flow/flow.c:121-324 | every step of every core, from every state satisfying the invariant, keeps it |
| `FlowRuns.RunKeeps` | dataplane/src/flow/flow.c:121-324 | the invariant holds in every state of every run |
| `FlowRuns.FreedIsUnused` | dataplane/src/flow/flow.c:263-324 | a flow is freed only when unlisted, with no live packet pointing at it, no core using it and no other core holding its lock |
| `FlowRuns.RunFreesOnlyUnused` | dataplane/src/flow/flow.c:247-324 | the same for every step of every run, with use_cnt 0 |
| `FlowRuns.UseCountIsExact` | dataplane/src/flow/flow.h:109-146 | use_cnt is the number of live packets pointing at the flow, plus cores between count and store |
| `FlowRuns.NothingDangles` | dataplane/src/flow/flow.c:211-244 | every live packet's flow and every looked-up flow is allocated, listed and of the packet's conversation |
| `FlowRuns.EveryFlowInOnePlace` | dataplane/src/flow/flow.c:121-324 | an allocated flow is in its bucket's list or private to exactly one core: none leaks |
| `FlowRuns.OneFlowPerConversation` | dataplane/src/flow/flow.c:68-167 | at most one listed flow per conversation, in the bucket of either direction's hash and no other |
| `FlowRuns.DirectionsResolveAlike` | dataplane/src/flow/flow.c:177-244 | packets of both directions resolve to one flow, however many cores raced to add it |
| `FlowRuns.SomeCoreMoves` | dataplane/src/flow/flow.c:121-324 | whenever a core is busy some core can take a step: no deadlock |
| `FlowAgeing.StampIsLastUse` | dataplane/src/flow/flow.c:95-141 | in every run a flow's stamp is the clock of its last lookup hit or its creation |
| `FlowAgeing.PassHasStart` | dataplane/src/flow/flow.c:263-281 | the clock an ageing core compares with is the one read when its pass started |
| `FlowAgeing.VisitUnlinksIff` | dataplane/src/flow/flow.c:247-299 | a locked flow with count 0 is unlinked if and only if its stamp plus the timeout lies before the pass's clock, and no other flow is |
| `FlowAgeing.TestDecides` | dataplane/src/flow/flow.c:247-252 | a flow in use is kept, one with count 0 goes on to the time test |
| `FlowAgeing.UnlistedIsOverdue` | dataplane/src/flow/flow.c:263-324 | no step of any core takes a flow off its list but an ageing visit that finds it overdue |
| `FlowAgeing.RunAgesOnlyOverdue` | dataplane/src/flow/flow.c:247-324 | over runs: a flow taken was last used more than the timeout before the pass that takes it started |
| `FlowAgeing.PassTakesAllOverdue` | dataplane/src/flow/flow.c:283-321 | a pass no other core disturbs leaves no overdue flow listed |
| `FlowAgeing.PassCompletes` | dataplane/src/flow/flow.c:283-321 | a pass left to itself comes to its end |
| `FlowAgeing.HandledPacketIsAttached` | dataplane/src/flow/flow.c:211-244 | a packet leaves its core attached to a flow of its conversation, or destroyed if none could be allocated |
| `Checksum.OptionWordsAreSum` | dataplane/src/decode/decode-ipv4.h:126-161 | each unrolled branch is the plain sum of its option words |
| `Checksum.TwoFoldsSuffice` | dataplane/src/decode/decode-ipv4.h:119-167 | the accumulator stays within 32 bits and two folds equal the full one's-complement sum |
| `Checksum.ChecksumVerifiesIff` | dataplane/src/decode/decode-ipv4.h:119-167 | a header sums to 0xFFFF exactly when its field is the computed checksum, up to the two zeros (RFC 1071) |
| `Checksum.StoredChecksumVerifies` | dataplane/src/decode/decode-ipv4.h:119-167 | storing the result makes the header sum to 0xFFFF |
| `Defrag.StepKeepsValid` | dataplane/src/decode/decode-defrag.c:240-341 | fragments stay sorted, disjoint and within the total, meat is their sum, the total only grows and is frozen once the last fragment is seen |
| `Defrag.FullMeansTiled` | dataplane/src/decode/decode-defrag.c:319-329 | sorted disjoint fragments whose lengths fill the datagram leave no gap |
| `Defrag.FullBlockRejects` | dataplane/src/decode/decode-defrag.c:298-308 | a full block accepts nothing |
| `Defrag.SpentStaysSpent` | dataplane/src/decode/decode-defrag.c:225-227 | after an attempt or a completion no later fragment can bring the counters level again |
| `Defrag.FixedHeaderVerifies` | dataplane/src/decode/decode-defrag.c:221-223 | the rewritten header has the new length high byte first, no fragment bits, its other fields, and a verifying checksum |
| `Defrag.PacketIsTheDatagram` | dataplane/src/decode/decode-defrag.c:139-235 | a returned packet has exactly the size requested and every fragment's bytes at its own offset |
| `DefragRuns.BlockAfter` | dataplane/src/decode/decode-defrag.c:240-341 | the invariant holds after any sequence of fragments from a fresh block |
| `DefragRuns.AtMostOneAttempt` | dataplane/src/decode/decode-defrag.c:319-329 | a block attempts reassembly at most once in its life |
| `DefragRuns.BuffersAreConserved` | dataplane/src/decode/decode-defrag.c:240-341 | every fragment received is stored once or destroyed once |
| `DefragRuns.AcceptedIff` | dataplane/src/decode/decode-defrag.c:255-319 | for every block and fragment: stored and counted exactly when the length checks let it pass, it overlaps nothing, and it lies past the tail or the search by length stops where a search by offset would; otherwise destroyed |
| `DefragRuns.LengthRefusedIff` | dataplane/src/decode/decode-defrag.c:255-271 | refused on length exactly when the last was seen and it is final or ends past the total, or it is final and ends short of the total |
| `DefragRuns.DisjointFragmentCanBeRejected` | dataplane/src/decode/decode-defrag.c:284-290 | fragments (0,8), (16,4), (8,8) in that order: the third overlaps nothing and is rejected |
| `DefragRuns.RejectionLeavesBlockIff` | dataplane/src/decode/decode-defrag.c:255-271 | a rejected fragment leaves the block unchanged exactly when the last fragment was seen before, or it ends short of the total, or at the total without being the last |
| `DefragRuns.RejectedFragmentCanChangeBlock` | dataplane/src/decode/decode-defrag.c:255-308 | after (0,8) the final fragment (0,12) is rejected for overlap, yet total becomes 12 and the last mark is set |
| `DefragRuns.InOrderRoundTrip` | dataplane/src/decode/decode-defrag.c:191-335 | in-order delivery: every fragment accepted, only the last returns a packet, and its payload is the original one |
| `DefragRuns.HeadLateRoundTrip` | dataplane/src/decode/decode-defrag.c:191-335 | the same datagram comes out when its first fragment arrives after any number of the others, all accepted: swapped first two, first one last, and in between |
| `FragmentBlock.CopyFragments` | dataplane/src/decode/decode-defrag.c:210-218 | the copy loop stays inside the buffer, fills all of it, and leaves header and payloads in order |
| `FragmentBlock.RewriteHeader` | dataplane/src/decode/decode-defrag.c:221-223 | the header writes touch only the header |
| `FragmentBlock.Fcb.Reassemble` | dataplane/src/decode/decode-defrag.c:191-235 | on the mutable block: the specified packet and new state, or failure with the list kept |
| `FragmentBlock.Fcb.Process` | dataplane/src/decode/decode-defrag.c:240-341 | the in-place updates are the specified step and keep the invariant |
| `FragmentBlock.Fcb.FindSlot` | dataplane/src/decode/decode-defrag.c:278-290 | the loop finds the specified insertion point |
| `FragmentBlock.Fcb.FreeFrags` | dataplane/src/decode/decode-defrag.c:124-137 | every stored fragment released once, in order |
| `CliGrammar.CparserMatch` | mgrplane/src/client/cparser_fsm.c:45-93 | number of matching children, the chosen one, and completeness |
| `CliGrammar.Choice` | mgrplane/src/client/cparser_fsm.c:64-80 | the choice is the first complete match, or the first match if none is complete |
| `CliGrammar.ChoiceIsUnique` | mgrplane/src/client/cparser_fsm.c:64-80 | only one child can be that choice |
| `CliGrammar.CompleteIff` | mgrplane/src/client/cparser_fsm.c:64-92 | a token is complete exactly when some child matches it completely or one keyword alone matches it |
| `CliGrammar.KeywordAnswers` | mgrplane/src/client/cparser_token.c:79-104 | a keyword matches exactly its beginnings, completely the whole word, hidden ones only in privileged mode |
| `CliParse.ParsesIff` | mgrplane/src/client/cparser_fsm.c:182-340 | a text parses without error exactly when the words between its spaces name a path down the command tree; the parse then holds those words and that node |
| `CliParse.AmbiguousWordIsError` | mgrplane/src/client/cparser_fsm.c:271-302 | a space after a word that two children match, none completely, is an error |
| `CliParse.TokensAreTheText` | mgrplane/src/client/cparser_fsm.c:204-340 | every token's text is the text of the line where the token stands |
| `CliParse.TokensWithinHeight` | mgrplane/src/client/cparser_fsm.c:289-295 | no text closes more tokens than the tree is high |
| `CliParse.ChainClosesItsHeight` | mgrplane/src/client/cparser_fsm.c:289-302 | a chain of any number of keywords has a text that closes that many tokens |
| `CliParse.ChainHeight` | mgrplane/src/client/cparser_fsm.c:289-302 | that chain is exactly that high |
| `CliFsm.DeepChainOverflows` | mgrplane/src/client/cparser_fsm.c:291 | the failing input: on a chain of 32 keywords a 64-character text overflows the token stack |
| `CliFsm.LowTreesAreShallow` | mgrplane/src/client/cparser_fsm.c:291 | on a tree lower than 32 no text does |
| `CliFsm.MuteTreesAreShallow` | mgrplane/src/client/cparser_fsm.c:291 | nor on a tree of any height whose parameters match nothing |
| `CliFsm.Fsm.Reset` | mgrplane/src/client/cparser_fsm.c:511-519 | the state of the empty text |
| `CliFsm.Fsm.WsErase` | mgrplane/src/client/cparser_fsm.c:137-167 | undoes the last character, reopening the token whose space is erased |
| `CliFsm.Fsm.WsChar` | mgrplane/src/client/cparser_fsm.c:204-224 | opens a token exactly when the reference parse does |
| `CliFsm.Fsm.TokErase` | mgrplane/src/client/cparser_fsm.c:240-255 | undoes the last character of the open token |
| `CliFsm.Fsm.TokSpace` | mgrplane/src/client/cparser_fsm.c:271-302 | closes a complete token as the reference parse does; the stack assertion holds if and only if the parse closes fewer than 32 tokens |
| `CliFsm.Fsm.TokChar` | mgrplane/src/client/cparser_fsm.c:317-340 | extends the token or takes the character back |
| `CliFsm.Fsm.ErrErase` | mgrplane/src/client/cparser_fsm.c:352-370 | leaves the error state exactly when the text parses again |
| `CliFsm.Fsm.Input` | mgrplane/src/client/cparser_fsm.c:420-464 | after any input the state is that of a fresh parse, an erase undoing one character from every state; an assertion fails if and only if there is nothing to erase or a space would close a 32nd token |
| `CliLine.Line.Insert` | mgrplane/src/client/cparser_line.c:56-93 | shifting in place inserts at the cursor, or changes nothing on a full line or NUL |
| `CliLine.Line.Delete` | mgrplane/src/client/cparser_line.c:95-127 | shifting in place removes the character before the cursor |
| `CliLine.InsertEraseInverse` | mgrplane/src/client/cparser_line.c:56-127 | insert and erase undo each other |
| `CliLine.Line.NextChar` | mgrplane/src/client/cparser_line.c:184-202 | the character passed over, NUL only at the end |
| `CliLine.Line.PrevChar` | mgrplane/src/client/cparser_line.c:204-220 | a backspace, NUL only at the beginning |
| `CliEditor.Editor.Type` | mgrplane/src/client/cparser.c:516-544 | the text changes as specified; step is kept exactly when line and parser both take or both refuse the character |
| `CliEditor.Editor.Erase` | mgrplane/src/client/cparser.c:527-532 | always keeps step |
| `CliEditor.Editor.MoveLeft` | mgrplane/src/client/cparser.c:573-581 | always keeps step |
| `CliEditor.Editor.MoveRight` | mgrplane/src/client/cparser.c:582-590 | keeps step exactly at the end of the line or below position 382 |
| `CliEditor.Editor.MoveFirst` | mgrplane/src/client/cparser.c:591-600 | undoes every character and keeps step; the parser's assertion fails if and only if the cursor stood past position 382 |
| `CliEditor.Editor.MoveLast` | mgrplane/src/client/cparser.c:601-610 | keeps step exactly on lines of at most 382 characters |
| `CliEditor.Editor.PreviousLine` | mgrplane/src/client/cparser.c:545-558 | replays the recalled line; in step exactly when its cursor is at most 382 |
| `CliEditor.Editor.NextLine` | mgrplane/src/client/cparser.c:559-572 | the same for the next line |
| `CliEditor.Editor.Press` | mgrplane/src/client/cparser.c:516-634 | for every editing key: the new text, and an exact condition for the parser to equal a fresh parse of the text before the cursor |
| `CliEditor.Editor.PressAll` | mgrplane/src/client/cparser.c:516-634 | after any sequence of such keys the parser equals a fresh parse of the text before the cursor |
| `CliEditor.ShortRunsKeepStep` | mgrplane/src/client/cparser.c:516-634 | runs on lines of at most 382 characters meet that condition |
| `CliEditor.HistoryKeys` | mgrplane/src/client/cparser_line.c:222-272 | Up shows the line before, from the first the last, Down is its inverse, and neither changes a line |
| `CliEditor.CursorKeys` | mgrplane/src/client/cparser_line.c:184-220 | Left and Right are inverse within the line, First and Last reach its ends, and none changes the text |
| `CliEditor.LongLineLosesStep` | mgrplane/src/client/cparser_fsm.c:442-445 | 382 letters keep step, the 383rd loses it |
| `CliEditor.LongLineHome` | mgrplane/src/client/cparser_fsm.c:434-440 | the failing input: 383 letters and the key for the beginning of the line fail the assertion that there is something to erase |
| `Transmit.Ring.Add` | dataplane/src/platform/oct-rxtx.c:130-148 | appends to the pending queue, overwriting no pending slot |
| `Transmit.Ring.Remove` | dataplane/src/platform/oct-rxtx.c:151-158 | takes back the newest descriptor |
| `Transmit.Ring.Drain` | dataplane/src/platform/oct-rxtx.c:102-122 | frees exactly the leading descriptors already sent, oldest first |
| `Transmit.Sender.Send` | dataplane/src/platform/oct-rxtx.c:198-247 | queued, or destroyed once with every queue as before; the global count stays the sum over ports |
| `Transmit.Sender.DoneCheck` | dataplane/src/platform/oct-rxtx.c:92-126 | every port keeps its queue from the first unsent descriptor on, what lay before is destroyed port after port, the global count still the sum |
| `Transmit.FirstInFirstOut` | dataplane/src/platform/oct-rxtx.c:92-247 | over every run buffers leave the ring in the order they entered, none twice, at most 63 pending |
| `Transmit.Sender.RunEvents` | dataplane/src/platform/oct-rxtx.c:92-247 | sends, completions and checks run on the rings themselves leave the queue and free the buffers of that run |
| `MemPool.Inject` | dataplane/src/platform/mem_pool.c:113-142 | refuses a slice count that four chains cannot share, else every slice free in its chain, the addresses assigned inside the pool and not overlapping |
| `MemPool.InjectChain` | dataplane/src/platform/mem_pool.c:129-137 | the running address places each slice behind the one before |
| `MemPool.Pool.Alloc` | dataplane/src/platform/mem_pool.c:14-58 | the head of the selected chain, never a slice already handed out; failure exactly when the size is too big or that chain is empty |
| `MemPool.Pool.Free` | dataplane/src/platform/mem_pool.c:60-104 | back to its home chain; a second free changes nothing |
| `MemPool.AllocAll` | dataplane/src/platform/mem_pool.c:30-51 | from a fresh pool any number of allocations up to its size all succeed, the counter taking the chains in turn |
| `MemPool.SlicesAreConserved` | dataplane/src/platform/mem_pool.c:14-104 | slices handed out and the four chains' lengths add up to the pool |
| `MemPool.BuffersDoNotOverlap` | dataplane/src/platform/mem_pool.c:14-58 | two buffers handed out share no byte |
| `DataPath.Plane.TxProcess` | dataplane/src/platform/oct-rxtx.c:161-256 | an accepted hardware buffer belongs to the hardware, an accepted software buffer waits last in its ring, a refused one, a full ring or a bad port destroys it; the rings are overrun exactly for a software buffer on port 4 |
| `DataPath.Plane.FlowHandlePacket` | dataplane/src/flow/flow.c:211-244 | offered to its port if it has a flow, else destroyed |
| `DataPath.Plane.Reassembly` | dataplane/src/decode/decode-defrag.c:350-410 | without a block or a software copy the fragment is destroyed; otherwise its key's block, and no other, takes the specified step; every buffer stays in one place |
| `DataPath.Plane.DecodeIPV4` | dataplane/src/decode/decode-ipv4.c:63-146 | a drop leaves the buffer to the caller, any other outcome disposes of it once |
| `DataPath.Plane.Decode` | dataplane/src/decode/decode.c:22-39 | every buffer handed in is in exactly one more place afterwards, and which: good packets are offered to their port, all others destroyed, fragments as reassembly says |
| `DataPath.Plane.Expire` | dataplane/src/decode/decode-defrag.c:438-460 | a timed-out block's fragments are destroyed once |
| `DataPath.Plane.TxDone` | dataplane/src/platform/oct-rxtx.c:102-122 | sent buffers move from the ring to the destroyed |
| `DataPath.Plane.Operate` | dataplane/src/decode/decode.c:22-39 | over every run without a packet for port 4 each buffer is in as many places as times it was handed in or made |
| `DataPath.DistinctOccurOnce` | dataplane/src/decode/decode.c:22-39 | so buffers handed in once are in exactly one place |
| `RuleStore.FreeSlotsCountRules` | mgrplane/src/srv/srvnet/srv_rule.c:23-50 | with no duplicates, free slots and stored rules add up to the array |
| `RuleStore.RuleList.Add` | mgrplane/src/srv/srvnet/srv_rule.c:87-118 | FULL, EXIST or OK exactly as the set says, and the set's new value |
| `RuleStore.RuleList.Del` | mgrplane/src/srv/srvnet/srv_rule.c:120-152 | NOT_EXIST or OK exactly as the set says, and the set without the rule |
| `RuleStore.RuleList.DelById` | mgrplane/src/srv/srvnet/srv_rule.c:154-173 | the same by slot number; the array is overrun exactly for an id past it while the list is not empty |
| `RuleStore.RuleList.DelAll` | mgrplane/src/srv/srvnet/srv_rule.c:178-189 | the empty set, every slot free |

## Left out

- Tree nodes are values, not heap cells: the model does not capture node allocation failure or the freeing code.
- The flow table is a state machine on values: hlist pointers are list positions, and one core's step is one access.
- Flow timers, per-core statistics and the wrap of the 64-bit cycle counter; time only moves forward.
- The C library's qsort is modelled as an insertion sort; the 32, 64 and 128 bit copies of the segment code are one.
- `PreBuildHSTree`, `Prediction`, worst-case statistics and `load_rule`: a timed near-duplicate, bookkeeping, and a loader whose rules share one set of range arrays.
- LookupAgainstScan: `LinearSearch` exits the program when nothing matches; the model returns failure instead.
- Races between the fragment timeout and a core that already found the block, and the mbuf released half-initialised on allocation failure; reassembly is sequential per block.
- The fragment hash table is one list searched by key; the Jenkins hash is not part of this model.
- DataPath decides header checks, allocator answers and hardware answers by parameters; the flow lookup itself is in the flow-table model.
- ReadIPRange: masking an octet is written as arithmetic, and what is written past the array is not modelled.
- Operate: after a packet for port 4 has overrun the rings nothing is promised.
- Sender: one core's rings; the unsynchronised update of the shared counter by several cores is not modelled.
- TokSpace: the NUL written behind a token of exactly 256 characters falls outside its buffer in the code; tokens are modelled by their text alone.
- Parameter token types (numbers, addresses, files, lists) are arbitrary match functions; their decimal conversion has a known carry error and is not modelled.
- Newline execution, tab completion, help, submodes and terminal output of the command line.
- `sos_malloc.c`, whose slice addresses coincide, and the FPA-backed pools.
- Octeon SDK calls, sockets, shared memory, message packing, watchdog and `mk_parser.py`.
