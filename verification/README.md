# Verified model of go-tun

go-tun is a split-tunnel gateway. It collapses a country's IPv4 prefixes, compiles a policy into a declarative
kernel state, and reconciles Linux objects with it: sysctls, one nftables table, WireGuard links, one `ip rule`
and routing table 100. Packets are handled by the kernel alone, so what matters is what the kernel does after
an apply. This project models that chain in Dafny and proves it from the prefix list to the packet.

`dafny verify dfyconfig.toml` checks everything.

## What is proved

**The collapser is minimal and canonical.** `CollapseIPv4` keeps the source's form: masking and sorting an array,
removing repetitions in place with a write index behind the read index, the nested scan for covered prefixes, and
the stack that merges sibling halves. It is proved equal to an independent definition, the maximal blocks of the
address set found by descending the binary tree of blocks (`Blocks.Collapsed`). That definition is proved to cover
exactly the same addresses, to be no longer than any list of prefixes that does, and to be equal for two inputs
exactly when they denote the same addresses. The interval oracle of the repository's tests is a second algorithm;
it is proved exact, and the two test predicates together accept exactly the collapsed list.

**The compiler preserves meaning.** `RenderFullTable` lowers a compiled policy to a script with batched elements.
Replaying that script on a small kernel (tables, interval sets that refuse overlaps, base chains whose rules return,
drop or mark in order) gives a table whose verdict on every packet is what the policy says about the original,
uncollapsed prefixes. The script is also followed on any other table: a history of policies describes every table that
applies can leave, with its listing and its verdicts in both hooks.

**The reconciler converges, and the gate stays closed but for named applies.** The kernel is a mutable object, each
call of the runner may fail, and a run is any sequence of applies, whichever calls of theirs failed, and of link
losses and returns. The proofs give the invariant of every run with its history, exactly when one successful apply
reaches the routes, marks and forwarding of its policy, exactly when an apply without failing calls succeeds, and
exactly when a second one changes nothing. After a successful apply, link events never let marked packets through to
the main table; which applies do is an exact condition, whatever calls fail, and every run without such an apply
keeps them off it.

**Smaller results.** The number of changes that an apply reports is exactly what it wrote, and nothing has changed if it
is zero. Reading a prefix list is specified on every text, and writing and parsing one are inverse; semantic equality of compiled states is equality
of policies up to order; the DNS suffix test is a question about labels.

## Where the code does not do what is promised

Each of these is proved with the exact condition under which the promise holds.

- `README.md:74` promises that a successful full apply recovers from any partial failure. It does for sysctls, the rule
  and the terminal route. For routes, marks and forwarding the exact conditions are in `RunTheorems.Convergence` and
  `RunProgress.Recovery`: an apply may keep a table that it wrongly recognises, or pile its policy on one that it could
  not list. One failed listing is enough: a LAN added by that apply is marked for the tunnel, and through every run of
  further applies of the same policy that can list the table it stays so, each taking the table for right
  (`RunProgress.StuckForGood`; `RunProgress.KeptForGood` for any history).
- `README.md:50` promises that table 100 always ends with a blackhole. An apply flushes the table and adds the
  device's route first (`internal/linux/routing/routing.go:42-47`), so one with the tunnel wanted up and its device
  missing ends with an error and an empty table. No other call has to fail: after a successful apply the loss of
  `wg-exit` leaves marked packets dropped, and applying the same policy again sends them to the main table
  (`RunClosed.ReapplyOpens`, on a concrete host `RunClosed.ReapplyExample`). Without failing calls this happens
  exactly if the policy gets to the routes and the device is missing (`RunClosed.ReapplyOpensIff`). With any calls
  failing, an apply that gets to the rules and routes loses rule or blackhole exactly if the rule cannot be shown,
  is deleted and cannot be added, or if the rule step succeeds, the routes are flushed and one cannot be added
  (`RunClosed.ClosedIff`); marked packets reach the main table exactly if the rule is lost or the first route cannot
  be added (`RunClosed.FallsThroughIff`). Runs stay closed exactly if no apply of them does that
  (`RunClosed.ClosedRunIff`).
- With the tunnel wanted down, a flush of table 100 that fails unnoticed leaves the tunnel route
  (`RunProgress.StaleRouteExample`; `Runs.TableStepOwned` has the exact condition).
- `README.md:70` promises that applying the same policy again is a no-op. With WireGuard unmanaged, and the table listed
  and the routes right the first time, this holds exactly if every direct prefix and LAN is masked and none is a single
  address (`RunProgress.IdempotentIff`, `NftDecision.SelfMatchIff`): a `/32` is listed without its length and skipped, a
  host bit is listed cleared.
- The no-op decision can keep a table that marks packets wrongly: a `/32` that was direct only by itself stays direct
  after it has left the policy (`NftSoundness.LostHostExample`). The exact condition is `NftSoundness.NoOpMarksIff` for
  the table of one policy and `NftSoundness.KeptMarksIff` for any history.
- Removing the inbound interface from the policy is taken for no change, and its clients stay isolated
  (`NftSoundness.StaleIsolation`, `NftSoundness.NoOpForwardsIff`, `NftSoundness.KeptForwardIff`).
- When listing the table fails although the table is there, the script runs without deleting it first and the rules
  pile up; `NftSoundness.PiledMarksIff` and `NftSoundness.PiledForwardIff` say exactly when the result is still right, and
  `NftSoundness.PileMarksIff` does so for policies with different marks.
- A LAN or endpoint that is an IPv6 one passes `validate`, as do overlapping direct prefixes and, beside an inbound
  interface, overlapping LANs, but the script is rejected by every kernel state (`NftPile.ScriptRejected`).
- The `ip rule` test is three substring tests. They pass exactly when some rules have the three parts, not necessarily one
  rule (`RuleListing.RuleShownIff`); the test is right about the owned rule exactly if that is there or no such lookalikes
  are (`RuleListing.OwnTestRightIff`), and a foreign rule can pass for it (`RuleListing.ForeignRuleShown`).

## Modules

`Ipv4`, `Text`, `Sorting` and `Wrappers` are the base. `Blocks` is the reference answer, `Collapse` the collapser,
`IntervalOracle` the tests' second algorithm. `CidrText` and `CidrList` print and parse. `Policy` is the policy and
its compiler, `PolicyNormal` the canonical form. `NftKernel` states how nftables behaves, `NftRender` lowers and
replays, `NftPile` has the tables of histories, `NftMeaning` gives verdicts, `NftLive` lists and compares, `NftDecision`
and `NftSoundness` judge the no-op decision. `Routing` has routes and their texts, `RuleListing` rules and their texts,
`Kernel` the mutable state and the runner, `Reconcile` the reconcilers and the pipeline; `Runs`, `RunTheorems`,
`RunSafety`, `RunProgress`, `RunClosed` and `RunCounts` have the
results over runs. `DnsSuffix` is the classifier.

## Model

| member | source | states |
|---|---|---|
| Ipv4.FloorClearsHostBits | internal/prefixes/collapse.go:24 | the tree descent that defines a block is masking: the address rounded down to a multiple of 2^(32-bits) |
| Ipv4.MaskedIsMasked | internal/prefixes/collapse.go:24 | masking keeps the block and is idempotent |
| Ipv4.Laminar | internal/prefixes/collapse.go:66-72 | of two blocks the one with the longer prefix is inside the other or disjoint from it |
| Ipv4.InsideIff | internal/prefixes/collapse.go:66-72 | inclusion of address blocks is decided by the lengths and the address masked to the outer length |
| Ipv4.InsideHalf | internal/prefixes/collapse.go:91-117 | a block strictly inside another lies in one of its two halves |
| Ipv4.BytesOfFromBytes | internal/prefixes/collapse.go:119-131 | bytes to 32-bit number and back is the identity on every four bytes, and the first byte is the most significant |
| Ipv4.FromBytesOfBytes | internal/prefixes/collapse.go:119-131 | 32-bit number to bytes and back is the identity on every address, which is its four bytes to base 256, first byte first |
| Sorting.SortSlice | internal/prefixes/collapse.go:27-33 | sort.Slice in place: a permutation in which nothing precedes a smaller element, for any strict weak order |
| Blocks.FullIsSingle | internal/prefixes/collapse.go:74-89 | the deepest-prefix argument: a disjoint, sibling-free list that fills a block is that block alone |
| Blocks.CanonicalIsMaximal | internal/prefixes/collapse.go:44-89 | a sorted, disjoint, sibling-free list is the list of maximal blocks of the addresses it covers |
| Blocks.CanonicalIsCollapsed | internal/prefixes/collapse.go:44-45 | only one canonical list has the addresses of the input |
| Blocks.CanonicalHasNoSiblings | internal/prefixes/collapse.go:12-13 | in a canonical list no two positions at all, adjacent or not, hold a mergeable pair |
| Blocks.BlocksAreMaximal | internal/prefixes/collapse.go:12-13 | every block of the answer is full and its parent is not |
| Blocks.BlocksAtMost | internal/prefixes/collapse.go:9-10 | every cover of a set spends at least one prefix on each of its maximal blocks |
| Blocks.CollapsedUnion | internal/prefixes/collapse.go:9-10 | the answer covers exactly the input's addresses |
| Blocks.CollapsedIsCanonical | internal/prefixes/collapse.go:12-13 | the answer is masked, strictly sorted, disjoint and has no mergeable pair |
| Blocks.CollapsedIsMinimal | internal/prefixes/collapse.go:9-10 | minimality: no list of prefixes with the same addresses is shorter |
| Blocks.CollapsedCanonicity | internal/prefixes/collapse.go:9-14 | two inputs have the same answer if and only if they denote the same addresses |
| Blocks.CollapsedIdempotent | internal/prefixes/collapse.go:9-14 | collapsing the answer changes nothing |
| Blocks.CollapsedInsensitive | internal/prefixes/collapse.go:19-42 | order, repetition and host bits of the input do not matter |
| Collapse.ContainsIff | internal/prefixes/collapse.go:66-72 | the containment test on a masked outer prefix decides inclusion of the address blocks |
| Collapse.MergeDoesNotWrap | internal/prefixes/collapse.go:110-112 | the 32-bit shift and sum never wrap, and give the start of the right half |
| Collapse.MergeIff | internal/prefixes/collapse.go:91-117 | merging succeeds exactly on the two halves of one block, in either order, and yields that block |
| Collapse.MergeUnion | internal/prefixes/collapse.go:91-117 | the merged block covers exactly what the two prefixes covered |
| Collapse.CollapseIPv4 | internal/prefixes/collapse.go:14-46 | the result is the maximal blocks of the input's addresses, is canonical, and has the same union |
| Collapse.DedupeInPlace | internal/prefixes/collapse.go:35-42 | writing behind the read index leaves a strictly sorted prefix of the array with the same elements |
| Collapse.RemoveCovered | internal/prefixes/collapse.go:48-64 | keeps exactly the prefixes contained in no other one, with the same union, sorted and disjoint |
| Collapse.OnlyLastCanCover | internal/prefixes/collapse.go:52-59 | the full scan refines to a test of the last kept prefix: no other can cover the next one |
| Collapse.MergeSiblingStack | internal/prefixes/collapse.go:74-89 | from a sorted, disjoint list to a canonical one with the same union |
| Collapse.MergeTop | internal/prefixes/collapse.go:84-85 | replacing the top pair by its parent keeps stack and unread suffix together sorted, disjoint and exact |
| Collapse.UnmergedTop | internal/prefixes/collapse.go:80-83 | when the top pair does not merge, no adjacent pair of the stack does |
| IntervalOracle.PrefixesToMergedIntervals | internal/prefixes/collapse_oracle_test.go:21-52 | sorted intervals with a gap between neighbours that hold exactly the prefixes' addresses |
| IntervalOracle.NonTouchingUnique | internal/prefixes/collapse_oracle_test.go:54-64 | non-touching intervals are determined by their points |
| IntervalOracle.IntervalsDecideUnion | internal/prefixes/collapse_oracle_test.go:54-64 | merged intervals are equal exactly when the two lists denote the same addresses |
| IntervalOracle.UnionAddressCount | internal/prefixes/collapse_oracle_test.go:66-72 | the count in 64-bit arithmetic is the number of addresses and does not wrap |
| IntervalOracle.ExactIntervalsCount | internal/prefixes/collapse_oracle_test.go:66-72 | exact merged intervals meet the conditions of the count, and what is counted is the union |
| IntervalOracle.MaximallyCollapsedIff | internal/prefixes/collapse_oracle_test.go:89-127 | on masked lists the test predicate accepts exactly the canonical ones |
| IntervalOracle.OraclesPinTheAnswer | internal/prefixes/collapse_oracle_test.go:74-127 | a masked list passes both oracles against an input if and only if it is the collapsed input |
| CidrText.ParseAddr4Iff | internal/prefixes/parse.go:23 | an IPv4 address text is accepted exactly if it is the text printed for the address |
| CidrText.ParsePrefix4Iff | internal/prefixes/parse.go:23 | an IPv4 prefix text is accepted exactly if it is the text printed for the prefix |
| CidrText.PrefixStringInjective | internal/prefixes/parse.go:188 | different prefixes print differently |
| CidrText.PartsValue | internal/prefixes/collapse.go:119-131 | the four numbers of a dotted text are the address to base 256, most significant first |
| CidrText.OctetsDecideBlock | internal/prefixes/parse.go:23 | what CIDR notation means, on the text: a prefix of 8 * i bits has exactly the addresses whose texts agree with its own in the first i numbers |
| CidrText.OctetsDecideOrder | internal/prefixes/collapse.go:27-33 | addresses are ordered by the first number in which their texts differ |
| CidrText.TextDenotes | internal/prefixes/parse.go:23 | an address text, a slash and a number are accepted exactly up to 32, and denote the addresses that agree in that many leading bits |
| Text.TrimSpaceIff | internal/prefixes/parse.go:19 | trimming takes white space off both ends, all of it and nothing else |
| Text.SpaceIs | internal/prefixes/parse.go:19 | white space is the characters of White_Space in Unicode |
| Text.DigitsOf | internal/linux/routing/routing.go:18-20 | decimal and hexadecimal texts are positional, most significant digit first, with a minus in front of negative numbers |
| Text.FieldsSpaced | internal/linux/routing/routing.go:93 | the fields in order, with white space before, between and behind them, make up the line |
| Text.AtoiCases | internal/linux/routing/routing.go:100 | digits with at most one sign are read as a number kept within 64 bits, anything else as 0 |
| Text.StringLessIff | internal/policy/compile.go:192 | a text is less exactly if it ends, or has the smaller character, where the two first differ |
| CidrList.ParseCIDRList | internal/prefixes/parse.go:15-33 | the loop returns the listing of the lines: blanks, comments and IPv6 skipped, a bad line an error, and the list so far when a line is too long or the reader breaks, each exactly when `Reads` says so |
| CidrList.ReadingIff | internal/prefixes/parse.go:15-33 | on every list of lines: a list exactly if no line is bad or too long and the reader does not break; an error with the trimmed text of the first bad line exactly if no line before it is too long; and the prefixes are those of the lines read, in order |
| CidrList.SkippedLine | internal/prefixes/parse.go:19-29 | a blank line, a comment or an IPv6 prefix, anywhere in a list, changes nothing |
| CidrList.LinesOfText | internal/prefixes/parse.go:17-19 | the lines joined by line breaks are the text, up to a final line break |
| CidrList.BytesAddUp | internal/prefixes/parse.go:17-18 | what is held against the scanner's limit is the number of bytes in UTF-8 |
| CidrList.WriteCIDRList | internal/prefixes/parse.go:181-193 | the loop writes one printed prefix a line; it reports success exactly if the file opens and no write fails, and else has written the lines before the first failure |
| CidrList.WriteThenParse | internal/prefixes/parse.go:15-33 | parsing what was written returns the same list, host bits and order included |
| CidrList.FetchThenApply | internal/cli/commands.go:77-82 | fetch, write, parse and collapse again yields the collapsed list of the fetch |
| DnsSuffix.MatchesIff | internal/dnsproxy/suffix.go:18-28 | the string test holds exactly when the name's labels end with the suffix's labels |
| DnsSuffix.ClassifyByLabels | internal/dnsproxy/suffix.go:15-31 | a name goes direct exactly if its labels end with those of a configured suffix, dotted or not |
| Policy.FirstBadIff | internal/policy/compile.go:161-165 | the loop finds the first direct prefix that is invalid or IPv6, and nothing exactly if all are IPv4 |
| Policy.CompileIff | internal/policy/compile.go:157-170 | a policy compiles exactly if it has an endpoint, IPv4 direct prefixes, and LANs when inbound is set; else which error it gives, the first bad direct prefix included |
| Policy.CompiledState | internal/policy/compile.go:12-155 | what is asked of the kernel, in names and numbers: sysctls, sets, chains, rule, routes and both interfaces, with the defaults for zero values |
| Policy.NetStringInjective | internal/linux/nftables/nftables.go:86-88 | keys made from printed prefixes tell prefixes of both families and the invalid one apart |
| Policy.IpStringInjective | internal/linux/nftables/nftables.go:119-122 | keys made from printed addresses tell addresses of both families and the invalid one apart |
| PolicyNormal.SortedClone | internal/policy/compile.go:179-182 | the sorted clone is a permutation of the argument in which nothing precedes a smaller element |
| PolicyNormal.TiesIff | internal/policy/compile.go:192-257 | what the orders leave open: prefixes and addresses are told apart entirely, sysctls, sets, chains, rules, ip rules and routes by their keys alone |
| PolicyNormal.NormalizeWGPeer | internal/policy/compile.go:251-259 | only the allowed prefixes change, to a sorted permutation; a nil list stays nil |
| PolicyNormal.NormalizeRules | internal/policy/compile.go:222-240 | every rule keeps its fields, with excluded prefixes and addresses sorted |
| PolicyNormal.NormalizeSets | internal/policy/compile.go:213-219 | every set keeps name and type, with flags and elements sorted |
| PolicyNormal.NormalizeChains | internal/policy/compile.go:221-245 | every chain keeps its fields, with its normalized rules sorted |
| PolicyNormal.Normalize | internal/policy/compile.go:178-249 | the result is a canonical form: every list a sorted permutation, at every level |
| PolicyNormal.SemanticEqualIff | internal/policy/compile.go:172-176 | canonical forms of compiled states are equal exactly if the policies differ only in the order of direct prefixes, LANs and allowed prefixes |
| PolicyNormal.SemanticEqual | internal/policy/compile.go:174-176 | true on two compiled states exactly if their policies are the same up to that order |
| PolicyNormal.NormalIdempotent | internal/policy/compile.go:178-249 | normalizing the canonical form of a compiled state changes nothing |
| PolicyNormal.EqualStatesSameVerdict | internal/policy/compile.go:172-176 | compiled states found equal give every packet the same verdict in both hooks |
| NftKernel.ExecAllLocal | internal/linux/nftables/nftables.go:34-36 | a script on one table changes that table alone, and fails as a whole |
| NftRender.WriteBatchedElements | internal/linux/nftables/nftables.go:595-604 | the index loop writes the list's batches |
| NftRender.BatchesExact | internal/linux/nftables/nftables.go:595-604 | the batches put together are the list, each has 1 to 4000 elements, and there are ceil(n/4000) |
| NftRender.RenderRule | internal/linux/nftables/nftables.go:608-622 | one declared rule becomes none, one, or one rule for each exclusion and then the mark, in that order |
| NftRender.RenderRuleLines | internal/linux/nftables/nftables.go:606-625 | the lines of a chain are those of its declared rules in order |
| NftRender.RenderFullTable | internal/linux/nftables/nftables.go:570-585 | table, then every set with its batched elements, then every chain with its rules |
| NftRender.ReplayBatches | internal/linux/nftables/nftables.go:595-604 | replaying the batches adds exactly the listed elements, or fails exactly if intervals overlap |
| NftRender.ReplaySet | internal/linux/nftables/nftables.go:573-576 | on any table, replaying a set's part adds exactly the declared prefixes to what is there, or fails exactly if the type differs or intervals overlap |
| NftRender.ReplayChain | internal/linux/nftables/nftables.go:577-583 | on any table, replaying a chain's part declares it and appends its rules in order, or fails exactly if it is there and different |
| NftPile.BodyIff | internal/linux/nftables/nftables.go:570-585 | on any table at all, the script of a policy that compiles adds exactly what is declared, or fails exactly if an operand is not IPv4, intervals overlap, or a set or chain is there and different |
| NftPile.ScriptBuildsTable | internal/linux/nftables/nftables.go:30-36 | replaying the apply script replaces the owned table by the policy's and leaves every other table alone, exactly if the policy is renderable; else it fails |
| NftPile.ScriptPilesUp | internal/linux/nftables/nftables.go:22-36 | without the delete the script of a further policy turns the table of a history into that of the longer one, or fails exactly if intervals would overlap |
| NftPile.ScriptRejected | internal/policy/compile.go:157-170 | a policy with a LAN or endpoint that is not IPv4, or overlapping elements, may compile, but its script fails on every kernel state |
| NftMeaning.PilePrerouting | internal/linux/nftables/nftables.go:606-625 | the prerouting verdict of the table of any history |
| NftMeaning.MarkLeftIff | internal/linux/nftables/nftables.go:606-625 | which mark the rules of a history leave: none if the oldest policy excludes the address or any has it direct, else that of the last policy before the first that excludes it |
| NftMeaning.RuleMeaning | internal/linux/nftables/nftables.go:606-625 | what the lines of one declared rule do to a packet, for every declaration, table and chain |
| NftMeaning.PileForward | internal/linux/nftables/nftables.go:619-620 | the forward verdict of the table of any history |
| NftMeaning.PreroutingMeaning | internal/linux/nftables/nftables.go:606-625 | the rendered rules drop IPv6 and mark IPv4 exactly if it is in no LAN, not the endpoint, and in no direct prefix |
| NftMeaning.ForwardMeaning | internal/policy/compile.go:72-94 | the rendered rules drop exactly the inbound clients' packets to the home networks |
| NftMeaning.EndToEnd | internal/cli/commands.go:82-109 | from the uncollapsed list through script and replay, which succeeds exactly if the LANs fit the home set, to the verdict on every packet without a mark |
| NftLive.StringSetsEqualIff | internal/linux/nftables/nftables.go:186-196 | equal sizes and one inclusion decide equality |
| NftLive.CountIff | internal/linux/nftables/nftables.go:163-171 | the count is positive exactly if a rule has that chain and comment |
| NftLive.FirstNamedIff | internal/linux/nftables/nftables.go:127-131 | the rule looked at is the first of its chain with its comment |
| NftLive.HasRuleIff | internal/linux/nftables/nftables.go:110-152 | for every list of live rules and every declared one: what must be shown for it to count as there, operands, mark, interface and set included |
| NftLive.ListedIff | internal/linux/nftables/nftables.go:198-239 | listing the table of a history shows exactly the rules of its policies |
| NftDecision.LanLookup | internal/linux/nftables/nftables.go:173-184 | what is collected for "exclude-lan" is the LANs of the whole history, as listed |
| NftDecision.MarkRuleMatch | internal/linux/nftables/nftables.go:114-134 | the mark rule is found exactly if the listed LANs and every endpoint of the history are those wanted and the oldest mark is |
| NftDecision.LiveMatchIff | internal/linux/nftables/nftables.go:67-108 | the no-op decision on every listing whatever: it is taken exactly when the listing shows the direct prefixes, the chains as declared, the rule against IPv6, the exclusions, the mark, and with an inbound interface the home networks and the isolation |
| NftDecision.MatchIff | internal/linux/nftables/nftables.go:67-108 | the no-op decision on the table of any history, as a condition on the history and the policy, both directions |
| NftDecision.MatchOneIff | internal/linux/nftables/nftables.go:67-108 | the same for the table of one earlier policy |
| NftDecision.SelfMatchIff | internal/linux/nftables/nftables.go:254-280 | a table is recognised as its own policy's exactly if all prefixes are masked and none is a single address |
| NftSoundness.PileMarksIff | internal/linux/nftables/nftables.go:26-36 | the table of any history marks every packet as a policy's own would, exactly if it spares the same destinations and else leaves the policy's mark |
| NftSoundness.PileForwardIff | internal/linux/nftables/nftables.go:26-36 | the table of any history forwards as a policy's own would, exactly if its united home networks are the policy's |
| NftSoundness.KeptMarksIff | internal/linux/nftables/nftables.go:26-28 | a kept table of any history marks right exactly if every wanted LAN address is excluded by the oldest policy or direct, and no single direct address of the history is one that the policy sends to the tunnel |
| NftSoundness.KeptForwardIff | internal/linux/nftables/nftables.go:26-28 | a kept table of any history forwards right exactly if isolation was not in place or is still wanted |
| NftSoundness.NoOpMarksIff | internal/linux/nftables/nftables.go:26-28 | a kept table of one policy marks right exactly if none of its single direct addresses is now one that goes to the tunnel |
| NftSoundness.NoOpForwardsIff | internal/linux/nftables/nftables.go:26-28 | a kept table of one policy forwards right exactly if isolation was not in place or is still wanted |
| NftSoundness.LostHostExample | internal/linux/nftables/nftables.go:254-280 | two concrete policies for which the decision keeps a table that sends an address the wrong way |
| NftSoundness.StaleIsolation | internal/linux/nftables/nftables.go:75-107 | for every listable policy with an inbound interface, removing it is taken for no change |
| NftSoundness.PiledMarksIff | internal/linux/nftables/nftables.go:22-36 | an apply that could not list the table marks right exactly if, off its direct prefixes, what the history spares is what it excludes |
| NftSoundness.PiledForwardIff | internal/linux/nftables/nftables.go:22-36 | it forwards right exactly if older isolation is within the wanted one, or there is none |
| NftSoundness.StuckExample | internal/linux/nftables/nftables.go:22-36 | two concrete policies whose pile is recognised as the second and marks an address that it would not |
| Routing.ParseRouteKeys | internal/linux/routing/routing.go:78-90 | the loop collects the keys of the lines that parse |
| Routing.TableRoutesMatch | internal/linux/routing/routing.go:53-68 | size and inclusion decide that the listed keys are exactly the desired ones |
| Routing.ParseListedRoute | internal/linux/routing/routing.go:92-122 | the line listed for a route parses to the key of that route, whatever the interface is called |
| Routing.ParseListed | internal/linux/routing/routing.go:78-90 | reading a listing gives the keys of exactly the routes in the table |
| Routing.ParseRouteLineIs | internal/linux/routing/routing.go:92-122 | for every line: blackhole and unreachable give the blackhole, default the device behind the first dev, with the metric behind the last metric; no other line counts |
| Routing.KeysOfLinesIff | internal/linux/routing/routing.go:78-90 | reading any text gives the keys of exactly its lines |
| Routing.KeyInjective | internal/linux/routing/routing.go:70-76 | keys tell routes apart, whatever the interface is called |
| RuleListing.RuleShownIff | internal/linux/routing/routing.go:17-23 | for every list of rules and every wanted one: the tests pass exactly if some priority ends, some mark starts and some table, 253 to 255 by their names, starts with the wanted text |
| RuleListing.OwnRuleShownIff | internal/linux/routing/routing.go:17-23 | with the default numbers the tests pass exactly on a lookalike: a priority ending in 100, a mark starting with 1 and a table starting with 100 |
| RuleListing.OwnTestRightIff | internal/linux/routing/routing.go:17-23 | the test is right about the owned rule exactly if that is there or no lookalike is |
| RuleListing.ForeignRuleShown | internal/linux/routing/routing.go:17-23 | a concrete foreign rule that passes all three tests while the wanted rule is missing |
| Reconcile.SysctlReconcile | internal/linux/sysctl/sysctl.go:12-32 | read, write, fall back, accept a right value: new state, count and error as the step function says |
| Reconcile.NftReconcile | internal/linux/nftables/nftables.go:19-40 | nothing on a match, else delete and full script in one transaction; new state, count and error |
| Reconcile.SwapSetElements | internal/linux/nftables/nftables.go:628-637 | the caller's list is sorted in place and the flush and batches run as one transaction |
| Reconcile.SwapReaches | internal/linux/nftables/nftables.go:627-637 | from any prior contents the set then holds exactly the given elements and nothing else changed, or the elements overlap and nothing changed |
| Reconcile.WgEffect | internal/wireguard/config.go:13-101 | on success the link is there exactly if it is to be up, and one taken down loses its routes from every table; an error at most leaves up a link that was to come up; nothing else changes, and nothing at all if the interface is not managed; it counts what WireGuard reports |
| Reconcile.ReconcileRules | internal/linux/routing/routing.go:16-31 | show, delete at the priority, add, stop at the first error: state, count and error |
| Reconcile.ReconcileTable | internal/linux/routing/routing.go:37-49 | one table: nothing on a match, else flush and add in order, stop at the first error |
| Reconcile.RoutingReconcile | internal/linux/routing/routing.go:13-51 | rules first, then the tables: state, count and error |
| Reconcile.GroupsExact | internal/linux/routing/routing.go:33-36 | grouping any list of routes: each table once, with all its routes in their order |
| Reconcile.RouteOfKey | internal/linux/routing/routing.go:124-142 | the route that is added is the one whose key is compared, a negative metric left out |
| Reconcile.ApplyReconcile | internal/apply/reconcile.go:24-62 | the pipeline in order, ending at the first failure without rollback: state, total and failing stage |
| Runs.SysctlReached | internal/linux/sysctl/sysctl.go:12-32 | after a successful step every wanted sysctl has its value |
| Runs.SysctlStepsIff | internal/linux/sysctl/sysctl.go:12-32 | whatever calls fail: success exactly if no sysctl is unseen, unwritable both ways and not found on a second look; what is counted is exactly those written, and they have their values |
| Runs.SysctlStepsFrame | internal/linux/sysctl/sysctl.go:12-32 | no key changes but those of the sysctls that are to be written |
| Runs.NftStepCases | internal/linux/nftables/nftables.go:19-40 | from the table of any history: exactly when the step succeeds, what it counts, and which history it leaves; a failure changes nothing |
| Runs.NftStepAny | internal/linux/nftables/nftables.go:19-40 | from any ruleset whatever that could be listed: kept and nothing counted if it shows the policy, else the policy's own table and one change, or nothing changed and an error |
| RunTheorems.TableRightIff | internal/linux/nftables/nftables.go:19-40 | whether the table is kept, piled on or rebuilt, exactly when both hooks then do what the policy wants |
| Runs.RuleStepForeign | internal/linux/routing/routing.go:16-31 | from any rules whatever, rules at other priorities stay as they are and in order |
| Runs.RuleStepAny | internal/linux/routing/routing.go:16-31 | for any wanted rule, from any rules whatever: nothing if the tests pass, else one rule of that priority is deleted and the wanted one added, which counts one change, or adding fails, which counts none |
| Runs.RuleStepOthers | internal/linux/routing/routing.go:16-31 | for any wanted rule: rules at other priorities stay as they are and in order |
| Runs.RuleStepsConcat | internal/linux/routing/routing.go:16-31 | a list of rules is handled one by one, in order, up to the first error |
| Runs.TableStepsConcat | internal/linux/routing/routing.go:37-49 | so are the tables |
| Runs.RuleStepRightIff | internal/linux/routing/routing.go:16-31 | from any rules whatever, a successful step that saw them ends right exactly if the owned rule was there or no lookalike was |
| Runs.RuleStepOwned | internal/linux/routing/routing.go:16-31 | beside any foreign rules that are no lookalike: success leaves exactly the owned rule, it is not added twice, one change is counted exactly if it is added, and only a failing call fails the step |
| Runs.RoutesMatchIff | internal/linux/routing/routing.go:53-68 | comparing texts decides whether table 100 holds exactly the wanted routes |
| Runs.RouteAddsOwned | internal/linux/routing/routing.go:43-47 | the added routes are there; a stale one stays only if no wanted one has its metric |
| Runs.TableStepOwned | internal/linux/routing/routing.go:37-49 | a successful step leaves the blackhole, and exactly the wanted routes unless a flush failed unnoticed with the tunnel down and another route there; it counts one change exactly if the routes were not seen to be right |
| RunTheorems.ApplyStages | internal/apply/reconcile.go:24-62 | the stage that fails decides the state that is left, without rollback, and the total is what the stages reached counted |
| RunTheorems.StepKeepsOwned | internal/apply/reconcile.go:20-62 | every apply, whichever calls fail, and every link event keep the owned objects owned with the next history, and foreign rules as they are |
| RunTheorems.RunKeepsOwned | internal/apply/reconcile.go:20-62 | so does every run |
| RunTheorems.ApplyReaches | internal/apply/reconcile.go:20-62 | a successful apply from any owned state turns IPv4 forwarding on and IPv6 off, sets the owned rule and the terminal route, and reaches routes, marks and forwarding exactly under stated conditions |
| RunTheorems.Convergence | README.md:72-74 | the same after any run, whichever calls of its applies failed, listing and flushing included |
| RunProgress.TableSucceedsIff | internal/linux/routing/routing.go:37-49 | when no call fails, filling table 100 succeeds exactly if the wanted device is there |
| RunProgress.ApplySucceedsIff | internal/apply/reconcile.go:20-62 | when no call fails, an apply from an owned state succeeds exactly if the policy compiles, is IPv4, names a valid link when managed, and has its device when the tunnel is up |
| RunProgress.Recovery | README.md:72-74 | after any run, an apply whose calls do not fail succeeds exactly under that condition, and then reaches its policy in every respect exactly unless it wrongly keeps a table |
| RunProgress.KeptForGood | internal/linux/nftables/nftables.go:26-28 | through every run of applies of a policy that can list the table, and of link events, a history recognised as the policy's stays as it is; marks and forwarding are then right exactly under the conditions of a kept table, and the nft stage of a further apply reports no change |
| RunProgress.StuckForGood | README.md:72-74 | a concrete failed listing after which, through every run of applies of the same policy that can list the table, and of link events, a LAN stays marked for the tunnel and the nft stage of a further apply reports no change |
| RunProgress.StaleRoute | internal/linux/routing/routing.go:42-48 | a flush that fails unnoticed leaves the tunnel route as the best one when the tunnel is wanted down |
| RunProgress.StaleRouteExample | internal/linux/routing/routing.go:42-48 | the same on a concrete state |
| RunProgress.SecondApply | README.md:68-70 | a second apply succeeds; its changes are what WireGuard reports, plus one if the table is not recognised, plus one if the routes are not right |
| RunProgress.IdempotentIff | README.md:68-70 | with WireGuard unmanaged the second apply reports no change if and only if the first left the right routes and the prefixes are masked and none is a single address, or, after a failed listing, the longer history is recognised |
| RunCounts.NoChangeNoEffect | README.md:68-70 | from any state whatever, with WireGuard unmanaged: a successful apply that reports no change has changed nothing |
| RunCounts.ApplyCounts | internal/apply/reconcile.go:24-62 | from any owned state: the number of changes is the sysctls written, plus one each if the table was not kept, the rule not seen, the routes not seen to be right, plus what WireGuard reports |
| RunSafety.LinkEventsFrame | internal/policy/compile.go:135-138 | link events remove only routes of the lost device and add none; the blackhole stays |
| RunSafety.ApplyEndsTerminal | internal/policy/compile.go:135-155 | a successful apply leaves the rule and the blackhole, whatever failed unnoticed |
| RunSafety.FailClosed | internal/policy/compile.go:135-155 | after a successful apply, through every sequence of link losses and returns, a marked packet is dropped or leaves by a device route of the owned table |
| RunSafety.ReachedFate | README.md:48-52 | where every unmarked packet goes when marks and routes are those of the policy |
| RunSafety.GatewayPromise | README.md:48-52 | over any run: what the history spares goes by main, other traffic by a device of the owned table or not at all, IPv6 is not sent; that is what the policy says when marks and routes are right |
| RunSafety.IsolationPromise | internal/policy/compile.go:72-94 | over any run: forward drops exactly what the history isolates, always all that the policy isolates, and just that when forwarding is right |
| RunSafety.OnlyOwnedObjects | README.md:58-64 | from any state whatever an apply leaves nft tables other than inet gotun and rules at other priorities alone, and other routing tables lose at most the routes of a tunnel interface that is taken down, no link changes but a managed one, and no sysctl but the three wanted |
| RunClosed.ClosedIff | internal/linux/routing/routing.go:16-49 | from a state with rule and blackhole, whatever calls fail: an apply keeps both unless it gets to the rules and routes and either loses the rule or flushes the table and cannot add some route |
| RunClosed.FallsThroughIff | internal/linux/routing/routing.go:16-49 | from such a state an apply lets marked packets through to the main table exactly if it loses the rule, or flushes the table and cannot add the first route |
| RunClosed.ReapplyOpensIff | internal/linux/routing/routing.go:42-47 | when no call fails, an apply opens a closed gate exactly if it gets to the routes with the tunnel wanted up and the device missing, and then marked packets reach the main table |
| RunClosed.ReapplyOpens | internal/linux/routing/routing.go:42-47 | after any successful apply with an unmanaged tunnel up, and the loss of its interface, marked packets are dropped; the same apply again, no call failing, ends in an error and sends them to the main table |
| RunClosed.ReapplyExample | internal/linux/routing/routing.go:42-47 | the same on a concrete host |
| RunClosed.ClosedRunIff | README.md:48-50 | any run from a closed state is closed after each of its events if and only if no apply of it meets the condition under which it opens |
| RunClosed.ClosedOverRuns | README.md:48-50 | after a successful apply, through every run of applies that do not meet it, whichever calls fail, and of link events, a marked packet is dropped or leaves by a device route of the owned table |

## Left out

- Collapse.CollapseIPv4: the panic on an IPv6 prefix is not modelled; addresses are IPv4 by type. The nil result for
  an empty input is the empty list.
- IntervalOracle.PrefixesToMergedIntervals: skipping IPv6 prefixes is not modelled, for the same reason.
- Sorting.SortSlice: the order of elements that compare equal is left open, as Go leaves it.
- CidrList.ParseCIDRList: reads a text of characters, so invalid UTF-8 does not occur; which texts are IPv6 prefixes is a
  parameter.
- CidrList.WriteCIDRList: a write that fails writes nothing of its line.
- DnsSuffix.ClassifyByLabels: the canonical form of a name is a parameter assumed to end in a dot; names with
  backslash escapes (section 5.1 of RFC 1035) are outside what labels mean here.
- PolicyNormal.SemanticEqualIff: stated for compiled states; for hand-built ones the sort keys are not total and the
  result depends on the order of the input. That an empty list differs from a nil one is modelled only for the allowed
  prefixes, since two compiled states never differ in it elsewhere.
- Reconcile.NftReconcile: commands are structured values rather than text, except for element texts, which the kernel
  parses; the JSON of the listing is replaced by the parsed form, in the shape that the repository's own fixtures
  show (a set lookup as an object that names the set).
- PolicyNormal.SortedClone: slices are values, so that cloning leaves the argument alone holds by type and is not a
  result here.
- RuleListing.RuleShownIff: names for tables other than 253 to 255, which a system may add, are not modelled.
- Reconcile.SysctlReconcile: a read is one call with one outcome; the shell command behind it is not modelled.
- Reconcile.WgEffect: WireGuard is modelled by its effect on the link and the reported number of changes; keys, peers,
  addresses and the routes it adds for or removes from the main table are not.
- Reconcile.RoutingReconcile: the tables are handled in order of first use instead of Go's map order; a compiled
  policy uses one table.
- Runs.RuleStepOwned: foreign rules that look like the owned one are excluded here and from the runs;
  `RuleListing.OwnTestRightIff` and `Runs.RuleStepRightIff` say exactly what the step does with them.
- RunTheorems.Convergence: mark, table and priority are the defaults that the command line fixes, and the owned table of
  the first state is absent or one that such applies left.
- RunProgress.IdempotentIff: WireGuard unmanaged, because with the tunnel down it counts a change every time;
  `RunProgress.SecondApply` covers the managed case with the count it reports.
- RunSafety.FailClosed: no foreign rule is for the owned mark, since such a rule before the owned one would decide; link
  events only, since applies can open the gate. `RunClosed` has the states that applies end in, failed ones included; a
  packet that meets a state in the middle of an apply, after the flush and before the routes are back, is not modelled.
- The kernel's own behaviour (transactions of nft, refusal of overlapping intervals, listing format, a lost link taking
  its routes along) is stated once in `NftKernel`, `Routing`, `RuleListing` and `Kernel` and not proved. Each call fails
  or succeeds once per apply.
- The packet's way through other tables, ip rules without a mark, and base chains of other programs.
- FailMode has one value in the source and is not a field here.
- `Clear` and the element count of a set: single commands.
- Download, archives, CSV and MMDB reading, the Amnezia writer, the command line and the DNS server: I/O.
