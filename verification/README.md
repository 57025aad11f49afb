# Mesh routing, nodesets and delivery: a verified model

This project models four cores of the repository in Dafny and proves what they
promise.

1. **Gradient routing.** `GradientTable.dfy` is one node's routing table, with its
   in-place lists, its `dirty` flag and its cached gossip. `Mesh.dfy` runs any
   number of such tables as an asynchronous protocol with loss, late and repeated
   delivery, purging and truncation. `Rounds.dfy` runs them in synchronous rounds
   without purging and proves that these compute shortest paths; `Forwarding.dfy`
   proves that forwarding by cheapest next hop then arrives without loops.
   `TickedRounds.dfy` adds the purge that opens every tick and proves exactly how long
   both remain true and what is computed afterwards. `CountingUp.dfy` proves on the
   asynchronous protocol, with ticks whenever each node likes, that what purging leaves
   counts to infinity. `GossipOrder.dfy` says when a gossip answer is sorted.
2. **Nodeset expressions.** `RangeSet.dfy` (canonical range sets), `Brackets.dfy` and
   `BracketFold.dfy` (bracket parser and printer), `Cartesian.dfy` (the expander),
   `Patterns.dfy` (terms, tokenizer, expressions), `BracketText.dfy` and
   `Expressions.dfy` (the laws of bracket parts and of the operators), `Folding.dfy`,
   `FoldRoundTrip.dfy` and `FoldExamples.dfy` (folding and its inverse), `Matching.dfy`
   (the matcher that does not expand, on one term), `MatchExamples.dfy` (names it gets
   wrong), `Unions.dfy` and `Spacing.dfy` (the same on comma-separated terms, with
   spaces around them or not), `PatternExamples.dfy` (small patterns and exactly what
   they denote and match).
3. **Discovery.** `CapabilityIndex.dfy` (the five-map index), `Sonar.dfy` (query names
   and the seen set), `Flood.dfy` (a WhoHas flood through the mesh: it ends and is
   small), `Coverage.dfy` (whom it reaches).
4. **Delivery and bounded buffers.** `AsyncWriter.dfy` (the write queue of a peer,
   interleaved step by step), `SendAnswers.dfy` (what each send answers), `Resolver.dfy` and `Bootstrap.dfy` (the host cache and
   its transfer), `TopK.dfy` (the heap reducer), `Pipe.dfy` (the in-memory pipe).

`Wrappers.dfy`, `Ordering.dfy`, `Text.dfy`, `Arithmetic.dfy`, `Listings.dfy`,
`Walks.dfy`, `Routes.dfy` and `Horizon.dfy` hold what several of these share.

Methods that change state are proved against specification functions and
predicates; the main results are lemmas about those, over every input, every run
and every interleaving. `dafny verify dfyconfig.toml` checks everything.

## Conventions

- Costs and impedances are `real`; times are `int` and are passed in where the
  program reads a clock. Impedances in whole-run theorems are at least 1, as
  `pkg/mesh/nucleus/manifest.go:103-114` clamps them.
- A method under a mutex is one atomic step. Where the program iterates over a map,
  the model picks keys in any order, so what is proved holds for every order.
- Text is a sequence of ASCII characters. Names used as map keys are wrapped in
  one-field datatypes.
- Go's `sort` package is modelled by an insertion sort that is proved to sort.

## Main results

- Every stored route is a real walk in every asynchronous run: `Mesh.RoutesAreWalks`.
- Synchronous rounds compute bounded-hop shortest paths, then true shortest paths, as
  long as nothing is purged: `Rounds.RoundsComputeShortest`, `Forwarding.CostsAreFinal`.
  Forwarding by cheapest next hop is then loop-free and arrives after every round:
  `Forwarding.RunsDeliver`.
- Nothing is purged exactly while fewer than three gossip intervals have passed since
  the peers registered: `TickedRounds.RoundsExactly`. Under that hypothesis, and only
  under it, ticked rounds deliver: `TickedRounds.TickedShortest`,
  `TickedRounds.DeliversExactly`. Afterwards every cost is that of a cheapest walk with
  a minimum number of links that grows by one each round:
  `TickedRounds.TickedCosts`, `TickedRounds.CountsToInfinity`.
- The same growth without synchrony: in every asynchronous run in which nodes purge
  before they send, no peer registers after some time and frames arrive within some
  delay or not at all, whatever survives a purge is a walk with one more link for every
  three intervals and a delay: `CountingUp.AsyncCountsUp`. Direct routes never come
  back: `CountingUp.AsyncNeverDirect`.
- A cached gossip answer is as good as a recomputed one in every reachable state: the
  class invariant of `GradientTables.GradientTable` and `GenerateGossipBudgeted`.
- Bracket text and pattern text round-trip, exactly when they can:
  `BracketFold.BracketRoundTrip`, `FoldRoundTrip.FoldRoundTrip`.
- The expander's stride arithmetic is a bijection in lexicographic order:
  `Cartesian.RankOfChoice`, `Cartesian.ChoiceOfRank`, `Cartesian.ChoicesInOrder`.
- An expression, an operator and one more term denote the union, the difference, the
  common names or the names on one side only, for every expression:
  `Expressions.OperatorLaw`, `Expressions.DenotesOperator`.
- The matcher accepts every expanded name of a term, and only expanded names, exactly
  under stated conditions: `Matching.MatchAcceptsAllExactly`,
  `Matching.AcceptedIsExpandedExactly`. On a union it agrees with expansion exactly when
  no bracket lists its values with commas: `Unions.CommasExactly`, `Unions.UnionMatches`;
  spaces around the terms make no difference: `Spacing.SpacedDenotes`,
  `Spacing.SpacedMatches`.
- The five maps of the capability index agree after every operation, and its fast
  paths equal the simple ones: `CapabilityIndexes.CapabilityIndex.Update`,
  `CapabilityIndexes.StateFromLists`, `CapabilityIndexes.ScanFindsOffering`.
- A flood ends by its hop budget alone, and is small within one lifetime:
  `Floods.FloodEnds`, `Floods.FloodIsSmall`.
- Whatever the order of arrival, a lossless flood reaches a node if and only if the node
  is in every tree from the origin that the hop budget lets grow no further:
  `Coverage.FloodCoversExactly`. So it reaches everything connected where no path
  without repetitions has more than maxHops + 1 links: `Coverage.FloodReachesAll`.
- No interleaving of senders, stoppers and writer sends on a closed channel or reorders,
  and every call finishes: `AsyncWriters.NeverPanics`, `AsyncWriters.WireIsPrefix`,
  `AsyncWriters.EveryCallFinishes`. A send answers true exactly when it found the writer
  not stopped and fewer than 64 messages queued: `SendAnswers.AnswersExactly`.
- Bootstrap in chunks equals one merge, and every field of every host arrives:
  `Bootstraps.FramesMergeAsOne`, `Bootstraps.BootstrapDelivers`.
- The reducer's result is the whole stream sorted and cut off: `TopKs.KeptIsTop`.

## Where the code and its descriptions differ

- A direct neighbour's route is added once, when the peer connects
  (`pkg/mesh/api/control.go:448-460`), and every tick purges entries older than three
  intervals (`pkg/mesh/api/control.go:322-324`). So it expires although the neighbour is
  alive, though the comment at `pkg/mesh/routing/gradient.go:413-417` expects gossip from
  live neighbours to refresh it: `Mesh.DirectRouteExpires` and
  `TickedRounds.DirectRouteExactly` say exactly when, `Mesh.LiveNeighborForgotten` gives
  a run. Gossip can bring the neighbour back only as a detour: `Mesh.PurgeMakesLoop` is
  a run, all links up, after which the only route to a live node leads back and forth
  between two others. In synchronous rounds every route ends like that: the costs that
  are left count to infinity (`TickedRounds.CountsToInfinity`,
  `TickedRounds.KnownForGood`, and `CountingUp.AsyncCountsUp` without synchrony) and no
  forwarded frame arrives (`TickedRounds.DeliversExactly`).
- Gossip is described as ordered by cost, but it is sorted only when it has to be cut
  off (`pkg/mesh/routing/gradient.go:284-289`). `GossipOrder.AnswersSortedExactly` gives
  the exact condition and `GossipOrder.UnsortedExample` an unsorted answer.
- The matcher is described as equivalent to expansion. It is not, in either direction:
  - It rejects expanded names for adjacent brackets, for values wider than the padding,
    and where the literal after a bracket is found inside the number, as `n[1-2]2`
    rejects `n22` (`MatchExamples.RejectsExpanded`). `Matching.MatchAcceptsAllExactly` gives the exact condition for terms
    whose brackets are not separated by digits alone, `Matching.StumblingRejects` a
    rejected family for any separators.
  - It accepts numbers with extra zeros where a bracket is not padded, as `n[1-3]` accepts
    `n01` (`MatchExamples.AcceptsUnexpanded`): `Matching.AcceptedIsExpandedExactly`.
  - It cuts at commas inside brackets: `Unions.CommasExactly` is the exact condition,
    `Unions.CommaReached` says which names end in an error.
- A blank part between commas is skipped by the fast matcher and is an error where the
  pattern is expanded: `PatternExamples.BlankPart`.
- Folding prints every number of a group at the widest padding found in it, so
  expanding the text again may give other names, as in `FoldRoundTrip.FoldChangesNames`.
  `FoldRoundTrip.FoldRoundTrip` says exactly when it gives the same.
- A flood with a hop budget can miss nodes that are near enough, when a copy that has
  taken a detour arrives first: `Coverage.FloodStopsShort` is such a flood and
  `Coverage.FloodCoversExactly` the exact condition.
- The reducer takes any k, but for a k that is not positive the first push indexes an
  empty slice: `TopKs.TopK.Push`.
- Merging an announced host is described as adding it. Behind an expired record it
  stays hidden: `Resolvers.MergedIsLive`.
- The frame builder's comment promises no frames for an empty cache; it sends one
  empty frame (`pkg/mesh/api/bootstrap.go:56-70`).

## Model

| member | source | states |
|---|---|---|
| Routes.RouteBudget | pkg/mesh/routing/gradient.go:202-208 | the largest number of routes whose estimated size fits the frame with its overhead, and at least one |
| Routes.BudgetIs | pkg/mesh/routing/gradient.go:202-208 | the formula with its numbers: 40 bytes a route behind 128 of overhead, and 816 routes in the default frame |
| Routes.BeforeIs | pkg/mesh/routing/gradient.go:356-366 | node identifiers are put in the byte-wise order of their names |
| Routes.Cheapest | pkg/mesh/routing/gradient.go:156-176 | the loop over the paths of a target finds a path of least cost among all of them |
| Routes.FullAnswer | pkg/mesh/routing/gradient.go:258-289 | an answer that is not cut off names every known target, each at its least cost |
| Routes.TruncateValid | pkg/mesh/routing/gradient.go:284-289 | sorting by cost and cutting at the budget leaves no cheaper target out for a dearer one |
| Routes.SameCostsSameGossip | pkg/mesh/routing/gradient.go:123-152 | a refresh that keeps the cost of every entry keeps a cached answer right, order included, so not marking it dirty is correct |
| Routes.ListsFilter | pkg/mesh/routing/gradient.go:386-446 | filtering the list of a target in place drops exactly the entries the filter rejects and counts them |
| GradientTables.GradientTable.UpdateRoute | pkg/mesh/routing/gradient.go:123-152 | the new table is the old one with exactly one entry learned, and a clean cache is still a valid answer |
| GradientTables.GradientTable.BestRoute | pkg/mesh/routing/gradient.go:156-176 | a next hop of least cost for the target, or nothing exactly when no path is known |
| GradientTables.GradientTable.ProcessGossip | pkg/mesh/routing/gradient.go:184-194 | the table absorbs the advertised routes through the sender, and the sender itself |
| GradientTables.AbsorbIs | pkg/mesh/routing/gradient.go:184-194 | exactly the entries through the sender for the named targets change, to advertised cost plus the sender's impedance; never a route to the node itself |
| GradientTables.GradientTable.AddDirectNeighbor | pkg/mesh/routing/gradient.go:380-382 | the neighbour is its own next hop at the given impedance |
| GradientTables.GradientTable.GenerateGossipBudgeted | pkg/mesh/routing/gradient.go:236-305 | cached or recomputed, the routes sent are a valid answer for the current table and budget, sorted by cost whenever they had to be cut off, with the capabilities of the horizon |
| GradientTables.GradientTable.BestOfEach | pkg/mesh/routing/gradient.go:258-274 | one route for every known target, at its least cost |
| GossipOrder.AnswersSortedExactly | pkg/mesh/routing/gradient.go:258-289 | every answer is sorted by cost if and only if there are more targets than fit or all targets cost the same |
| GossipOrder.UnsortedExample | pkg/mesh/routing/gradient.go:258-289 | two routes within the budget, sent dearest first |
| GradientTables.GradientTable.RemoveNeighbor | pkg/mesh/routing/gradient.go:386-411 | exactly the entries through the neighbour go, the others stay as they are, and the cache stays coherent |
| GradientTables.GradientTable.PurgeStale | pkg/mesh/routing/gradient.go:418-446 | exactly the entries not refreshed for the age or longer go, their number is returned, and the cache stays coherent |
| Horizon.CapHorizonRanked | pkg/mesh/routing/gradient.go:324-376 | the capability subset is the ranked nodes that fit, then the least names of the rest |
| Horizon.HorizonOrderIndependent | pkg/mesh/routing/gradient.go:324-376 | the subset depends neither on the order of the routes nor on the order of the map |
| Horizon.HorizonContents | pkg/mesh/routing/gradient.go:324-376 | when the ranked routes fit: all of them with known capabilities, then the lexicographically least others, as many as fit, never the node itself |
| Horizon.DrainInOrder | pkg/mesh/routing/gradient.go:331-347 | a ranked node with known capabilities is left out only if those ranked before it used the budget up |
| Mesh.RunKeepsInv | pkg/mesh/api/control.go:69-85 | every reachable state of the asynchronous protocol keeps the walk invariant, for tables and for frames in flight |
| Mesh.StepKeepsInv | pkg/mesh/api/control.go:313-377 | connecting, registering, purging, gossiping, late or repeated delivery, loss and time each keep the invariant |
| Mesh.RoutesAreWalks | pkg/mesh/routing/gradient.go:184-194 | in every run, each stored cost is the weight of a walk over links that ever came up, from the next hop to the target, and no node stores a route to itself |
| Mesh.NoRouteTooCheap | pkg/mesh/routing/gradient.go:184-194 | no stored cost is below a bound that every real walk to the target meets |
| Mesh.DirectRouteExpires | pkg/mesh/api/control.go:322-324 | after a purge a direct route is still there exactly when it was registered less than three intervals ago |
| Mesh.LiveNeighborForgotten | pkg/mesh/api/control.go:448-460 | a concrete run in which a connected neighbour's direct route is purged because nothing refreshes it |
| Mesh.PurgeMakesLoop | pkg/mesh/api/control.go:196-214 | a concrete run on a path of three nodes, no link lost, after which the only routes to the third node lead from the first to the second and back |
| Rounds.RoundIs | pkg/mesh/api/control.go:69-85 | what one synchronous round does to each entry: the neighbour's least cost plus its impedance, or nothing |
| Rounds.RunKeeps | pkg/mesh/routing/gradient.go:184-194 | after k rounds in which nothing is purged, every cost is that of a walk of at most k + 1 links, and no such walk is cheaper than the stored cost |
| Rounds.RoundsComputeShortest | pkg/mesh/routing/gradient.go:184-194 | while nothing is purged: after round k a target is known exactly when a walk of at most k + 1 links reaches it, at the least cost of such a walk |
| Rounds.CostsNeverRise | pkg/mesh/routing/gradient.go:184-194 | while nothing is purged, a known target stays known and its least cost never rises from round to round |
| Forwarding.ShortWalk | pkg/mesh/routing/gradient.go:156-176 | every walk is matched by one that repeats no node and costs no more |
| Forwarding.CostsAreFinal | pkg/mesh/routing/gradient.go:184-194 | while nothing is purged: from round |nodes| - 2 on, the costs are those of true shortest paths of any length |
| Forwarding.SameFinalCost | pkg/mesh/routing/gradient.go:184-194 | while nothing is purged, from then on the costs no longer change |
| Forwarding.FixpointDescends | pkg/mesh/routing/gradient.go:156-194 | at a fixpoint of a round without purging, handing a frame to a cheapest next hop leaves at least 1 less to go |
| Forwarding.RoundsDescend | pkg/mesh/routing/gradient.go:156-194 | while nothing is purged, the state after every round, final or not, has that property |
| Forwarding.ForwardingArrives | pkg/mesh/api/control.go:183-215 | forwarding takes at most floor(cost) hops, visits no node twice and never gets stuck |
| Forwarding.DeliveryExists | pkg/mesh/api/control.go:183-215 | forwarding to a known target does arrive |
| Forwarding.RunsDeliver | pkg/mesh/api/control.go:183-215 | while nothing is purged: after every round, a frame for a target within k + 1 links is delivered without loops in at most floor(cost) hops, whichever cheapest next hop each node picks |
| TickedRounds.BeforeExpiry | pkg/mesh/api/control.go:313-377 | ticks less than three intervals after the registration purge nothing and are plain rounds |
| TickedRounds.RoundsExactly | pkg/mesh/api/control.go:313-377 | ticks are rounds without purging if and only if fewer than three intervals have passed since the registration |
| TickedRounds.DirectRouteExactly | pkg/mesh/api/control.go:322-324 | a live neighbour has a direct route if and only if fewer than three intervals have passed since it registered |
| TickedRounds.TickedShortest | pkg/mesh/api/control.go:313-377 | while fewer than three intervals have passed, round k knows exactly what walks of at most k + 1 links reach, at their least cost |
| TickedRounds.RoundLong | pkg/mesh/routing/gradient.go:184-194 | once the direct routes are gone, every round replaces every entry by that of a walk one link longer |
| TickedRounds.TickedCosts | pkg/mesh/api/control.go:313-377 | from the first tick m after three intervals on, a target is known after round k exactly when a walk of k - m + 3 to k + 1 links first comes to it at its end, at the least cost of such a walk |
| TickedRounds.CountsToInfinity | pkg/mesh/api/control.go:313-377 | with regular ticks, from round 3 on every stored cost is that of a walk of at least k links, and so at least k |
| TickedRounds.KnownForGood | pkg/mesh/api/control.go:313-377 | what is known after that stays known, at a cost that grows without bound although nothing changes |
| TickedRounds.NeverArrives | pkg/mesh/api/control.go:196-214 | after three intervals no node has the target as next hop, so no forwarded frame reaches it |
| TickedRounds.DeliversExactly | pkg/mesh/api/control.go:183-215 | forwarding to a known target is loop-free, and arrives, if and only if fewer than three intervals have passed since the registration |
| CountingUp.StepAges | pkg/mesh/api/control.go:313-377 | every step of the asynchronous protocol keeps every route in tables and frames as long as its age demands |
| CountingUp.AsyncNothingExpires | pkg/mesh/api/control.go:322-324 | in the first three intervals of any asynchronous run purging drops nothing, whenever nodes tick |
| CountingUp.AsyncPurge | pkg/mesh/api/control.go:322-324 | a purge three intervals after the last registration or later leaves no direct route, in any asynchronous run |
| CountingUp.AsyncNeverDirect | pkg/mesh/api/control.go:196-214 | from then on no direct route comes back, so no node ever hands a frame straight to its target |
| CountingUp.AsyncCountsUp | pkg/mesh/api/control.go:313-377 | in any asynchronous run, with jittered ticks, loss and reordering, what survives a purge is a walk with one more link for every three intervals and a delay, and costs at least as much |
| RangeSets.CanonicalUnique | pkg/mesh/nodeset/rangeset.go:281-291 | two canonical range lists with the same elements are the same list |
| RangeSets.RangeSet.Contains | pkg/mesh/nodeset/rangeset.go:46-52 | binary search decides membership |
| RangeSets.RangeSet.Add | pkg/mesh/nodeset/rangeset.go:56-93 | the elements gain exactly the interval, and the ranges stay sorted, disjoint and non-adjacent |
| RangeSets.RangeSet.Remove | pkg/mesh/nodeset/rangeset.go:97-122 | the elements lose exactly the interval, and the ranges stay canonical |
| RangeSets.RangeSet.Expand | pkg/mesh/nodeset/rangeset.go:125-133 | the elements in increasing order, once each |
| RangeSets.RangeSet.Union | pkg/mesh/nodeset/rangeset.go:222-228 | a fresh set with the union of the elements |
| RangeSets.RangeSet.Difference | pkg/mesh/nodeset/rangeset.go:231-237 | a fresh set with the difference of the elements |
| RangeSets.RangeSet.Intersection | pkg/mesh/nodeset/rangeset.go:240-258 | the two-pointer walk gives the common elements |
| RangeSets.RangeSet.SymmetricDifference | pkg/mesh/nodeset/rangeset.go:262-267 | the elements in exactly one of the two |
| RangeSets.RangeSet.IsSubset | pkg/mesh/nodeset/rangeset.go:270-273 | true exactly when the elements are contained |
| RangeSets.RangeSet.IsSuperset | pkg/mesh/nodeset/rangeset.go:276-278 | true exactly when the elements contain the other's |
| RangeSets.RangeSet.Equal | pkg/mesh/nodeset/rangeset.go:281-291 | comparing range by range is equality of the element sets |
| RangeSets.RangeSet.Copy | pkg/mesh/nodeset/rangeset.go:294-301 | a fresh set with the same elements and padding |
| RangeSets.ListingUnique | pkg/mesh/nodeset/rangeset.go:125-133 | an increasing listing of a set is determined by the set |
| Brackets.ParseBracketExpr | pkg/mesh/nodeset/parser.go:20-100 | the parser returns exactly the values and the widest padding that the text stands for, and fails on the first faulty part with its error |
| BracketText.BracketIs | pkg/mesh/nodeset/parser.go:20-100 | good parts between commas stand together for what any of them stands for, at the widest padding; the first faulty part decides the error |
| BracketText.RangeIs | pkg/mesh/nodeset/parser.go:46-68 | a range without a step, with its errors in the order in which they are found |
| BracketText.SteppedIs | pkg/mesh/nodeset/parser.go:34-83 | a range with a step, with its errors in the order in which they are found |
| BracketText.ValueIs | pkg/mesh/nodeset/parser.go:84-96 | a value alone, or the error for it; what follows a slash makes no difference to it |
| BracketText.PartTrimmed | pkg/mesh/nodeset/parser.go:29-33 | spaces around a part make no difference, and a blank part adds nothing |
| BracketText.PaddingIs | pkg/mesh/nodeset/parser.go:103-109 | padding is asked for by a zero in front of more digits |
| BracketText.NothingInBracket | pkg/mesh/nodeset/parser.go:20-23 | nothing between the brackets is an error |
| BracketText.NumberIs | pkg/mesh/nodeset/parser.go:54-61 | a number is digits, with a sign in front or not |
| BracketText.NotANumber | pkg/mesh/nodeset/parser.go:54-61 | nothing else is a number |
| BracketText.NegativeIs | pkg/mesh/nodeset/rangeset.go:214-219 | a negative number is printed with its sign in front of the zeros, which counts for the width |
| Brackets.AddSpan | pkg/mesh/nodeset/parser.go:44-83 | a range, stepped or not, adds exactly its values, and each faulty field has its own error |
| Brackets.AddSteps | pkg/mesh/nodeset/parser.go:77-83 | the stepping loop adds lo, lo + step, ... up to hi |
| BracketFold.DetectStep | pkg/mesh/nodeset/rangeset.go:194-211 | the common step of two or more evenly spaced values, 0 if there is none, and 1 for fewer than two |
| BracketFold.StepUnique | pkg/mesh/nodeset/rangeset.go:194-211 | a list of values has only one such step |
| BracketFold.Fold | pkg/mesh/nodeset/rangeset.go:148-176 | the text is empty, one number, a stepped range or a list of ranges, as the elements demand |
| BracketFold.SteppedExactly | pkg/mesh/nodeset/rangeset.go:148-176 | the text has a step if and only if there are two or more values with equal gaps of more than one, and then it is the first, the last and the gap; otherwise it lists the ranges |
| BracketFold.FoldRanges | pkg/mesh/nodeset/rangeset.go:179-190 | the text of the ranges, joined by commas |
| BracketFold.ParseStepped | pkg/mesh/nodeset/rangeset.go:163-173 | reading a stepped range back gives its bounds, its step and its padding |
| BracketFold.ParseJoined | pkg/mesh/nodeset/rangeset.go:179-190 | reading a list of ranges back gives all their elements and the padding |
| BracketFold.ProgressionIsSteps | pkg/mesh/nodeset/rangeset.go:194-211 | an evenly spaced list is exactly the stepped range from its first to its last value |
| BracketFold.BracketRoundTrip | pkg/mesh/nodeset/rangeset.go:148-176 | parsing the folded text of a canonical non-negative set gives the same integers, under a padding that prints each as before |
| BracketFold.ExpandStrings | pkg/mesh/nodeset/rangeset.go:137-144 | all elements in order as text at the padding of the set |
| BracketFold.FoldedTextExpands | pkg/mesh/nodeset/rangeset.go:137-176 | the strings printed from the parsed folded text are those printed from the set |
| Cartesian.RankOfChoice | pkg/mesh/nodeset/parser.go:262-293 | every output index below the product is the rank of its tuple of choices |
| Cartesian.ChoiceOfRank | pkg/mesh/nodeset/parser.go:262-293 | every tuple of choices is that of exactly the index the strides give it |
| Cartesian.ChoicesInOrder | pkg/mesh/nodeset/parser.go:262-293 | smaller tuples, compared position by position, have smaller indices |
| Cartesian.ProductAt | pkg/mesh/nodeset/parser.go:262-293 | the string at an index is the one its tuple of choices spells |
| Cartesian.CheckedTotal | pkg/mesh/nodeset/parser.go:229-253 | the running product never passes the limit, and the test by division fails exactly when the full product up to the first empty bracket would |
| Cartesian.Strides | pkg/mesh/nodeset/parser.go:262-270 | the stride of a bracket is the product of the sizes after it |
| Cartesian.NameAt | pkg/mesh/nodeset/parser.go:276-293 | the digits taken with the strides spell the string of the index |
| Cartesian.CartesianExpand | pkg/mesh/nodeset/parser.go:218-296 | all combinations in lexicographic order, or the limit error |
| Cartesian.ExpandFailsExactly | pkg/mesh/nodeset/parser.go:229-253 | with no empty bracket and a positive limit it fails exactly when there are more combinations than the limit |
| Patterns.SplitBrackets | pkg/mesh/nodeset/parser.go:156-204 | the segments of a term, or the first error in it |
| Patterns.ExpandTerm | pkg/mesh/nodeset/parser.go:118-152 | the names a term stands for: a group, a plain name or an expanded product |
| Patterns.Tokenize | pkg/mesh/nodeset/parser.go:400-438 | the terms and operators outside brackets, or an unbalanced bracket |
| Patterns.EvaluateStuck | pkg/mesh/nodeset/parser.go:340-396 | once a term fails, the whole expression has that error |
| Patterns.ParseExpr | pkg/mesh/nodeset/parser.go:328-396 | the set an expression denotes, left to right, or the first error; the size limit is applied to the final set |
| Expressions.OperatorLaw | pkg/mesh/nodeset/parser.go:328-396 | for any expression, operator and further term: it stands for something exactly when both sides do, and a name is in it by the law of the operator |
| Expressions.DenotesOperator | pkg/mesh/nodeset/parser.go:328-396 | the same for what is denoted, with nothing but the size test added |
| Expressions.OperandMeans | pkg/mesh/nodeset/parser.go:400-438 | a text without operators outside brackets stands for the names of the trimmed term |
| Expressions.GroupMeans | pkg/mesh/nodeset/parser.go:300-318 | the source of a group reference is what stands before its first colon; its members are looked up by both |
| Expressions.PlainGroupMeans | pkg/mesh/nodeset/parser.go:300-318 | without a colon the source is empty |
| Expressions.OperatorTrails | pkg/mesh/nodeset/parser.go:427-435 | an operator with nothing behind it |
| Expressions.OperandMissing | pkg/mesh/nodeset/parser.go:413-418 | nothing between two operators |
| Expressions.BracketUnmatched | pkg/mesh/nodeset/parser.go:407-411 | a closing bracket that was not opened |
| Expressions.BracketUnclosed | pkg/mesh/nodeset/parser.go:423-426 | an opening bracket that is not closed |
| Expressions.NothingMeant | pkg/mesh/nodeset/parser.go:329-332 | a pattern of nothing but spaces is an error |
| Text.TrimsAround | pkg/mesh/nodeset/parser.go:413-435 | exactly the spaces around a text are trimmed |
| Text.TrimSplits | pkg/mesh/nodeset/parser.go:413-435 | what is trimmed off any text are spaces, and what is left neither begins nor ends in one |
| Text.SpacesAre | pkg/mesh/nodeset/parser.go:413-435 | the six characters that count as spaces |
| PatternExamples.DifferenceDenotes | pkg/mesh/nodeset/parser.go:361-365 | n[1-3]!n2 denotes n1 and n3 |
| PatternExamples.IntersectionDenotes | pkg/mesh/nodeset/parser.go:366-372 | n[1-3]&n2 denotes n2 |
| PatternExamples.SymmetricDenotes | pkg/mesh/nodeset/parser.go:373-386 | n[1-2]^n[2-3] denotes n1 and n3 |
| Patterns.Expand | pkg/mesh/nodeset/nodeset.go:343-349 | the denoted set, sorted, without repetitions |
| Ordering.LessIs | pkg/mesh/nodeset/nodeset.go:343-349 | names are sorted byte by byte: the first difference decides, and a name comes before its continuations |
| Folding.SplitTrailingNumber | pkg/mesh/nodeset/fold.go:69-78 | the longest run of digits at the end, and what stands before it |
| Folding.GroupByPrefix | pkg/mesh/nodeset/fold.go:55-64 | every name is in the group of its prefix, in order, and there are no empty groups |
| Folding.ReadEntries | pkg/mesh/nodeset/fold.go:82-122 | the numbers of a group, its widest padding, and the names without a number |
| Folding.BuildRanges | pkg/mesh/nodeset/fold.go:124-135 | values in order become canonical ranges with the same elements |
| Folding.FoldGroup | pkg/mesh/nodeset/fold.go:81-154 | a group becomes one numeric term, if it has numbers, and its other names |
| Folding.FoldNumbers | pkg/mesh/nodeset/fold.go:124-146 | the numbers of a group become one name, or a bracket that is the fold of their set |
| Folding.MaxPadIs | pkg/mesh/nodeset/fold.go:116-122 | the padding of a group is the length of its longest number with a zero in front, or none |
| Folding.FoldNodes | pkg/mesh/nodeset/fold.go:12-51 | the terms of all prefixes in order, joined by commas |
| FoldExamples.FoldsMixed | pkg/mesh/nodeset/fold.go:12-154 | b1, a2, gw and b2 are folded to a2,b[1-2],gw |
| FoldRoundTrip.ScanJoin | pkg/mesh/nodeset/parser.go:400-438 | the tokenizer cuts joined terms at the commas between them and at no comma inside a bracket |
| FoldRoundTrip.DenotesJoin | pkg/mesh/nodeset/parser.go:328-396 | joined terms denote the union of what they denote, and fail exactly when it exceeds the limit |
| FoldRoundTrip.FoldDenotes | pkg/mesh/nodeset/fold.go:12-154 | folded text denotes the names, each reprinted at the padding of its group, when they are within the limit, and fails otherwise |
| FoldRoundTrip.SameSetIffConsistent | pkg/mesh/nodeset/fold.go:116-146 | the reprinted names are the names exactly when every group is printed at one padding |
| FoldRoundTrip.FoldRoundTrip | pkg/mesh/nodeset/fold.go:12-51 | expanding the folded text gives the names back if and only if every group is printed at one padding and the names are within the limit |
| FoldRoundTrip.FoldChangesNames | pkg/mesh/nodeset/fold.go:116-146 | the names n01 and n2 are folded to n[01-02], which denotes n01 and n02 |
| Matching.ParseIntAtoi | pkg/mesh/nodeset/nodeset.go:321-334 | digits only, and their value |
| Matching.CheckNumStr | pkg/mesh/nodeset/nodeset.go:530-543 | whether a bracket accepts a number: digits, one of its values, and of the width of its padding |
| Matching.MatchSimplePattern | pkg/mesh/nodeset/nodeset.go:470-528 | the loop over pattern and host name computes the recursive matching function |
| Matching.MatchOnlyIf | pkg/mesh/nodeset/nodeset.go:470-528 | an accepted name spells the pattern with an accepted number for each bracket, and each literal is first found right after the number before it |
| Matching.MatchIf | pkg/mesh/nodeset/nodeset.go:470-528 | every such spelling is accepted, whatever the literals are |
| Matching.MatchAcceptsExpansion | pkg/mesh/nodeset/nodeset.go:470-543 | every name of the expansion of any well-formed term is accepted when every value fits its padding and the literal behind it is found right after it |
| Matching.MatchedIsExpansion | pkg/mesh/nodeset/nodeset.go:470-543 | every accepted name is in the expansion once the leading zeros of unpadded brackets are stripped |
| Matching.MatchAcceptsAllExactly | pkg/mesh/nodeset/nodeset.go:470-543 | if brackets are not separated by digits alone, the matcher accepts the whole expansion if and only if every value fits its padding and the literal behind it is found right after it, or the expansion is empty |
| Matching.NonDigitFound | pkg/mesh/nodeset/nodeset.go:506-522 | a literal that is not all digits is always found right after the number in front of it |
| Matching.FindIs | pkg/mesh/nodeset/nodeset.go:506-522 | the literal is looked for from the left: its first place, or none |
| Matching.StumblingRejects | pkg/mesh/nodeset/nodeset.go:506-528 | a name is rejected when a literal, digits or not, is first found inside the number before it and what is cut off is no number of the bracket |
| Matching.AcceptedIsExpandedExactly | pkg/mesh/nodeset/nodeset.go:470-543 | for terms that can match, with literals that are not all digits, every accepted name is in the expansion if and only if every bracket is padded |
| Matching.PaddedAcceptsOnlyExpanded | pkg/mesh/nodeset/nodeset.go:470-543 | for any well-formed term whose brackets are all padded, every accepted name is in the expansion |
| Matching.AdjacentNeverMatches | pkg/mesh/nodeset/nodeset.go:506-522 | a pattern with adjacent brackets accepts no name at all |
| MatchExamples.RejectsExpanded | pkg/mesh/nodeset/nodeset.go:506-528 | the pattern n[1-2]2 expands to n22 and the matcher rejects that name |
| MatchExamples.AcceptsUnexpanded | pkg/mesh/nodeset/nodeset.go:530-543 | the pattern n[1-3] matches n01, which it does not expand to |
| MatchExamples.FitsNotNeeded | pkg/mesh/nodeset/nodeset.go:506-528 | the pattern [1-10]0[5] accepts all its names although the zero is found inside the ten |
| Matching.MatchFast | pkg/mesh/nodeset/nodeset.go:449-466 | the answer is that of the comma-separated parts in order |
| Matching.FirstDecides | pkg/mesh/nodeset/nodeset.go:449-466 | the first part that is neither blank nor rejects the name decides, with its match or its error; without one the answer is no |
| Unions.UnionDenotes | pkg/mesh/nodeset/parser.go:328-396 | a union of well-formed terms denotes the names that some term expands to |
| Unions.UnionMatches | pkg/mesh/nodeset/nodeset.go:449-466 | without commas in brackets the fast matcher accepts every denoted name, and only names that are denoted once leading zeros are stripped |
| Unions.CommaReached | pkg/mesh/nodeset/nodeset.go:449-466 | a name of the first term with a comma in a bracket is accepted if an earlier term accepts it, and is an unclosed bracket otherwise |
| Unions.CommasExactly | pkg/mesh/nodeset/nodeset.go:449-466 | the fast matcher agrees with expansion on every name if and only if no bracket lists its values with commas |
| Spacing.SpacedMatches | pkg/mesh/nodeset/nodeset.go:449-466 | spaces around the terms and blank parts between them make no difference to the fast matcher |
| Spacing.SpacedDenotes | pkg/mesh/nodeset/parser.go:400-438 | spaces around the terms make no difference to what a union denotes |
| Spacing.SpacedAgree | pkg/mesh/nodeset/nodeset.go:449-466 | so the matcher accepts every denoted name of a spaced union as well |
| PatternExamples.SpacedUnionMatches | pkg/mesh/nodeset/nodeset.go:449-466 | n[1-2], n[5-6] matches n5 |
| PatternExamples.SpacedUnionDenotes | pkg/mesh/nodeset/parser.go:400-438 | n1, n2 denotes n1 and n2 |
| PatternExamples.BlankPart | pkg/mesh/nodeset/nodeset.go:449-466 | n1,,n2 matches n2, and is an error where it is expanded |
| CapabilityIndexes.PrefixConfines | pkg/mesh/routing/capability_index.go:507-529 | everything that extends a prefix with a colon lies in the namespace of the prefix |
| CapabilityIndexes.PutNsIndexes | pkg/mesh/routing/capability_index.go:210-232 | putting one offer into the namespace buckets keeps them the exact inverse of the lists |
| CapabilityIndexes.DropNsIndexes | pkg/mesh/routing/capability_index.go:439-473 | taking one offer out, with the buckets it empties, keeps them the exact inverse of the lists |
| CapabilityIndexes.Admitted | pkg/mesh/routing/capability_index.go:198-207 | what is taken in: no capability that is too long, and no more than the limit |
| CapabilityIndexes.Effective | pkg/mesh/routing/capability_index.go:113-122 | each limit is the configured one when positive, and 256 otherwise |
| CapabilityIndexes.AdmittedAre | pkg/mesh/routing/capability_index.go:198-207 | what is taken in are exactly the first so many of the short enough capabilities, in order |
| CapabilityIndexes.ShortConcat | pkg/mesh/routing/capability_index.go:198-207 | the short enough capabilities of two lists one after the other |
| CapabilityIndexes.ShortOne | pkg/mesh/routing/capability_index.go:198-207 | a capability is short enough up to the limit |
| CapabilityIndexes.AdmittedWhole | pkg/mesh/routing/capability_index.go:198-207 | a list that keeps the limits is taken in whole |
| CapabilityIndexes.NamespaceIs | pkg/mesh/routing/capability_index.go:507-529 | the namespace is the text in front of the first colon, and empty without one |
| CapabilityIndexes.SameAdmitted | pkg/mesh/routing/capability_index.go:155-170 | the comparison finds exactly whether the stored list is what would be taken in now |
| CapabilityIndexes.CapabilityIndex.Update | pkg/mesh/routing/capability_index.go:136-233 | all five maps agree afterwards and hold the admitted list at the impedance, the whole list when it keeps the limits, on the touching path and on the rebuilding path alike |
| CapabilityIndexes.CapabilityIndex.Refresh | pkg/mesh/routing/capability_index.go:243-270 | impedance and refresh time of a known node move, everywhere at once; an unknown node stays unknown |
| CapabilityIndexes.CapabilityIndex.UpdateImpedance | pkg/mesh/routing/capability_index.go:318-342 | the impedance of a known node moves everywhere at once |
| CapabilityIndexes.CapabilityIndex.PurgeNode | pkg/mesh/routing/capability_index.go:432-473 | the node is gone from all maps, and so are the buckets it emptied |
| CapabilityIndexes.CapabilityIndex.PurgeStale | pkg/mesh/routing/capability_index.go:279-301 | exactly the nodes not refreshed within the age are gone, and their number is returned |
| CapabilityIndexes.CapabilityIndex.Lookup | pkg/mesh/routing/capability_index.go:347-369 | exactly the nodes that list the capability, once each, lightest first |
| CapabilityIndexes.CapabilityIndex.LookupWildcard | pkg/mesh/routing/capability_index.go:379-428 | exactly the nodes that list anything with the prefix, once each, lightest first, from the namespace bucket as from the full scan |
| CapabilityIndexes.ScanFindsOffering | pkg/mesh/routing/capability_index.go:384-414 | any index that holds the matching offers finds the same nodes at the same impedances |
| CapabilityIndexes.NsHoldsMatches | pkg/mesh/routing/capability_index.go:384-400 | the namespace bucket of a prefix holds every offer that matches it |
| CapabilityIndexes.StateFromLists | pkg/mesh/routing/capability_index.go:136-233 | the lists and impedances determine the nested maps, so the touching path and the rebuilding path end in the same state |
| Sonars.QueryNameUnique | pkg/mesh/routing/sonar.go:335-338 | two queries share a name only if they are the same query of the same node, whatever the node names |
| Sonars.Base36Is | pkg/mesh/routing/sonar.go:221-228 | the counter in digits and lower-case letters, most significant first |
| Sonars.Sonar.ContainsSeen | pkg/mesh/routing/sonar.go:115-125 | remembered exactly while its time has not run out; an expired name is dropped |
| Sonars.Sonar.AddSeen | pkg/mesh/routing/sonar.go:97-109 | everything that outlived its time is swept out and the name is recorded now |
| Sonars.Sonar.ProcessWhoHas | pkg/mesh/routing/sonar.go:161-183 | first seen exactly when not remembered; a reply exactly when first seen and offered |
| Sonars.Sonar.ShouldForward | pkg/mesh/routing/sonar.go:194-214 | forwarded exactly when foreign, with hops left, and not remembered |
| Sonars.Sonar.CreateWhoHas | pkg/mesh/routing/sonar.go:221-228 | a name this node has not used before |
| Sonars.HeldSince | pkg/mesh/routing/sonar.go:97-125 | over any history, a name is held at the time of its last admission until a later admission sweeps it out |
| Sonars.ReadmittedExactly | pkg/mesh/routing/sonar.go:97-183 | exactly when a repeated query counts as first seen again |
| Sonars.FirstSeenSpaced | pkg/mesh/routing/sonar.go:161-183 | two first-seen verdicts for a name at one node are at least one lifetime apart |
| Floods.LoadFalls | pkg/mesh/api/control.go:117-177 | every receipt and every loss makes the weighted load of frames in flight strictly smaller, whatever the verdict |
| Floods.FloodEnds | pkg/mesh/api/control.go:117-177 | a flood with a hop budget has no more receipts than a bound fixed at its start, for changing links and forgetful seen sets |
| Floods.RememberedStays | pkg/mesh/routing/sonar.go:97-125 | a query taken in within one lifetime is not forgotten, whatever other queries sweep the set |
| Floods.FrugalStays | pkg/mesh/api/control.go:117-177 | no link carries a second copy in the same direction, and none goes back to where the first copy came from |
| Floods.FloodIsSmall | pkg/mesh/api/control.go:117-177 | a flood within one lifetime sends at most one frame per link and direction, and one less for every node it reaches |
| Coverage.FloodIsTree | pkg/mesh/api/control.go:117-177 | whatever the order of arrival, the nodes that a lossless flood has reached at its end are those of a tree that the hop budget lets grow no further |
| Coverage.TreeIsFlood | pkg/mesh/api/control.go:117-177 | every such tree is what some order of arrival makes a flood reach |
| Coverage.FloodCoversExactly | pkg/mesh/api/control.go:117-177 | every lossless flood reaches a node if and only if every such tree contains it |
| Coverage.FloodReachesAll | pkg/mesh/api/control.go:117-177 | where no path without repetitions visits more than maxHops + 2 nodes, every lossless flood reaches every node connected to the origin |
| Coverage.SmallMeshes | pkg/mesh/api/control.go:117-177 | so it is where there are at most two more nodes than hops |
| Coverage.Stars | pkg/mesh/api/control.go:117-177 | and in stars of any size with a hop budget of at least 1 |
| Coverage.FloodStopsShort | pkg/mesh/api/control.go:117-177 | a concrete flood over five nodes with two hops that misses a node three links away, because a copy with a detour arrives first |
| AsyncWriters.StepKeepsExclusive | pkg/mesh/api/async_writer.go:79-122 | the lock keeps every sender out while a stopper is between raising the flag and closing the channel |
| AsyncWriters.StepKeepsFlagFirst | pkg/mesh/api/async_writer.go:186-198 | the flag is up before the channel closes, and no sender that saw it down is still inside |
| AsyncWriters.StepKeepsInOrder | pkg/mesh/api/async_writer.go:136-175 | what was accepted is written, in hand or queued, in that order, in a queue of at most 64 |
| AsyncWriters.StepKeepsHonest | pkg/mesh/api/async_writer.go:79-122 | the accepted messages are exactly those of the calls that answer true, once each |
| AsyncWriters.NeverPanics | pkg/mesh/api/async_writer.go:79-204 | in every interleaving nothing is sent on a closed channel and none is closed twice |
| AsyncWriters.WireIsPrefix | pkg/mesh/api/async_writer.go:136-175 | the frames on the wire are those of a prefix of the accepted messages; all of them if the writer drained the queue |
| AsyncWriters.StopIsFinal | pkg/mesh/api/async_writer.go:178-204 | after a stop returned nothing more is accepted or written in any continuation |
| AsyncWriters.SomethingMoves | pkg/mesh/api/async_writer.go:79-204 | in every reachable state with an unfinished call some step continues one, so neither senders nor stoppers deadlock |
| AsyncWriters.WorkFalls | pkg/mesh/api/async_writer.go:79-204 | every step except a new call leaves less work |
| AsyncWriters.EveryCallFinishes | pkg/mesh/api/async_writer.go:79-204 | once no new calls come, any continuation is bounded by the work left, and one that cannot go on has finished every send and every stop |
| SendAnswers.AnswersExactly | pkg/mesh/api/async_writer.go:79-122 | in every run, a call answers false if and only if the flag was up at its check or 64 messages were queued when it came to the queue; otherwise it answers true with its message at the end of the queue |
| SendAnswers.FlagIsRaised | pkg/mesh/api/async_writer.go:178-204 | the flag is up exactly from the first time on that a stopper raised it |
| SendAnswers.WireIs | pkg/mesh/api/async_writer.go:136-175 | a message writes its bytes, and one that carries nothing writes nothing |
| SendAnswers.AllWritten | pkg/mesh/api/async_writer.go:136-204 | without a failed write everything that was accepted is on the wire, in order, when a stop returns |
| SendAnswers.OneSend | pkg/mesh/api/async_writer.go:79-175 | a concrete send on a fresh queue that answers true and is written |
| SendAnswers.StoppedSend | pkg/mesh/api/async_writer.go:79-204 | a concrete stop after it, and a send after that which answers false |
| SendAnswers.FailedSend | pkg/mesh/api/async_writer.go:160-174 | a concrete failed write, which ends the loop and closes the control stream |
| SendAnswers.FailedForGood | pkg/mesh/api/async_writer.go:160-174 | after a failed write nothing more is taken or written, whatever happens |
| Resolvers.AppendedIs | pkg/mesh/nucleus/resolver.go:250-266 | merging addresses loses and moves none, adds every new one and makes no duplicate |
| Resolvers.NewHost | pkg/mesh/nucleus/resolver.go:217-232 | a host that was not known is taken over field by field, and never expires |
| Resolvers.KnownHost | pkg/mesh/nucleus/resolver.go:234-266 | a known host keeps its transport, proxy and expiry, gains those it lacked, and gains addresses |
| Resolvers.AppendedConcat | pkg/mesh/nucleus/resolver.go:250-266 | addresses are appended one after the other |
| Resolvers.AppendedOne | pkg/mesh/nucleus/resolver.go:250-266 | one address goes to the end unless it is there |
| Resolvers.Resolver.AddEntryFull | pkg/mesh/nucleus/resolver.go:74-99 | whatever was known of the host is replaced; it is live until its lifetime has passed, and for good without a positive one |
| Resolvers.Resolver.Merge | pkg/mesh/nucleus/resolver.go:213-268 | the cache after the loop is that of merging the entries one by one |
| Resolvers.Resolver.AllEntries | pkg/mesh/nucleus/resolver.go:185-208 | exactly the hosts that have not expired, once each |
| Resolvers.Resolver.AllDialTargets | pkg/mesh/nucleus/resolver.go:273-293 | one target for every address of every host that has not expired |
| Resolvers.MergedHostByHost | pkg/mesh/nucleus/resolver.go:213-268 | merging entries of distinct hosts is one update per host and leaves every other host alone |
| Resolvers.MergeOrderFree | pkg/mesh/nucleus/resolver.go:213-268 | the order of the entries does not matter |
| Resolvers.MergeIdempotent | pkg/mesh/nucleus/resolver.go:213-268 | merging the same entries again changes nothing, even with repeated hosts |
| Resolvers.MergedIsLive | pkg/mesh/nucleus/resolver.go:185-268 | a merged host is shown exactly when the cache held no expired record of it |
| Resolvers.ExpiredStaysHidden | pkg/mesh/nucleus/resolver.go:213-268 | a concrete host whose fresh announcement stays hidden behind its expired record |
| Bootstraps.BuildBootstrapFrames | pkg/mesh/api/bootstrap.go:54-107 | 500 entries to a frame, the i-th in frame i / 500 with its addresses, transport and proxy, frames numbered from 0 out of their total; one empty frame for no entries |
| Bootstraps.FramesDisjoint | pkg/mesh/api/bootstrap.go:54-107 | no two frames carry the same host |
| Bootstraps.HandleBootstrapFrame | pkg/mesh/api/bootstrap.go:112-151 | a frame of another protocol version closes the peer and changes nothing; any other merges all its hosts, in whatever order |
| Bootstraps.MergeListed | pkg/mesh/api/bootstrap.go:128-140 | the order in which the hosts of a frame are listed does not matter |
| Bootstraps.FramesMergeAsOne | pkg/mesh/api/bootstrap.go:54-140 | merging the first k frames is merging the entries they cover at once |
| Bootstraps.BootstrapDelivers | pkg/mesh/api/bootstrap.go:54-151 | after all frames every unexpired host of the sender is known with all its addresses; a new one has the sender's transport and proxy, a known one keeps its own and gains only what was empty; nothing else changed |
| Bootstraps.SendBootstrapReliable | pkg/mesh/api/bootstrap.go:171-224 | frames are enqueued once and in order; all of them, or a prefix ended by a dead peer or a cancelled context; the waits are those of the backoff |
| Bootstraps.DelaysGrow | pkg/mesh/api/bootstrap.go:155-210 | the waits grow from 10 ms and stay at 500 ms from the seventh refusal in a row |
| Bootstraps.DelayTable | pkg/mesh/api/bootstrap.go:155-210 | 10, 20, 40, 80, 160, 320 and then 500 milliseconds |
| Bootstraps.WaitsStartOver | pkg/mesh/api/bootstrap.go:171-224 | an acceptance starts the waits over, and refusals in a row wait longer and longer |
| TopKs.SiftUp | internal/registry/stream/topk.go:34-37 | an appended item moves up until the heap holds again, and no item is lost |
| TopKs.SiftDown | internal/registry/stream/topk.go:38-42 | a replaced item moves down until the heap holds again, and no item is lost |
| TopKs.RootIsLeast | internal/registry/stream/topk.go:38-42 | the root of a heap is a least item |
| TopKs.TopK.Push | internal/registry/stream/topk.go:33-43 | panics exactly when k is not positive; otherwise, after any stream: a heap of min(k, n) items of it, and nothing discarded is greater than anything kept |
| TopKs.TopK.Results | internal/registry/stream/topk.go:46-59 | as many items as k allows, in descending order, none less than one that was dropped, and equal, up to ties, to sorting the whole stream and cutting it off at k |
| TopKs.KeptIsTop | internal/registry/stream/topk.go:33-59 | such a split of the stream has only one descending listing up to ties, that of the whole stream cut off |
| Pipes.RingAt | testutil/pipe.go:40-118 | the buffered bytes are those at the plain modular positions |
| Pipes.RingWrite | testutil/pipe.go:58-72 | writing at the tail adds the bytes behind those buffered, and the tail stays at (head + count) mod size |
| Pipes.RingRead | testutil/pipe.go:88-104 | reading at the head takes the oldest bytes |
| Pipes.PipeBuffer.WriteTurn | testutil/pipe.go:40-81 | one turn under the lock: closed, timed out, waiting, or as many bytes as fit before the end of the buffer |
| Pipes.PipeBuffer.ReadTurn | testutil/pipe.go:83-118 | one turn under the lock: the oldest bytes; the end of the stream only when all accepted bytes were delivered |
| Pipes.PipeBuffer.Write | testutil/pipe.go:40-81 | with readers, other writers and a close while it waits, and a deadline that may pass at any turn or before the call, exactly the reported bytes were accepted, in order, between those of the other writers; it waits only while the buffer is full and open |

## Left out

- Sockets, TLS, yamux sessions, compression, SSH deployment, configuration, the command line, HTTP and MCP serving: I/O and foreign libraries.
- Cryptography and the JSON and protobuf encodings: a frame is an abstract value.
- The collectors under `internal/sys` and `internal/registry/tools`: shallow parsing of system files.
- Relay circuits, `ringbuf.go`, `dedup.go`, the buffer pools, the impedance calculator, backoff helpers: easy members beside those modelled.
- Float rounding, and machine-integer overflow of costs, suffixes, counters and frame numbers: reals and unbounded integers stand for them.
- Unicode in names and patterns: only ASCII text is modelled.
- Aliasing between a filtered Go slice and the slice it was filtered from: path lists are sequences that are stored back.
- The capacity and reuse of pooled gossip frames in `pkg/mesh/api/control.go`: a frame carries the routes it was filled with.
- `NodeSet` set operations, `Contiguous`, `Split`, and the branches of `Match` that use globs or expand first: set operations on a map, `filepath.Match`, and membership in the modelled expansion.
- How a group name is looked up: a resolver is a map from names to members, and no resolver is one of its values.
- `AllRoutes`, `Snapshot`, `Count`, `SetLimits`, `Len`: getters and one setter.
- Response collectors of Sonar: a bounded channel per query.
- GradientTables.GradientTable.GenerateGossipBudgeted: states the routes as any valid answer, because map order and an unstable sort leave the choice among equal costs open.
- Mesh.StepKeepsInv: delivers a gossip frame route by route, which allows more runs than the atomic handler does; capabilities in frames are left to the index.
- Rounds.RoundsComputeShortest: fixed links and impedances, no truncation and no purging; `TickedRounds` adds the purge and says exactly how long this stays true, changing links and truncation are in `Mesh` only.
- TickedRounds.TickedCosts: all peers register at the same moment and all nodes tick together, less than one and a half intervals apart. For nodes that tick on their own, as the source's jitter makes them, `CountingUp` proves when purging starts to drop routes and how costs grow, but not the exact costs, which depend on the order of delivery.
- Floods.FloodIsSmall: fixed links, as the count is of the links of one mesh; `Floods.FloodEnds` allows them to change.
- Coverage.FloodCoversExactly: for floods that lose no frame and are over within one lifetime of the seen sets.
- Matching.MatchAcceptsAllExactly: where two brackets are separated by digits alone, the condition is proved sufficient (`Matching.MatchAcceptsExpansion`), names are proved rejected (`Matching.StumblingRejects`), and `MatchExamples.FitsNotNeeded` shows that the condition is not necessary there, because a name can be read in more than one way.
- Unions.CommasExactly: for unions of well-formed terms without groups and without operators other than commas.
- FoldRoundTrip.FoldRoundTrip: for a non-empty list of names without metacharacters or spaces; the nodeset language gives the others another meaning.
- Resolvers.Resolver.Merge: the branch for a record without an address set is not modelled, because every record is created with one.
- Pipes.PipeBuffer.Write: the clock readings of its turns and what others do while it waits are given in advance; deadline timers only wake it.
- AsyncWriters.EveryCallFinishes: a lock that lets a waiting stopper in before new senders, and a connection that ends every write, are taken for granted.
- Bootstraps.SendBootstrapReliable: what the queue answers and which wait ends first is a script given in advance; a script that ends leaves the call trying.
- `handlePeerDeath` removes a peer by name, whatever connection it belongs to (`pkg/mesh/api/health.go:91`): peers are names in the model.
