# Joshua chart parser, modelled in Dafny

This project models the chart of Joshua's hierarchical phrase-based decoder
(`src/joshua/decoder/chart_parser/Chart.java`). The chart runs CKY-style parsing over an input
word lattice. It keeps a grid of cells, one per lattice span `[i, j)` with `i < j <= n`. It fills
them bottom-up, narrower spans first:

- it expands each grammar's dot chart;
- it completes the span's cell, by span-level cube pruning under a pop limit or exhaustively
  otherwise;
- it closes the cell under unary rules;
- it seeds new dot items from the cell.

It then moves the widest cell into the goal cell. The model also covers:

- the constructor's synthesis of pass-through rules for out-of-vocabulary lattice arcs;
- the label filter used by constrained parsing;
- the three scans that pick a fallback hypergraph root out of a partly filled chart.

Everything the chart consults but does not implement is a function-valued field of `Env`,
`Lattice`, `SyntaxTree` or `Vocab` (`types.dfy`). That covers grammar tries, dot charts, the
scorer, cell insertion and sorting, the manual constraints, the combiners and the parse-tree
label queries. A dot chart holds the chart itself in the source, so its expansion and its
starting of dot items may read any cell: the model hands them the whole grid of cells as a
value. Every property below therefore holds whatever those collaborators compute.

The files:

- `types.dfy` — the data model.
- `spans.dfy` — the visiting order of spans and the steps taken per span.
- `rule_filter.dfy` — the constrained-parsing label filter.
- `oov.dfy` — out-of-vocabulary rule synthesis.
- `cube_prune.dfy` — rank vectors, neighbours, the choice of the best state and the pop-loop
  invariant.
- `closure.dfy` — facts about the unary agenda.
- `chart.dfy` — the `Chart` class.

The `Chart` class keeps the cell grid as an `array2<Option<Cell>>` and the dot charts and goal
cell as fields. Its methods update these in place. A cell is a value that records every
hyperedge insertion offered to it, in order, so the contracts say exactly which insertions each
operation makes.

A ghost field `grid` mirrors the cell array as a value. Each span's work returns a ghost
record: the span, the cells and dot charts it found, the completed cell, the popped states, the
nodes the unary closure expanded, the closed cell, and the cells and dot charts it left. The
main loop returns these records in order. Its contract says that their steps are the expansion
plan, that each record describes its span's work, and that each record starts from what the one
before it left, from the chart's first state to its last.

## Model

| member | source | states |
|---|---|---|
| Spans.RowShape | src/joshua/decoder/chart_parser/Chart.java:462-463 | one width's inner loop lists exactly the in-chart spans of that width, by strictly ascending start |
| Spans.ScheduleBelowShape | src/joshua/decoder/chart_parser/Chart.java:461-463 | the loops over widths below w list exactly the in-chart spans narrower than w, each strictly before the next in (width, start) order |
| Spans.ScheduleVisitsEachSpanOnce | src/joshua/decoder/chart_parser/Chart.java:461-463 | the nested loops list every span [i, j) with i < j <= n and nothing else, narrower first and by start within a width, none twice |
| Spans.RowPlanIsPlan | src/joshua/decoder/chart_parser/Chart.java:462-470 | the steps of one width's first i spans, taken span by span and skipping unreachable ones, are the plan of that row prefix |
| Spans.PlanBelowIsPlan | src/joshua/decoder/chart_parser/Chart.java:461-470 | the steps of all widths below w, taken row by row, are the plan of the schedule below w; at w = n + 1 this is the whole expansion plan |
| Spans.PlanMembers | src/joshua/decoder/chart_parser/Chart.java:467-470 | every step taken belongs to a listed span that the lattice connects: spans at infinite distance get no step |
| Spans.PlanCovers | src/joshua/decoder/chart_parser/Chart.java:472-512 | every listed span the lattice connects gets its five steps (dot expansion, completion, unary closure, dot seeding, sort) together and in that order |
| Spans.PlanNarrowerFirst | src/joshua/decoder/chart_parser/Chart.java:461-463 | if the spans come narrower first, so do the steps taken for them |
| Spans.ExpansionPlan | src/joshua/decoder/chart_parser/Chart.java:461-514 | over the whole schedule: each step is on an in-chart reachable span; every such span gets its five steps in a block; widths never decrease along the steps |
| RuleFilter.FilterKeepsExactlyAllowed | src/joshua/decoder/chart_parser/Chart.java:647-650 | the filter keeps only rules whose left-hand side is the goal symbol or an allowed label, and keeps each such rule as many times as it occurs |
| RuleFilter.FilterPreservesOrder | src/joshua/decoder/chart_parser/Chart.java:647-650 | the filtered list is a subsequence of the input: the kept rules stay in their original order |
| RuleFilter.FilterKeepsAllowed | src/joshua/decoder/chart_parser/Chart.java:647-650 | a list whose rules are all allowed passes unchanged |
| RuleFilter.FilterIdempotent | src/joshua/decoder/chart_parser/Chart.java:647-650 | filtering a filtered list changes nothing |
| Oov.IsTrueOov | src/joshua/decoder/chart_parser/Chart.java:177-188 | the early-exit scan of the input grammars reports a true unknown exactly when no grammar's trie root matches the word at a position with rules |
| Oov.SynthesizeArc | src/joshua/decoder/chart_parser/Chart.java:172-219 | one arc's rules: none for the start or stop symbol or a known word under true-OOVs-only; else one rule per constituent label of [k, k+1) in label mode, or one default-nonterminal rule, with the target marked when marking is on |
| Oov.SynthesizeNode | src/joshua/decoder/chart_parser/Chart.java:168-228 | the rules of one lattice node are its arcs' rules, arc by arc |
| Oov.SynthesizeOovRules | src/joshua/decoder/chart_parser/Chart.java:167-228 | the constructor's loop yields the rules of every node, node by node |
| Oov.OovRuleShape | src/joshua/decoder/chart_parser/Chart.java:172-217 | every synthesised rule has arity 0, one eligible source word and one target word, which is the source word unless marking is on; outside label mode its left-hand side is the default nonterminal |
| Oov.NodeRuleShape | src/joshua/decoder/chart_parser/Chart.java:168-217 | the same shape for the rules of one node |
| Oov.ArcRuleCount | src/joshua/decoder/chart_parser/Chart.java:203-217 | an ineligible arc gets no rule; in label mode an eligible arc gets exactly one rule per label, in label order; otherwise exactly one default-nonterminal rule |
| Oov.OovRulesCoverArcs | src/joshua/decoder/chart_parser/Chart.java:167-228 | no arc's rules are lost: each arc's rules are among the synthesised rules |
| Oov.NodeRulesCoverArcs | src/joshua/decoder/chart_parser/Chart.java:168-228 | the same for the arcs of one node |
| Oov.TargetDeterminesSource | src/joshua/decoder/chart_parser/Chart.java:191-195 | with an injective marking, two synthesised rules with the same target have the same source |
| CubePrune.SeedInBounds | src/joshua/decoder/chart_parser/Chart.java:336-351 | the all-ones rank vector of length 1 + number of antecedent super nodes is in bounds when the dot node has a rule, and selects each super node's best node |
| CubePrune.NeighbourInBounds | src/joshua/decoder/chart_parser/Chart.java:383-396 | raising coordinate k of an in-bounds rank vector stays in bounds exactly when the skip test lets it through |
| CubePrune.NeighbourRaisesSum | src/joshua/decoder/chart_parser/Chart.java:383-389 | a neighbour's ranks sum to one more than the popped state's |
| CubePrune.BestIndex | src/joshua/decoder/chart_parser/Chart.java:364 | the polled state has the highest score in the queue, and is the first one with that score |
| CubePrune.PushNeighbours | src/joshua/decoder/chart_parser/Chart.java:383-427 | the queue only grows at its end; each state added is a well-formed, not yet visited neighbour of the popped state, with rank sum one higher; no two added share a key; the visited set grows by exactly their keys; afterwards every in-bounds neighbour of the popped state is visited |
| CubePrune.WithoutKeepsKeysDistinct | src/joshua/decoder/chart_parser/Chart.java:364 | polling removes exactly the polled state's key from the queue's keys and keeps the rest distinct |
| CubePrune.PopInvariantHoldsAtStart | src/joshua/decoder/chart_parser/Chart.java:354-363 | a seeded queue of well-formed states with distinct keys, and the visited set of their keys, satisfy the pop-loop invariant before the first pop |
| CubePrune.PopBest | src/joshua/decoder/chart_parser/Chart.java:363-427 | one round, which polls the best state and queues its unvisited in-bounds neighbours, keeps the pop-loop invariant |
| CubePrune.PopStep | src/joshua/decoder/chart_parser/Chart.java:363-427 | removing a queued state and queueing unvisited well-formed neighbours of it keeps the pop-loop invariant: every state reached from the seeds, nothing queued or popped twice, visited = keys of popped and queued states |
| CubePrune.PopInvariantDrained | src/joshua/decoder/chart_parser/Chart.java:363 | once the queue is empty, every seed has been popped and every in-bounds neighbour of every popped state was visited |
| ChartParser.WithRulesMembers | src/joshua/decoder/chart_parser/Chart.java:438-441 | the dot nodes completed are exactly those of the dot cell that have a rule collection |
| ChartParser.Chart.constructor | src/joshua/decoder/chart_parser/Chart.java:111-239 | an n x (n+1) grid of absent cells with n = lattice size - 1; the goal cell empty; the grammars are the input grammars then the out-of-vocabulary grammar with the synthesised rules; one new dot chart per grammar; the strategy is pop limit, then beam-and-threshold, then exhaustive |
| ChartParser.Chart.SetGoalSymbolID | src/joshua/decoder/chart_parser/Chart.java:251-255 | the goal symbol is replaced and the goal cell is a new empty cell for it |
| ChartParser.Chart.AddAxiom | src/joshua/decoder/chart_parser/Chart.java:612-622 | the cell of [i, j) is created if absent and offered the rule's hyperedge, scored with no antecedents, with pruning on; no other cell changes |
| ChartParser.Chart.CompleteCell | src/joshua/decoder/chart_parser/Chart.java:624-665 | under a hard constraint the cell is left as it was; otherwise the cell is created if absent and the filtered rules go to addAxioms (arity 0) or combine |
| ChartParser.Chart.HardConstraintKeepsCell | src/joshua/decoder/chart_parser/Chart.java:629-632 | any number of completions over a hard-constrained span leave the cell exactly as it was, absent or not |
| ChartParser.Chart.CompletionCreatesCell | src/joshua/decoder/chart_parser/Chart.java:629-636 | completion never removes a cell, and leaves one exactly when there was one or the span is free of hard constraints and some dot node has rules |
| ChartParser.Chart.ConstrainedRulesAreLabelled | src/joshua/decoder/chart_parser/Chart.java:639-650 | under constrained parsing every rule handed on has the goal symbol, or a constituent, concatenated or CCG label of the span, as its left-hand side |
| ChartParser.Chart.CompletedAllAppend | src/joshua/decoder/chart_parser/Chart.java:438-446 | completing two runs of dot nodes one after the other is completing their concatenation |
| ChartParser.Chart.CompleteDots | src/joshua/decoder/chart_parser/Chart.java:438-448 | the loop over a dot cell completes exactly its dot nodes with rules, in order |
| ChartParser.Chart.CompleteGrammar | src/joshua/decoder/chart_parser/Chart.java:432-449 | a grammar that applies to the span, and has a dot cell there, completes that cell's dot nodes with rules; otherwise nothing changes |
| ChartParser.Chart.CompleteExhaustively | src/joshua/decoder/chart_parser/Chart.java:431-450 | without a pop limit, every grammar in turn completes its dot nodes with rules into the cell |
| ChartParser.Chart.GrammarsKeepConstrainedCell | src/joshua/decoder/chart_parser/Chart.java:432-450 | exhaustive completion of a hard-constrained span leaves its cell as it was |
| ChartParser.Chart.GrammarsCreateCell | src/joshua/decoder/chart_parser/Chart.java:432-450 | after exhaustive completion there is a cell exactly when there was one, or the span is free of hard constraints and some applicable grammar has a dot node with rules there |
| ChartParser.Chart.AddAdmittedAxioms | src/joshua/decoder/chart_parser/Chart.java:328-334 | each arity-0 rule, in order, is offered to the cell with pruning off exactly when there is no state constraint or its state is legal; none goes through the queue |
| ChartParser.Chart.SeedDot | src/joshua/decoder/chart_parser/Chart.java:304-357 | a dot node with rules creates the cell if absent; its arity-0 rules are inserted directly; for positive arity with a filtered rule, the seed state is the all-ones rank vector selecting the best rule and best antecedents, and it is queued and marked visited |
| ChartParser.Chart.SeedDots | src/joshua/decoder/chart_parser/Chart.java:304-358 | one dot cell seeds dot node by dot node; any seed implies a cell exists |
| ChartParser.Chart.SeedGrammar | src/joshua/decoder/chart_parser/Chart.java:299-359 | a grammar that does not apply, or has no dot cell for the span, seeds nothing |
| ChartParser.Chart.SeedSpan | src/joshua/decoder/chart_parser/Chart.java:291-360 | seeding runs over all grammars; the visited set is exactly the seeds' keys; a non-empty queue implies the cell exists |
| ChartParser.Chart.SeedingFillsCell | src/joshua/decoder/chart_parser/Chart.java:299-360 | seeding creates the cell exactly when some dot node has rules, and then appends exactly the admitted arity-0 insertions of those nodes in order |
| ChartParser.Chart.SpanDotNodesWithRules | src/joshua/decoder/chart_parser/Chart.java:299-307 | the dot nodes with rules that seeding visits are the ones exhaustive completion visits |
| ChartParser.Chart.DotsSeedsShape | src/joshua/decoder/chart_parser/Chart.java:336-357 | every seed of a dot cell is well formed, ranks all ones, keyed by its grammar and its own dot node; no two seeds share a key |
| ChartParser.Chart.DotsSeedsCover | src/joshua/decoder/chart_parser/Chart.java:304-357 | every dot node with a positive-arity rule left after filtering has its seed queued |
| ChartParser.Chart.SpanSeedsWellFormed | src/joshua/decoder/chart_parser/Chart.java:299-360 | every seed of the span is well formed, with ranks all ones, from a grammar already visited |
| ChartParser.Chart.SpanSeedsDistinct | src/joshua/decoder/chart_parser/Chart.java:299-360 | no two seeds of the span share a key, so the queue holds each seed once |
| ChartParser.Chart.SpanSeedsReady | src/joshua/decoder/chart_parser/Chart.java:291-360 | the seeded queue is ready for popping: well formed, with distinct keys |
| ChartParser.Chart.PopCandidates | src/joshua/decoder/chart_parser/Chart.java:362-429 | the cell gains exactly the admitted popped states' insertions in pop order; at most pop-limit states are popped, none twice, each well formed and a seed or a neighbour of an earlier pop, the best seed first; stopping short of the limit means the queue ran dry |
| ChartParser.Chart.CubePruneCell | src/joshua/decoder/chart_parser/Chart.java:277-429 | the span's cell is the seeded cell followed by the popped insertions, and the pops satisfy the pop-loop outcome |
| ChartParser.Chart.CompleteSpan | src/joshua/decoder/chart_parser/Chart.java:264-452 | with a pop limit, cube pruning with its outcome; without one, no pops and exhaustive completion |
| ChartParser.Chart.UnaryRulesFire | src/joshua/decoder/chart_parser/Chart.java:573-589 | a rule fires on a node exactly when some grammar that applies to the span has it in an arity-1 collection under the node's left-hand side |
| ChartParser.Chart.ExpandInGrammar | src/joshua/decoder/chart_parser/Chart.java:573-602 | one grammar's unary rules are offered to the cell in order, and the nodes handed back with a left-hand side not yet expanded are queued |
| ChartParser.Chart.ExpandNode | src/joshua/decoder/chart_parser/Chart.java:573-603 | expanding one node offers every grammar's unary rules in turn and queues exactly the fresh nodes handed back |
| ChartParser.Chart.AgendaStep | src/joshua/decoder/chart_parser/Chart.java:569-603 | one agenda round (take the head, mark its left-hand side, queue what its expansion hands back with a left-hand side not yet expanded) keeps the agenda: expanded nodes followed by the queue are the cell's nodes followed by everything the expansions so far took in |
| ChartParser.Chart.RunAgenda | src/joshua/decoder/chart_parser/Chart.java:565-606 | the agenda loop ends with an empty queue: the expanded nodes are the cell's sorted nodes followed by exactly the nodes the expansions took in, in first-in-first-out order; the cell gains every expansion's insertions in order; the count is the number of nodes queued beyond the cell's own |
| ChartParser.Chart.CloseUnary | src/joshua/decoder/chart_parser/Chart.java:557-607 | an absent cell gives count 0 and no change; otherwise the cell gains the insertions of the agenda's expansions, the expanded nodes being the cell's nodes followed by exactly the nodes handed back with a left-hand side not yet expanded, and the count the number of those |
| ChartParser.Chart.UnaryClosureUnique | src/joshua/decoder/chart_parser/Chart.java:565-606 | the closure is determined by the cell it starts from: one sequence of expanded nodes, one count and one closed cell satisfy it |
| ChartParser.Chart.ClosureComplete | src/joshua/decoder/chart_parser/Chart.java:571-600 | the closure is complete: every node any expansion hands back has its left-hand side expanded |
| ChartParser.Chart.ClosureTakesHandedBack | src/joshua/decoder/chart_parser/Chart.java:569-600 | every node expanded beyond the cell's own was handed back by an earlier expansion, with a left-hand side not expanded by then |
| ChartParser.Chart.ClosureTakenAt | src/joshua/decoder/chart_parser/Chart.java:569-600 | names the earlier expansion that handed back a given node beyond the cell's own, with that node's left-hand side not expanded by then |
| Closure.AgendaShift | src/joshua/decoder/chart_parser/Chart.java:569-600 | moving the queue's head to the expanded nodes and queueing what it takes in keeps expanded-then-queued equal to the initial nodes followed by all nodes taken in |
| Closure.DrainedTakenBy | src/joshua/decoder/chart_parser/Chart.java:569-600 | in a drained agenda, each node beyond the initial ones was taken in by an earlier expansion, with a left-hand side not expanded by then |
| Closure.DrainedUnique | src/joshua/decoder/chart_parser/Chart.java:565-606 | an agenda that starts from given nodes and takes in only nodes with a left-hand side not yet expanded drains in one way only |
| ChartParser.Chart.ExpandDotCells | src/joshua/decoder/chart_parser/Chart.java:474-482 | every grammar's dot chart expands its dot cell for the span |
| ChartParser.Chart.StartDotItems | src/joshua/decoder/chart_parser/Chart.java:498-503 | exactly the grammars that apply to the span start dot items from the span's cell |
| ChartParser.Chart.SpanWork | src/joshua/decoder/chart_parser/Chart.java:472-512 | one span's work in order, over the chart's cells as they stand: the dot charts expand, the cell is completed (cube pruning with its pop outcome, or exhaustively), the unary closure runs on the completed cell and is determined by it, and the applicable dot charts start dot items from the cells with the closed cell in place |
| ChartParser.Chart.ProcessSpan | src/joshua/decoder/chart_parser/Chart.java:472-512 | the same on the chart itself: the returned record says what the work did from the cells and dot charts it found; only the span's own cell and the dot charts change, and the cells afterwards are the record's cells-after |
| ChartParser.Chart.WriteCell | src/joshua/decoder/chart_parser/Chart.java:472-512 | the span's cell gets its new contents and no other cell changes |
| ChartParser.Chart.RowStep | src/joshua/decoder/chart_parser/Chart.java:463-513 | one turn of a width's loop: a span at infinite distance is skipped, any other is processed and its record appended; the records keep the plan's steps for the row so far, each saying what its span's work did, chained to the chart's present cells and dot charts |
| ChartParser.Chart.WidthStep | src/joshua/decoder/chart_parser/Chart.java:461-513 | one turn of the outer loop: the records of the narrower spans gain the records of this width, with the plan's steps for all widths up to it, chained to where the chart now is |
| ChartParser.Chart.TransitToGoal | src/joshua/decoder/chart_parser/Chart.java:519-530 | no derivation exactly when cell [0, n) is absent or the goal transition fails; otherwise the goal cell is the transition's result and the hypergraph is rooted at its best node |
| ChartParser.Chart.ExpandRow | src/joshua/decoder/chart_parser/Chart.java:462-513 | one width's spans by ascending start: the records of the spans processed have exactly the steps of the reachable ones, each says what its span's work did, and they chain from the cells and dot charts before the row to those after it; unreachable spans' cells are untouched |
| ChartParser.Chart.FillChart | src/joshua/decoder/chart_parser/Chart.java:461-514 | the main loop: the records have exactly the steps of the expansion plan of the sentence, each says what its span's work did, and they chain from the chart's starting cells and dot charts to its final ones; cells of unreachable spans and non-spans are untouched |
| ChartParser.Chart.LogRow | src/joshua/decoder/chart_parser/Chart.java:461-513 | the records of the spans below width w followed by those of row w are, in steps, record by record and in how they chain, the records of the spans below width w + 1 |
| ChartParser.StepsAppend | src/joshua/decoder/chart_parser/Chart.java:461-513 | the steps of two runs of records one after the other are their steps concatenated |
| ChartParser.ChainAppend | src/joshua/decoder/chart_parser/Chart.java:461-513 | two chains of span records, the second starting from the cells and dot charts the first leaves, make one chain |
| ChartParser.Chart.Expand | src/joshua/decoder/chart_parser/Chart.java:459-531 | the main loop, whose records have exactly the steps of the expansion plan, each saying what its span's work did and chaining from the starting cells and dot charts to the final ones; cells of unreachable spans and non-spans are untouched; the result is as in TransitToGoal |
| ChartParser.Chart.ScanFrom | src/joshua/decoder/chart_parser/Chart.java:679-699 | the scan stops at the first span, widest first and by ascending start, whose cell the verdict accepts, having rejected all before it; it is exhausted only if every remaining span is rejected |
| ChartParser.Chart.HypergraphRootedAtLongestCompleteSpan | src/joshua/decoder/chart_parser/Chart.java:678-701 | null exactly when no cell exists; otherwise rooted at the best node of the first existing cell in scan order |
| ChartParser.Chart.HypergraphWithRootSymbol | src/joshua/decoder/chart_parser/Chart.java:703-726 | the same scan, passing over cells whose best node has another left-hand side; a derived result's root has the requested symbol |
| ChartParser.Chart.HypergraphRootedAtCell | src/joshua/decoder/chart_parser/Chart.java:728-739 | null exactly when the cell is absent; otherwise rooted at the cell's best node |
| ChartParser.Chart.RootSymbolAgreesWithLongest | src/joshua/decoder/chart_parser/Chart.java:678-726 | when the longest complete span's best node has the requested symbol, both scans return the same hypergraph |

## Left out

- Collaborators: grammar tries and their matching, dot charts (expansion, dot cells, starting
  dot items), the scorer, cell insertion, recombination and sorting, `transitToGoal`, the manual
  constraint handler, the state constraint, the combiners and the parse-tree label queries.
  These are not part of this model. They are opaque functions in `Env`, `Lattice`, `SyntaxTree`
  and `Vocab`.
- Scores and feature functions: a score is an abstract integer. Floating-point arithmetic and
  the feature-function plumbing are left out.
- Logging, `System.err` output and the statistics counters are left out. The constructor's
  hard-constraint check on out-of-vocabulary arcs only logs, so it has no counterpart.
- The source does not keep the sorted rule lists behind `getApplicableRules()` (seeding) and
  `getTrieNode().getRuleCollection()` (exhaustive completion) apart. Both are the dot node's
  `applicable` rule collection here.
- `getSortedNodes()` is a query (`Env.sortedNodes`). Step (5) of the span loop only sorts a
  cell's internal node list in place, so it does not change the modelled cell; it appears only
  as a step in the plan.
- ChartParser.Chart.PopCandidates: `CubePrune.BestIndex` breaks score ties by taking the
  first best state in queue order. Java's `PriorityQueue` leaves the order of tied states
  unspecified.
- CubePrune.PushNeighbours: visited states are compared by key (grammar, dot node position,
  rank vector). `CubePruneState` equality beyond that is not part of this model.
- CubePrune.PushNeighbours: neighbour generation reassigns `currentRule` and
  `currentAntNodes` and restores them afterwards. The restore is skipped when a neighbour was
  already visited, so later neighbours of the same pop can start from a rule or antecedent list
  that was not restored. The model builds each neighbour independently from the popped state's
  rank vector, so this aliasing is not reproduced.
- ChartParser.Chart.TransitToGoal: when the goal transition fails, the model keeps the goal
  cell as it was. Whatever the source's goal cell does to itself on failure is not part of this
  model.
- ChartParser.Chart.Expand requires n > 0. With an empty lattice the source would read
  `cells[0][0]` of a grid with no rows.
- ChartParser.Chart.Expand and ChartParser.Chart.CompleteSpan require a parse tree when
  constrained parsing runs without a pop limit. The source reads the tree's labels there and
  would fail without one.
- The unary closure is documented as assuming acyclic unary rules. The code ends anyway:
  symbols are 32-bit ids, so the set of expanded left-hand sides can grow only finitely often,
  and between such growth steps the queue's run of already-expanded nodes shrinks. The model
  proves termination on that argument and does not rely on acyclicity.
- Taking the best node of an empty sorted node list throws in the source. The model returns
  `EmptyNodeList` for it.
- The cell grid's in-place updates are modelled. The `Cell` objects inside it are values, so
  aliasing between a cell and the hypergraph nodes it hands back is not modelled. Completion
  and unary closure run on the cell's value and write the result back once per span.
- ChartParser.Chart.PopCandidates: its contract ties the cell to the ghost sequence of popped
  states and states the pop-loop outcome of that sequence: bounded by the limit, no key twice,
  each state a seed or a neighbour of an earlier pop, the best seed first, and everything
  reachable popped when the loop stops short of the limit. It does not pin which state is popped
  in each later round. CubePruneCell, CompleteSpan, SpanWork, ProcessSpan and the span records
  of ExpandRow, FillChart and Expand inherit this.
- ChartParser.Chart.constructor requires at least one input grammar. The source builds the
  manual constraints handler from the last input grammar (Chart.java:161), which fails on an
  empty array.
- ChartParser.Chart.constructor requires a lattice with at least one node. The source
  allocates a grid of lattice size - 1 rows (Chart.java:123), which fails for an empty lattice.
- Super nodes (`FilledSuperNode`) hold at least one node. Seeding takes the first node of each
  antecedent super node (Chart.java:343), which would throw on an empty list; a super node is
  only created when a node is added to it, so the model does not represent the empty case.
