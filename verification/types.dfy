/** Values the chart parser works on, and the collaborators it consults.
    Rules, nodes, scores and dynamic-programming states are abstract; the grammar tries,
    dot charts, scorer, cell internals and constraint handlers are function-valued fields
    of `Env`, `Lattice`, `SyntaxTree` and `Vocab`, so every property proved about the chart
    holds whatever those collaborators compute. */
module Types {

  /** A vocabulary id (a Java `int`): terminals and nonterminals share this space. */
  newtype Symbol = x: int | -0x8000_0000 <= x < 0x8000_0000

  /** Every symbol id there is; finite because ids are 32-bit. */
  ghost const AllSymbols: set<Symbol> := set x: int | -0x8000_0000 <= x < 0x8000_0000 :: x as Symbol

  lemma SymbolInUniverse(s: Symbol)
    ensures s in AllSymbols
  {
    assert (s as int) as Symbol == s;
  }

  datatype Option<+T> = None | Some(value: T)

  /** A synchronous rule: left-hand side, source and target sides, and its arity
      (the number of nonterminal slots). */
  datatype Rule = Rule(lhs: Symbol, source: seq<Symbol>, target: seq<Symbol>, arity: nat)

  /** A hypergraph node ("or" node); its score and scorer states live behind `Env`. */
  datatype Node = Node(id: int, lhs: Symbol)

  /** The lattice path an item covers. */
  datatype SourcePath = SourcePath(arcs: seq<int>)

  const EmptyPath := SourcePath([])

  /** What the scoring step returns for one rule application: an (abstract) score that orders
      the cube-pruning queue, and the dynamic-programming state a state constraint judges. */
  datatype NodeResult = NodeResult(score: int, dpState: int)

  /** One rule application: rule, antecedent nodes, scoring result, source path. */
  datatype Edge = Edge(rule: Rule, ants: seq<Node>, result: NodeResult, path: SourcePath)

  /** One call of the cell's hyperedge insertion, with its no-prune flag. */
  datatype Addition = Addition(edge: Edge, noPrune: bool)

  /** A chart cell for one span: the goal symbol it was created with and every hyperedge the
      chart has offered it (recombination, pruning and the sorting of its nodes happen inside
      the cell, behind `Env`). */
  datatype Cell = Cell(goal: Symbol, added: seq<Addition>)

  /** `new Cell(chart, goal)` */
  function EmptyCell(goal: Symbol): Cell
  {
    Cell(goal, [])
  }

  /** The chart's cells as a dot chart reads them: grid[i][j] is the cell of span [i, j). */
  type Grid = seq<seq<Option<Cell>>>

  /** The cell of [i, j) in grid g; None outside the grid. */
  function At(g: Grid, i: nat, j: nat): Option<Cell>
  {
    if i < |g| && j < |g[i]| then g[i][j] else None
  }

  /** Grid g with the cell of [i, j) replaced by c (g itself outside the grid). */
  function Put(g: Grid, i: nat, j: nat, c: Option<Cell>): (r: Grid)
    ensures |r| == |g| && forall a :: 0 <= a < |g| ==> |r[a]| == |g[a]|
    ensures At(r, i, j) == (if i < |g| && j < |g[i]| then c else None)
    ensures forall a, b :: (a != i || b != j) ==> At(r, a, b) == At(g, a, b)
  {
    if i < |g| && j < |g[i]| then g[i := g[i][j := c]] else g
  }

  /** The nodes of one span sharing a left-hand side, best first. */
  datatype SuperNode = SuperNode(lhs: Symbol, nodes: seq<Node>)

  /** A super node exists only once a node has been added to it. */
  type FilledSuperNode = s: SuperNode | |s.nodes| > 0 witness SuperNode(0, [Node(0, 0)])

  /** The rules stored at one trie position, all of the same arity, in estimated-cost order. */
  datatype RuleCollection = RuleCollection(arity: nat, sortedRules: seq<Rule>)

  /** A dotted item: the rules applicable at its trie position (if any), the antecedent
      super nodes it has consumed, and its source path. */
  datatype DotNode = DotNode(applicable: Option<RuleCollection>, ants: seq<FilledSuperNode>, path: SourcePath)

  /** A trie position reached from a grammar's root by one symbol. */
  datatype Trie = Trie(hasRules: bool, collection: Option<RuleCollection>)

  /** A grammar: one of the sentence's input grammars, or the chart's own out-of-vocabulary
      grammar holding the rules synthesised for this sentence. */
  datatype Grammar = Input(id: nat) | Oov(rules: seq<Rule>)

  /** The lattice distance between two positions. */
  datatype Distance = Finite(cost: int) | Infinite

  /** The state of one grammar's dot chart. */
  datatype DotChart = DotChart(grammar: Grammar, state: int)

  /** A lattice arc to node `head` carrying a source word. */
  datatype Arc = Arc(head: nat, word: Symbol)

  /** A word lattice: `arcs[k]` holds the outgoing arcs of the node numbered `k`;
      `distance` is the lattice's span-distance function. */
  datatype Lattice = Lattice(arcs: seq<seq<Arc>>, distance: (nat, nat) -> Distance)

  /** Label queries on a reference parse. */
  datatype SyntaxTree = SyntaxTree(
    constituentLabels: (nat, nat) -> seq<Symbol>,
    concatenatedLabels: (nat, nat) -> seq<Symbol>,
    ccgLabels: (nat, nat) -> seq<Symbol>)

  /** One input segment: its id, lattice, optional target string (for constrained decoding,
      identified by an abstract id) and optional reference parse. */
  datatype Sentence = Sentence(id: int, lattice: Lattice, target: Option<int>, tree: Option<SyntaxTree>)

  /** The decoder configuration the chart reads. `defaultNonterminal` is the id of the
      configured default nonterminal with every occurrence of the two-character string "[]"
      removed (a bracketed name such as "[X]" is kept as it is). */
  datatype Config = Config(
    popLimit: int,
    useBeamAndThresholdPrune: bool,
    trueOovsOnly: bool,
    markOovs: bool,
    defaultNonterminal: Symbol,
    constrainParse: bool,
    usePosLabels: bool)

  /** The vocabulary ids the chart needs: sentence start and stop symbols, and the id of a
      word with the out-of-vocabulary mark appended. */
  datatype Vocab = Vocab(start: Symbol, stop: Symbol, markOov: Symbol -> Symbol)

  /** The combination strategy fixed at construction. */
  datatype Strategy = SpanPopLimit | BeamAndThreshold | Exhaustive

  /** A hypergraph handed to the caller: its root node, segment id and source length. */
  datatype HyperGraph = HyperGraph(root: Node, segment: int, sourceLength: nat)

  /** What a request for a hypergraph yields. `EmptyNodeList` stands for taking the first
      element of an empty sorted node list, which the source does not guard against. */
  datatype Decoded = NoDerivation | Derived(graph: HyperGraph) | EmptyNodeList

  /** The collaborators whose code is not part of this model. */
  datatype Env = Env(
    /** Grammar.hasRuleForSpan(i, j, distance) */
    hasRuleForSpan: (Grammar, nat, nat, Distance) -> bool,
    /** Grammar.getTrieRoot().match(symbol) */
    trieMatch: (Grammar, Symbol) -> Option<Trie>,
    /** new DotChart(lattice, grammar, chart, ...) */
    newDotChart: Grammar -> DotChart,
    /** DotChart.expandDotCell(i, j), which reads the chart's cells */
    expandDotCell: (DotChart, Grid, nat, nat) -> DotChart,
    /** DotChart.startDotItems(i, j), which reads the chart's cells */
    startDotItems: (DotChart, Grid, nat, nat) -> DotChart,
    /** DotChart.getDotCell(i, j), null when absent */
    dotCell: (DotChart, nat, nat) -> Option<seq<DotNode>>,
    /** new ComputeNodeResult(features, rule, antecedents, i, j, path, ...) */
    computeNode: (Rule, seq<Node>, nat, nat, SourcePath) -> NodeResult,
    /** StateConstraint(target).isLegal(states) */
    isLegal: (int, NodeResult) -> bool,
    /** the node Cell.addHyperEdgeInCell returns, given the cell before the call */
    insertResult: (Cell, Addition) -> Option<Node>,
    /** Cell.getSortedNodes() */
    sortedNodes: Cell -> seq<Node>,
    /** goal cell's transitToGoal(cell, features, n): the new goal cell, or None when it fails */
    transitToGoal: (Cell, Cell, nat) -> Option<Cell>,
    /** ManualConstraintsHandler.containHardRuleConstraint(i, j) */
    hardConstraint: (nat, nat) -> bool,
    /** ManualConstraintsHandler.filterRules(i, j, rules); a null result reads as [] */
    filterRules: (nat, nat, seq<Rule>) -> seq<Rule>,
    /** Combiner.addAxioms(chart, cell, i, j, rules, path) */
    addAxioms: (Strategy, Cell, nat, nat, seq<Rule>, SourcePath) -> Cell,
    /** Combiner.combine(chart, cell, i, j, superNodes, rules, arity, path) */
    combine: (Strategy, Cell, nat, nat, seq<FilledSuperNode>, seq<Rule>, nat, SourcePath) -> Cell)
}
