/** The chart of one sentence: a grid of cells over lattice spans, filled bottom-up by
    `Expand`, plus the scans that pick a hypergraph out of a partly filled chart. */
module ChartParser {
  import opened Types
  import opened Spans
  import opened CubePrune
  import opened Closure
  import RuleFilter
  import Oov

  /** The span's cell, or the empty one the chart creates for it. */
  function OrNew(c: Option<Cell>, goal: Symbol): Cell
  {
    if c.Some? then c.value else EmptyCell(goal)
  }

  /** The cell after one more call of its hyperedge insertion. */
  function Offer(c: Cell, a: Addition): Cell
  {
    c.(added := c.added + [a])
  }

  /** The dot nodes of `dots` that have rules, in order. */
  function WithRules(dots: seq<DotNode>): seq<DotNode>
  {
    if dots == [] then []
    else WithRules(dots[..|dots| - 1]) + (if dots[|dots| - 1].applicable.Some? then [dots[|dots| - 1]] else [])
  }

  /** Keeping the dot nodes with rules of two stretches is keeping those of both at once. */
  lemma {:induction false} WithRulesAppend(a: seq<DotNode>, b: seq<DotNode>)
    ensures WithRules(a + b) == WithRules(a) + WithRules(b)
  {
    if b == [] {
      assert a + b == a;
    } else {
      assert (a + b)[..|a + b| - 1] == a + b[..|b| - 1];
      WithRulesAppend(a, b[..|b| - 1]);
    }
  }

  /** The filter keeps exactly the dot nodes with rules. */
  lemma {:induction false} WithRulesMembers(dots: seq<DotNode>)
    ensures forall dn :: dn in WithRules(dots) <==> dn in dots && dn.applicable.Some?
  {
    if dots != [] {
      WithRulesMembers(dots[..|dots| - 1]);
      assert dots == dots[..|dots| - 1] + [dots[|dots| - 1]];
    }
  }

  /** Keeping the dot nodes with rules twice keeps what keeping them once keeps. */
  lemma {:induction false} WithRulesIdempotent(dots: seq<DotNode>)
    ensures WithRules(WithRules(dots)) == WithRules(dots)
  {
    if dots != [] {
      var init, last := dots[..|dots| - 1], dots[|dots| - 1];
      WithRulesIdempotent(init);
      WithRulesAppend(WithRules(init), if last.applicable.Some? then [last] else []);
    }
  }

  /** What the longest-span scan and the single-cell lookup make of a cell: nothing for an
      absent cell, else a hypergraph rooted at the cell's best node. */
  function RootedAt(env: Env, segment: int, n: nat, c: Option<Cell>): Option<Decoded>
  {
    if c.None? then None
    else if env.sortedNodes(c.value) == [] then Some(EmptyNodeList)
    else Some(Derived(HyperGraph(env.sortedNodes(c.value)[0], segment, n)))
  }

  /** What the root-symbol scan makes of a cell: as `RootedAt`, but a cell whose best node has
      another left-hand side is passed over. */
  function RootedAtSymbol(env: Env, segment: int, n: nat, root: Symbol, c: Option<Cell>): Option<Decoded>
  {
    if c.None? then None
    else if env.sortedNodes(c.value) == [] then Some(EmptyNodeList)
    else if env.sortedNodes(c.value)[0].lhs != root then None
    else Some(Derived(HyperGraph(env.sortedNodes(c.value)[0], segment, n)))
  }

  /** Where a scan over the chart stopped, and with what. */
  datatype ScanResult = Exhausted | StoppedAt(i: nat, j: nat, outcome: Decoded)

  /** The scans go from the widest span down, and by ascending start within a width. */
  predicate ScannedBefore(a: Span, b: Span)
  {
    Width(a) > Width(b) || (Width(a) == Width(b) && a.i < b.i)
  }

  /** The spans a scan standing at width w and start i has still to look at. */
  predicate Pending(w: nat, i: nat, s: Span)
  {
    Width(s) < w || (Width(s) == w && s.i >= i)
  }

  /** What the chart did for one span: the span and the goal symbol; the cells and dot charts
      the work started from; the span's cell after completion, the cube-pruning pops and the
      nodes the unary closure expanded; and the span's cell, the dot charts and the cells it
      left. */
  datatype SpanRecord = SpanRecord(span: Span, goal: Symbol, grid: Grid, dcsBefore: seq<DotChart>,
                                   mid: Option<Cell>, popped: seq<CubeState>, expanded: seq<Node>,
                                   cell: Option<Cell>, dcsAfter: seq<DotChart>, gridAfter: Grid)

  /** The steps the records `rs` stand for, in order. */
  function Steps(rs: seq<SpanRecord>): seq<Step>
  {
    if rs == [] then [] else Steps(rs[..|rs| - 1]) + SpanSteps(rs[|rs| - 1].span)
  }

  lemma StepsSnoc(rs: seq<SpanRecord>, r: SpanRecord)
    ensures Steps(rs + [r]) == Steps(rs) + SpanSteps(r.span)
  {
    assert (rs + [r])[..|rs|] == rs;
  }

  lemma {:induction false} StepsAppend(a: seq<SpanRecord>, b: seq<SpanRecord>)
    ensures Steps(a + b) == Steps(a) + Steps(b)
  {
    if b == [] {
      assert a + b == a;
    } else {
      assert (a + b)[..|a + b| - 1] == a + b[..|b| - 1];
      StepsAppend(a, b[..|b| - 1]);
    }
  }

  /** Records whose steps are those of the first i spans of row w, followed by a record for
      span i of the row, which the lattice connects, have the steps of the first i + 1. */
  lemma StepsRowNext(rs: seq<SpanRecord>, r: SpanRecord, n: nat, w: nat, i: nat, d: (nat, nat) -> Distance)
    requires 1 <= w <= n && i <= n - w
    requires Steps(rs) == RowPlan(n, w, i, d) && r.span == Span(i, i + w) && Reachable(d, r.span)
    ensures Steps(rs + [r]) == RowPlan(n, w, i + 1, d)
  {
    StepsSnoc(rs, r);
  }

  /** A span the lattice does not connect adds no steps to its row's plan. */
  lemma RowPlanSkip(n: nat, w: nat, i: nat, d: (nat, nat) -> Distance)
    requires 1 <= w <= n && i <= n - w && !Reachable(d, Span(i, i + w))
    ensures RowPlan(n, w, i + 1, d) == RowPlan(n, w, i, d)
  {
  }

  /** Records with the steps of the spans below width w, followed by records with the steps
      of row w, have the steps of the spans below width w + 1. */
  lemma StepsBelowNext(rs: seq<SpanRecord>, row: seq<SpanRecord>, n: nat, w: nat, d: (nat, nat) -> Distance)
    requires 1 <= w <= n
    requires Steps(rs) == PlanBelow(n, w, d) && Steps(row) == RowPlan(n, w, n - w + 1, d)
    ensures Steps(rs + row) == PlanBelow(n, w + 1, d)
  {
    StepsAppend(rs, row);
  }

  /** Record k of rs starts from the cells and dot charts record k - 1 left. */
  ghost predicate Linked(rs: seq<SpanRecord>, k: nat)
    requires 0 < k < |rs|
  {
    rs[k].grid == rs[k - 1].gridAfter && rs[k].dcsBefore == rs[k - 1].dcsAfter
  }

  /** Starting from cells g0 and dot charts d0, the records rs, taken in order, each start
      from the cells and dot charts the one before left, and the last leaves cells g1 and dot
      charts d1. */
  ghost predicate Chain(g0: Grid, d0: seq<DotChart>, rs: seq<SpanRecord>, g1: Grid, d1: seq<DotChart>)
  {
    if rs == [] then g1 == g0 && d1 == d0
    else
      && rs[0].grid == g0 && rs[0].dcsBefore == d0
      && (forall k :: 0 < k < |rs| ==> Linked(rs, k))
      && g1 == rs[|rs| - 1].gridAfter && d1 == rs[|rs| - 1].dcsAfter
  }

  /** A chain extended by a record that starts where it ends. */
  lemma ChainSnoc(g0: Grid, d0: seq<DotChart>, rs: seq<SpanRecord>, r: SpanRecord)
    requires Chain(g0, d0, rs, r.grid, r.dcsBefore)
    ensures Chain(g0, d0, rs + [r], r.gridAfter, r.dcsAfter)
  {
    var rs' := rs + [r];
    forall k | 0 < k < |rs'|
      ensures Linked(rs', k)
    {
      if k < |rs| {
        assert Linked(rs, k);
      }
    }
  }

  /** Two chains, the second starting where the first ends, make one. */
  lemma ChainAppend(g0: Grid, d0: seq<DotChart>, a: seq<SpanRecord>, g1: Grid, d1: seq<DotChart>,
                    b: seq<SpanRecord>, g2: Grid, d2: seq<DotChart>)
    requires Chain(g0, d0, a, g1, d1) && Chain(g1, d1, b, g2, d2)
    ensures Chain(g0, d0, a + b, g2, d2)
  {
    var ab := a + b;
    if a != [] && b != [] {
      forall k | 0 < k < |ab|
        ensures Linked(ab, k)
      {
        if k < |a| {
          assert Linked(a, k);
        } else if k > |a| {
          assert Linked(b, k - |a|);
        }
      }
    } else if a == [] {
      assert ab == b;
    } else {
      assert ab == a;
    }
  }

  class Chart {
    const env: Env
    const cfg: Config
    const sentence: Sentence
    /** The number of lattice positions after the first; spans are [i, j) with i < j <= n. */
    const n: nat
    /** cells[i, j] is the cell of span [i, j); None until the chart creates it. */
    const cells: array2<Option<Cell>>
    /** The input grammars, then the chart's own out-of-vocabulary grammar. */
    const grammars: seq<Grammar>
    const strategy: Strategy
    /** One dot chart per grammar. */
    var dotcharts: seq<DotChart>
    var goalSymbol: Symbol
    var goalBin: Cell
    /** The cells as a value, for saying what each span's work saw and left. */
    ghost var grid: Grid

    ghost predicate Valid()
      reads this
    {
      cells.Length0 == n && cells.Length1 == n + 1 && |dotcharts| == |grammars|
    }

    /** `grid` holds the chart's cells. */
    ghost predicate Mirrored()
      reads this`grid, cells
    {
      && |grid| == cells.Length0
      && (forall a :: 0 <= a < |grid| ==> |grid[a]| == cells.Length1)
      && forall a, b :: 0 <= a < cells.Length0 && 0 <= b < cells.Length1 ==> grid[a][b] == cells[a, b]
    }

    /** No cell but the one of span [i, j) has changed. */
    twostate predicate Untouched(i: int, j: int)
      reads cells
    {
      forall a, b :: 0 <= a < cells.Length0 && 0 <= b < cells.Length1 && (a != i || b != j) ==>
        cells[a, b] == old(cells[a, b])
    }

    /** Sets up the chart for one sentence: an empty grid, the goal cell, the grammars with
        the out-of-vocabulary grammar appended, a dot chart per grammar, the combination
        strategy the configuration selects, and the out-of-vocabulary rules. */
    constructor (sentence: Sentence, env: Env, cfg: Config, voc: Vocab, inputGrammars: seq<Grammar>, goal: Symbol)
      requires |sentence.lattice.arcs| >= 1
      requires |inputGrammars| >= 1
      ensures Valid() && Mirrored() && fresh(cells)
      ensures this.sentence == sentence && this.env == env && this.cfg == cfg
      ensures n == |sentence.lattice.arcs| - 1
      ensures forall a, b :: 0 <= a < n && 0 <= b <= n ==> cells[a, b].None?
      ensures grammars == inputGrammars +
        [Oov(Oov.LatticeRules(Oov.OovContext(env, cfg, voc, inputGrammars, sentence.tree), sentence.lattice.arcs))]
      ensures forall k :: 0 <= k < |grammars| ==> dotcharts[k] == env.newDotChart(grammars[k])
      ensures goalSymbol == goal && goalBin == EmptyCell(goal)
      ensures strategy == if cfg.popLimit > 0 then SpanPopLimit
        else if cfg.useBeamAndThresholdPrune then BeamAndThreshold else Exhaustive
    {
      var ctx := Oov.OovContext(env, cfg, voc, inputGrammars, sentence.tree);
      var oovRules := Oov.SynthesizeOovRules(ctx, sentence.lattice);
      var size := |sentence.lattice.arcs| - 1;
      var all := inputGrammars + [Oov(oovRules)];
      var charts := [];
      for k := 0 to |all|
        invariant |charts| == k
        invariant forall m :: 0 <= m < k ==> charts[m] == env.newDotChart(all[m])
      {
        charts := charts + [env.newDotChart(all[k])];
      }
      this.env := env;
      this.cfg := cfg;
      this.sentence := sentence;
      n := size;
      cells := new Option<Cell>[size, size + 1]((_, _) => None);
      grid := seq(size, _ => seq(size + 1, _ => None));
      grammars := all;
      dotcharts := charts;
      strategy := if cfg.popLimit > 0 then SpanPopLimit
        else if cfg.useBeamAndThresholdPrune then BeamAndThreshold else Exhaustive;
      goalSymbol := goal;
      goalBin := EmptyCell(goal);
    }

    /** Replaces the goal symbol and starts a fresh goal cell for it. */
    method SetGoalSymbolID(s: Symbol)
      requires Valid()
      modifies this`goalSymbol, this`goalBin
      ensures Valid()
      ensures goalSymbol == s && goalBin == EmptyCell(s)
    {
      goalSymbol := s;
      goalBin := EmptyCell(s);
    }

    /** The constrained-decoding test: with no target string everything passes. */
    predicate Admits(result: NodeResult)
    {
      sentence.target.None? || env.isLegal(sentence.target.value, result)
    }

    /** Adds one arity-0 rule application over [i, j), creating the cell if need be, with
        pruning left on. */
    method AddAxiom(i: nat, j: nat, rule: Rule, path: SourcePath)
      requires Valid() && i < n && j <= n
      modifies cells
      ensures Untouched(i, j)
      ensures cells[i, j] == Some(Offer(OrNew(old(cells[i, j]), goalSymbol),
        Addition(Edge(rule, [], env.computeNode(rule, [], i, j, path), path), false)))
    {
      if cells[i, j].None? {
        cells[i, j] := Some(EmptyCell(goalSymbol));
      }
      var result := env.computeNode(rule, [], i, j, path);
      cells[i, j] := Some(Offer(cells[i, j].value, Addition(Edge(rule, [], result, path), false)));
    }

    // ---------------------------------------------------------------------------------
    // Exhaustive and beam completion of a span
    // ---------------------------------------------------------------------------------

    /** The dot nodes with rules that grammar g's dot chart holds for [i, j), when g applies to
        the span. */
    function GrammarDots(dcs: seq<DotChart>, g: nat, i: nat, j: nat): Option<seq<DotNode>>
      requires |dcs| == |grammars| && g < |grammars|
    {
      if env.hasRuleForSpan(grammars[g], i, j, sentence.lattice.distance(i, j)) then env.dotCell(dcs[g], i, j)
      else None
    }

    /** The dot nodes with rules of the first g grammars for [i, j), grammar by grammar. */
    function ApplicableDots(dcs: seq<DotChart>, g: nat, i: nat, j: nat): seq<DotNode>
      requires |dcs| == |grammars| && g <= |grammars|
    {
      if g == 0 then [] else ApplicableDots(dcs, g - 1, i, j) + GrammarApplicable(dcs, g - 1, i, j)
    }

    /** The dot nodes with rules of grammar g for [i, j). */
    function GrammarApplicable(dcs: seq<DotChart>, g: nat, i: nat, j: nat): seq<DotNode>
      requires |dcs| == |grammars| && g < |grammars|
    {
      if GrammarDots(dcs, g, i, j).Some? then WithRules(GrammarDots(dcs, g, i, j).value) else []
    }

    /** The labels the reference parse allows over [i, j). */
    function SpanLabels(i: nat, j: nat): set<Symbol>
      requires sentence.tree.Some?
    {
      var t := sentence.tree.value;
      set x | x in t.constituentLabels(i, j) + t.concatenatedLabels(i, j) + t.ccgLabels(i, j)
    }

    /** The rules completion hands on for a dot node: under constrained parsing those whose
        left-hand side is the goal symbol or a reference label, else what the manual
        constraints let through. */
    function CellRules(goal: Symbol, i: nat, j: nat, sortedRules: seq<Rule>): seq<Rule>
      requires cfg.constrainParse ==> sentence.tree.Some?
    {
      if cfg.constrainParse then RuleFilter.FilterByLabels(sortedRules, goal, SpanLabels(i, j))
      else env.filterRules(i, j, sortedRules)
    }

    /** What completing one dot node does to the span's cell. */
    function Completed(goal: Symbol, c: Option<Cell>, i: nat, j: nat, dn: DotNode): Option<Cell>
      requires cfg.constrainParse ==> sentence.tree.Some?
    {
      if dn.applicable.None? || env.hardConstraint(i, j) then c
      else
        var rc := dn.applicable.value;
        var base := OrNew(c, goal);
        var rules := CellRules(goal, i, j, rc.sortedRules);
        Some(if rc.arity == 0 then env.addAxioms(strategy, base, i, j, rules, dn.path)
             else env.combine(strategy, base, i, j, dn.ants, rules, rc.arity, dn.path))
    }

    /** Completing the dot nodes `dns` one after another. */
    function CompletedAll(goal: Symbol, c: Option<Cell>, i: nat, j: nat, dns: seq<DotNode>): Option<Cell>
      requires cfg.constrainParse ==> sentence.tree.Some?
    {
      if dns == [] then c
      else Completed(goal, CompletedAll(goal, c, i, j, dns[..|dns| - 1]), i, j, dns[|dns| - 1])
    }

    /** A span under a hard rule constraint keeps its cell as it was, absent or not: no cell
        is created for it and nothing is combined into it. */
    lemma {:induction false} HardConstraintKeepsCell(goal: Symbol, c: Option<Cell>, i: nat, j: nat, dns: seq<DotNode>)
      requires cfg.constrainParse ==> sentence.tree.Some?
      requires env.hardConstraint(i, j)
      ensures CompletedAll(goal, c, i, j, dns) == c
    {
      if dns != [] {
        HardConstraintKeepsCell(goal, c, i, j, dns[..|dns| - 1]);
      }
    }

    /** Completion never removes a cell, and it creates one exactly when the span is free of
        hard constraints and some dot node with rules covers it. */
    lemma {:induction false} CompletionCreatesCell(goal: Symbol, c: Option<Cell>, i: nat, j: nat, dns: seq<DotNode>)
      requires cfg.constrainParse ==> sentence.tree.Some?
      ensures CompletedAll(goal, c, i, j, dns).Some? <==> c.Some? || (!env.hardConstraint(i, j) && |WithRules(dns)| > 0)
    {
      if dns != [] {
        CompletionCreatesCell(goal, c, i, j, dns[..|dns| - 1]);
      }
    }

    /** Under constrained parsing, every rule handed to the combiner over [i, j) has the goal
        symbol or a reference label of the span as its left-hand side. */
    lemma ConstrainedRulesAreLabelled(goal: Symbol, i: nat, j: nat, sortedRules: seq<Rule>)
      requires cfg.constrainParse && sentence.tree.Some?
      ensures forall r :: r in CellRules(goal, i, j, sortedRules) ==>
        r.lhs == goal || r.lhs in sentence.tree.value.constituentLabels(i, j)
          || r.lhs in sentence.tree.value.concatenatedLabels(i, j) || r.lhs in sentence.tree.value.ccgLabels(i, j)
    {
      RuleFilter.FilterKeepsExactlyAllowed(sortedRules, goal, SpanLabels(i, j));
      forall r | r in CellRules(goal, i, j, sortedRules)
        ensures r.lhs == goal || r.lhs in SpanLabels(i, j)
      {
      }
    }

    /** Completes one dot node's rules into c, the cell of [i, j), unless a hard rule
        constraint covers the span. */
    method CompleteCell(goal: Symbol, c: Option<Cell>, i: nat, j: nat, dn: DotNode, sortedRules: seq<Rule>, arity: nat, path: SourcePath)
      returns (c': Option<Cell>)
      requires cfg.constrainParse ==> sentence.tree.Some?
      requires dn.applicable.Some? && sortedRules == dn.applicable.value.sortedRules
      requires arity == dn.applicable.value.arity && path == dn.path
      ensures c' == Completed(goal, c, i, j, dn)
    {
      c' := c;
      if env.hardConstraint(i, j) {
        return;
      }
      if c'.None? {
        c' := Some(EmptyCell(goal));
      }
      var filtered: seq<Rule>;
      if cfg.constrainParse {
        var t := sentence.tree.value;
        var labels := t.constituentLabels(i, j) + t.concatenatedLabels(i, j) + t.ccgLabels(i, j);
        filtered := RuleFilter.FilterByLabels(sortedRules, goal, set x | x in labels);
      } else {
        filtered := env.filterRules(i, j, sortedRules);
      }
      if arity == 0 {
        c' := Some(env.addAxioms(strategy, c'.value, i, j, filtered, path));
      } else {
        c' := Some(env.combine(strategy, c'.value, i, j, dn.ants, filtered, arity, path));
      }
    }

    /** Completing `a` and then `b` is completing `a + b`. */
    lemma {:induction false} CompletedAllAppend(goal: Symbol, c: Option<Cell>, i: nat, j: nat, a: seq<DotNode>, b: seq<DotNode>)
      requires cfg.constrainParse ==> sentence.tree.Some?
      ensures CompletedAll(goal, c, i, j, a + b) == CompletedAll(goal, CompletedAll(goal, c, i, j, a), i, j, b)
    {
      if b == [] {
        assert a + b == a;
      } else {
        assert (a + b)[..|a + b| - 1] == a + b[..|b| - 1];
        CompletedAllAppend(goal, c, i, j, a, b[..|b| - 1]);
      }
    }

    /** Completes the dot nodes with rules among `dots`, one grammar's dot cell, into c. */
    method CompleteDots(goal: Symbol, c: Option<Cell>, i: nat, j: nat, dots: seq<DotNode>) returns (c': Option<Cell>)
      requires cfg.constrainParse ==> sentence.tree.Some?
      ensures c' == CompletedAll(goal, c, i, j, WithRules(dots))
    {
      c' := c;
      assert dots[..0] == [];
      for d := 0 to |dots|
        invariant c' == CompletedAll(goal, c, i, j, WithRules(dots[..d]))
      {
        assert dots[..d + 1][..d] == dots[..d];
        var rc := dots[d].applicable;
        ghost var before := WithRules(dots[..d]);
        if rc.Some? {
          ghost var after := before + [dots[d]];
          assert after == WithRules(dots[..d + 1]);
          assert after[..|after| - 1] == before;
          c' := CompleteCell(goal, c', i, j, dots[d], rc.value.sortedRules, rc.value.arity, dots[d].path);
        } else {
          assert WithRules(dots[..d + 1]) == before + [] == before;
        }
      }
      assert dots[..|dots|] == dots;
    }

    /** Completion without a pop limit: every dot node with rules, grammar by grammar, is
        completed into the span's cell c. */
    method CompleteExhaustively(dcs: seq<DotChart>, goal: Symbol, c: Option<Cell>, i: nat, j: nat) returns (c': Option<Cell>)
      requires |dcs| == |grammars|
      requires cfg.constrainParse ==> sentence.tree.Some?
      ensures c' == CompletedGrammars(dcs, goal, c, i, j, |grammars|)
    {
      c' := c;
      for k := 0 to |grammars|
        invariant c' == CompletedGrammars(dcs, goal, c, i, j, k)
      {
        c' := CompleteGrammar(dcs, goal, c', i, j, k);
      }
    }

    /** The first k grammars completed into c, one grammar after another. */
    function CompletedGrammars(dcs: seq<DotChart>, goal: Symbol, c: Option<Cell>, i: nat, j: nat, k: nat): Option<Cell>
      requires |dcs| == |grammars| && k <= |grammars|
      requires cfg.constrainParse ==> sentence.tree.Some?
    {
      if k == 0 then c
      else CompletedAll(goal, CompletedGrammars(dcs, goal, c, i, j, k - 1), i, j, GrammarApplicable(dcs, k - 1, i, j))
    }

    /** Under a hard rule constraint, completing any number of grammars keeps the cell as it
        was. */
    lemma {:induction false} GrammarsKeepConstrainedCell(dcs: seq<DotChart>, goal: Symbol, c: Option<Cell>, i: nat, j: nat, k: nat)
      requires |dcs| == |grammars| && k <= |grammars|
      requires cfg.constrainParse ==> sentence.tree.Some?
      requires env.hardConstraint(i, j)
      ensures CompletedGrammars(dcs, goal, c, i, j, k) == c
    {
      if k > 0 {
        GrammarsKeepConstrainedCell(dcs, goal, c, i, j, k - 1);
        HardConstraintKeepsCell(goal, c, i, j, GrammarApplicable(dcs, k - 1, i, j));
      }
    }

    /** Exhaustive completion leaves a cell exactly when there was one already, or the span is
        free of hard constraints and some applicable grammar has a dot node with rules there. */
    lemma {:induction false} GrammarsCreateCell(dcs: seq<DotChart>, goal: Symbol, c: Option<Cell>, i: nat, j: nat, k: nat)
      requires |dcs| == |grammars| && k <= |grammars|
      requires cfg.constrainParse ==> sentence.tree.Some?
      ensures CompletedGrammars(dcs, goal, c, i, j, k).Some? <==>
        c.Some? || (!env.hardConstraint(i, j) && |ApplicableDots(dcs, k, i, j)| > 0)
    {
      if k > 0 {
        GrammarsCreateCell(dcs, goal, c, i, j, k - 1);
        var prev := CompletedGrammars(dcs, goal, c, i, j, k - 1);
        var dns := GrammarApplicable(dcs, k - 1, i, j);
        CompletionCreatesCell(goal, prev, i, j, dns);
        if GrammarDots(dcs, k - 1, i, j).Some? {
          WithRulesIdempotent(GrammarDots(dcs, k - 1, i, j).value);
        }
      }
    }

    /** Completes the dot nodes with rules of grammar k into c, if the grammar applies to
        [i, j) and its dot chart has a dot cell there. */
    method CompleteGrammar(dcs: seq<DotChart>, goal: Symbol, c: Option<Cell>, i: nat, j: nat, k: nat) returns (c': Option<Cell>)
      requires |dcs| == |grammars| && k < |grammars|
      requires cfg.constrainParse ==> sentence.tree.Some?
      ensures c' == CompletedAll(goal, c, i, j, GrammarApplicable(dcs, k, i, j))
    {
      var dist := sentence.lattice.distance(i, j);
      if env.hasRuleForSpan(grammars[k], i, j, dist) && env.dotCell(dcs[k], i, j).Some? {
        c' := CompleteDots(goal, c, i, j, env.dotCell(dcs[k], i, j).value);
      } else {
        c' := c;
      }
    }

    // ---------------------------------------------------------------------------------
    // Span-level cube pruning: seeding
    // ---------------------------------------------------------------------------------

    /** A dot node's rules after the manual constraints. */
    function Filtered(i: nat, j: nat, dn: DotNode): seq<Rule>
      requires dn.applicable.Some?
    {
      env.filterRules(i, j, dn.applicable.value.sortedRules)
    }

    /** The insertion of arity-0 rule r over [i, j) along `path`, pruning off. */
    function AxiomAddition(i: nat, j: nat, r: Rule, path: SourcePath): Addition
    {
      Addition(Edge(r, [], env.computeNode(r, [], i, j, path), path), true)
    }

    /** The insertions for the arity-0 rules `rules`: each one whose scoring the constrained
        decoding test admits, in rule order. */
    function AdmittedAxioms(i: nat, j: nat, rules: seq<Rule>, path: SourcePath): seq<Addition>
    {
      if rules == [] then []
      else
        var r := rules[|rules| - 1];
        AdmittedAxioms(i, j, rules[..|rules| - 1], path)
          + (if Admits(env.computeNode(r, [], i, j, path)) then [AxiomAddition(i, j, r, path)] else [])
    }

    /** A dot node gets a seed state: its rules have arity above 0 and some survive the
        manual constraints. */
    predicate Seeded(i: nat, j: nat, dn: DotNode)
    {
      dn.applicable.Some? && dn.applicable.value.arity > 0 && |Filtered(i, j, dn)| > 0
    }

    /** The seed state of dot node d of grammar g: rank vector all ones. */
    function Seed(i: nat, j: nat, g: nat, d: nat, dn: DotNode): CubeState
      requires Seeded(i, j, dn)
    {
      SeedInBounds(Filtered(i, j, dn), dn.ants);
      Materialize(env, i, j, g, d, dn, Filtered(i, j, dn), Ones(1 + |dn.ants|))
    }

    /** The axiom insertions seeding makes for one dot node with rules. */
    function DotAxioms(i: nat, j: nat, dn: DotNode): seq<Addition>
      requires dn.applicable.Some?
    {
      if dn.applicable.value.arity == 0 then AdmittedAxioms(i, j, Filtered(i, j, dn), dn.path) else []
    }

    /** The seed states for the first d dot nodes of grammar g's dot cell `dots`. */
    function DotsSeeds(i: nat, j: nat, g: nat, dots: seq<DotNode>, d: nat): seq<CubeState>
      requires d <= |dots|
    {
      if d == 0 then []
      else DotsSeeds(i, j, g, dots, d - 1) + (if Seeded(i, j, dots[d - 1]) then [Seed(i, j, g, d - 1, dots[d - 1])] else [])
    }

    /** All dot nodes of grammar g's dot cell for [i, j), when g applies to the span. */
    function GrammarDotCell(dcs: seq<DotChart>, g: nat, i: nat, j: nat): seq<DotNode>
      requires |dcs| == |grammars| && g < |grammars|
    {
      if GrammarDots(dcs, g, i, j).Some? then GrammarDots(dcs, g, i, j).value else []
    }

    /** The seed states of grammar g. */
    function GrammarSeeds(dcs: seq<DotChart>, g: nat, i: nat, j: nat): seq<CubeState>
      requires |dcs| == |grammars| && g < |grammars|
    {
      var dots := GrammarDotCell(dcs, g, i, j);
      DotsSeeds(i, j, g, dots, |dots|)
    }

    /** The dot nodes of the first g grammars' dot cells for [i, j), grammar by grammar. */
    function SpanDotNodes(dcs: seq<DotChart>, g: nat, i: nat, j: nat): seq<DotNode>
      requires |dcs| == |grammars| && g <= |grammars|
    {
      if g == 0 then [] else SpanDotNodes(dcs, g - 1, i, j) + GrammarDotCell(dcs, g - 1, i, j)
    }

    /** The seed states of the first g grammars. */
    function SpanSeeds(dcs: seq<DotChart>, g: nat, i: nat, j: nat): seq<CubeState>
      requires |dcs| == |grammars| && g <= |grammars|
    {
      if g == 0 then [] else SpanSeeds(dcs, g - 1, i, j) + GrammarSeeds(dcs, g - 1, i, j)
    }

    /** What seeding from one dot node does to the span's cell c: a dot node with rules has
        the cell created if need be and its admitted arity-0 rules inserted. */
    function SeedStep(goal: Symbol, c: Option<Cell>, i: nat, j: nat, dn: DotNode): Option<Cell>
    {
      if dn.applicable.None? then c
      else Some(OrNew(c, goal).(added := OrNew(c, goal).added + DotAxioms(i, j, dn)))
    }

    /** Seeding from the dot nodes `dns` one after another. */
    function SeededAll(goal: Symbol, c: Option<Cell>, i: nat, j: nat, dns: seq<DotNode>): Option<Cell>
    {
      if dns == [] then c
      else SeedStep(goal, SeededAll(goal, c, i, j, dns[..|dns| - 1]), i, j, dns[|dns| - 1])
    }

    /** The axiom insertions seeding makes for the dot nodes `dns`, in order. */
    function DotsAxioms(i: nat, j: nat, dns: seq<DotNode>): seq<Addition>
    {
      if dns == [] then []
      else
        var dn := dns[|dns| - 1];
        DotsAxioms(i, j, dns[..|dns| - 1]) + (if dn.applicable.Some? then DotAxioms(i, j, dn) else [])
    }

    /** The cell c of [i, j) once it is created (if `created`) and holds `axioms` more. */
    function SeededCell(goal: Symbol, c: Option<Cell>, created: bool, axioms: seq<Addition>): Option<Cell>
    {
      if c.None? && !created then None
      else Some(OrNew(c, goal).(added := OrNew(c, goal).added + axioms))
    }

    /** Inserting more into a seeded cell is seeding with the insertions appended. */
    lemma SeededCellExtends(goal: Symbol, c: Option<Cell>, created: bool, axioms: seq<Addition>, more: seq<Addition>)
      requires SeededCell(goal, c, created, axioms).Some?
      ensures var cell := SeededCell(goal, c, created, axioms).value;
        Some(cell.(added := cell.added + more)) == SeededCell(goal, c, created, axioms + more)
    {
      assert OrNew(c, goal).added + axioms + more == OrNew(c, goal).added + (axioms + more);
    }

    /** Seeding creates the cell exactly when one of the dot nodes has rules (or it existed
        before), and all it does to the cell is to insert the admitted arity-0 rules of the dot
        nodes with rules, in dot-node order, pruning off. */
    lemma {:induction false} SeedingFillsCell(goal: Symbol, c: Option<Cell>, i: nat, j: nat, dns: seq<DotNode>)
      ensures SeededAll(goal, c, i, j, dns) == SeededCell(goal, c, |WithRules(dns)| > 0, DotsAxioms(i, j, dns))
      ensures |WithRules(dns)| == 0 ==> DotsAxioms(i, j, dns) == []
    {
      if dns == [] {
        if c.Some? {
          assert c.value.added + [] == c.value.added;
        }
      } else {
        var init, dn := dns[..|dns| - 1], dns[|dns| - 1];
        SeedingFillsCell(goal, c, i, j, init);
        assert dns == init + [dn];
        var a := DotsAxioms(i, j, init);
        if dn.applicable.Some? {
          assert WithRules(dns) == WithRules(init) + [dn];
          if c.Some? || |WithRules(init)| > 0 {
            assert OrNew(c, goal).added + a + DotAxioms(i, j, dn) == OrNew(c, goal).added + (a + DotAxioms(i, j, dn));
          } else {
            assert a + DotAxioms(i, j, dn) == DotAxioms(i, j, dn);
          }
        } else {
          assert WithRules(dns) == WithRules(init) + [] == WithRules(init);
          assert DotsAxioms(i, j, dns) == a + [] == a;
        }
      }
    }

    /** Seeding from `a` and then `b` is seeding from `a + b`. */
    lemma {:induction false} SeededAllAppend(goal: Symbol, c: Option<Cell>, i: nat, j: nat, a: seq<DotNode>, b: seq<DotNode>)
      ensures SeededAll(goal, c, i, j, a + b) == SeededAll(goal, SeededAll(goal, c, i, j, a), i, j, b)
    {
      if b == [] {
        assert a + b == a;
      } else {
        assert (a + b)[..|a + b| - 1] == a + b[..|b| - 1];
        SeededAllAppend(goal, c, i, j, a, b[..|b| - 1]);
      }
    }

    /** The dot nodes with rules among the span's dot nodes are the ones exhaustive completion
        visits, so both completions look at the same dot nodes. */
    lemma {:induction false} SpanDotNodesWithRules(dcs: seq<DotChart>, g: nat, i: nat, j: nat)
      requires |dcs| == |grammars| && g <= |grammars|
      ensures WithRules(SpanDotNodes(dcs, g, i, j)) == ApplicableDots(dcs, g, i, j)
    {
      if g > 0 {
        var a, b := SpanDotNodes(dcs, g - 1, i, j), GrammarDotCell(dcs, g - 1, i, j);
        SpanDotNodesWithRules(dcs, g - 1, i, j);
        WithRulesAppend(a, b);
        assert WithRules(b) == GrammarApplicable(dcs, g - 1, i, j);
      }
    }

    /** Inserts the admitted arity-0 rules of `rules` along `path` into c, the cell of [i, j),
        pruning off. */
    method AddAdmittedAxioms(c: Cell, i: nat, j: nat, rules: seq<Rule>, path: SourcePath) returns (c': Cell)
      ensures c' == c.(added := c.added + AdmittedAxioms(i, j, rules, path))
    {
      c' := c;
      assert rules[..0] == [] && c.added + [] == c.added;
      for r := 0 to |rules|
        invariant c' == c.(added := c.added + AdmittedAxioms(i, j, rules[..r], path))
      {
        ghost var prev := AdmittedAxioms(i, j, rules[..r], path);
        assert rules[..r + 1][..r] == rules[..r];
        var result := env.computeNode(rules[r], [], i, j, path);
        if Admits(result) {
          assert AdmittedAxioms(i, j, rules[..r + 1], path) == prev + [AxiomAddition(i, j, rules[r], path)];
          assert c.added + prev + [AxiomAddition(i, j, rules[r], path)] == c.added + (prev + [AxiomAddition(i, j, rules[r], path)]);
          c' := Offer(c', Addition(Edge(rules[r], [], result, path), true));
        } else {
          assert AdmittedAxioms(i, j, rules[..r + 1], path) == prev + [] == prev;
        }
      }
      assert rules[..|rules|] == rules;
    }

    /** Seeds from one dot node, number d of grammar g's dot cell: when it has rules, creates
        the span's cell c if need be and either inserts its admitted arity-0 rules or yields its
        seed state. */
    method SeedDot(goal: Symbol, c: Option<Cell>, i: nat, j: nat, g: nat, d: nat, dn: DotNode)
      returns (c': Option<Cell>, seed: Option<CubeState>)
      ensures c' == SeedStep(goal, c, i, j, dn)
      ensures seed == if Seeded(i, j, dn) then Some(Seed(i, j, g, d, dn)) else None
    {
      c', seed := c, None;
      var rc := dn.applicable;
      if rc.None? {
        return;
      }
      if c'.None? {
        c' := Some(EmptyCell(goal));
      }
      var rules := env.filterRules(i, j, rc.value.sortedRules);
      if |rules| == 0 {
        assert c'.value.added + [] == c'.value.added;
        return;
      }
      if rc.value.arity == 0 {
        var cell := AddAdmittedAxioms(c'.value, i, j, rules, dn.path);
        c' := Some(cell);
      } else {
        assert c'.value.added + [] == c'.value.added;
        SeedInBounds(rules, dn.ants);
        seed := Some(Materialize(env, i, j, g, d, dn, rules, Ones(1 + |dn.ants|)));
      }
    }

    /** Seeds from the dot cell `dots` of grammar g, dot node by dot node. */
    method SeedDots(goal: Symbol, c: Option<Cell>, i: nat, j: nat, g: nat, dots: seq<DotNode>)
      returns (c': Option<Cell>, seeds: seq<CubeState>)
      ensures c' == SeededAll(goal, c, i, j, dots)
      ensures seeds == DotsSeeds(i, j, g, dots, |dots|)
      ensures c.Some? || |seeds| > 0 ==> c'.Some?
    {
      c', seeds := c, [];
      assert dots[..0] == [];
      for d := 0 to |dots|
        invariant c' == SeededAll(goal, c, i, j, dots[..d])
        invariant seeds == DotsSeeds(i, j, g, dots, d)
        invariant c.Some? || |seeds| > 0 ==> c'.Some?
      {
        assert dots[..d + 1][..d] == dots[..d];
        var seed;
        c', seed := SeedDot(goal, c', i, j, g, d, dots[d]);
        if seed.Some? {
          seeds := seeds + [seed.value];
        } else {
          assert DotsSeeds(i, j, g, dots, d + 1) == seeds + [] == seeds;
        }
      }
      assert dots[..|dots|] == dots;
    }

    /** Seeds from grammar g, if it applies to [i, j) and its dot chart has a dot cell there. */
    method SeedGrammar(dcs: seq<DotChart>, goal: Symbol, c: Option<Cell>, i: nat, j: nat, g: nat)
      returns (c': Option<Cell>, seeds: seq<CubeState>)
      requires |dcs| == |grammars| && g < |grammars|
      ensures c' == SeededAll(goal, c, i, j, GrammarDotCell(dcs, g, i, j))
      ensures seeds == GrammarSeeds(dcs, g, i, j)
      ensures c.Some? || |seeds| > 0 ==> c'.Some?
    {
      var dist := sentence.lattice.distance(i, j);
      if !env.hasRuleForSpan(grammars[g], i, j, dist) || env.dotCell(dcs[g], i, j).None? {
        return c, [];
      }
      c', seeds := SeedDots(goal, c, i, j, g, env.dotCell(dcs[g], i, j).value);
    }

    /** Seeding of span-level cube pruning over all grammars that apply to [i, j), with dot
        charts dcs and goal symbol goal: every dot node of the span is seeded into its cell c,
        and the seed states make up the queue and the visited set. */
    method SeedSpan(dcs: seq<DotChart>, goal: Symbol, c: Option<Cell>, i: nat, j: nat)
      returns (c': Option<Cell>, queue: seq<CubeState>, visited: set<Key>)
      requires |dcs| == |grammars|
      ensures c' == SeededAll(goal, c, i, j, SpanDotNodes(dcs, |grammars|, i, j))
      ensures queue == SpanSeeds(dcs, |grammars|, i, j)
      ensures visited == KeySet(queue)
      ensures |queue| > 0 ==> c'.Some?
    {
      c', queue := c, [];
      for g := 0 to |grammars|
        invariant c' == SeededAll(goal, c, i, j, SpanDotNodes(dcs, g, i, j))
        invariant queue == SpanSeeds(dcs, g, i, j)
        invariant |queue| > 0 ==> c'.Some?
      {
        SeededAllAppend(goal, c, i, j, SpanDotNodes(dcs, g, i, j), GrammarDotCell(dcs, g, i, j));
        var seeds;
        c', seeds := SeedGrammar(dcs, goal, c', i, j, g);
        queue := queue + seeds;
      }
      visited := KeySet(queue);
    }

    /** Every seed state of the first d dot nodes of grammar g's dot cell is well formed, ranks
        all ones, keyed by grammar g and its own dot node's position, below d. */
    lemma {:induction false} DotsSeedsShape(i: nat, j: nat, g: nat, dots: seq<DotNode>, d: nat)
      requires d <= |dots|
      ensures forall t :: t in DotsSeeds(i, j, g, dots, d) ==>
        && WellFormed(env, i, j, t) && t.key.grammar == g && t.key.dot < d
        && t.dotNode == dots[t.key.dot] && t.key.ranks == Ones(1 + |t.dotNode.ants|)
      ensures DistinctKeys(DotsSeeds(i, j, g, dots, d))
    {
      if d > 0 {
        DotsSeedsShape(i, j, g, dots, d - 1);
        var prev := DotsSeeds(i, j, g, dots, d - 1);
        if Seeded(i, j, dots[d - 1]) {
          var t := Seed(i, j, g, d - 1, dots[d - 1]);
          SeedInBounds(Filtered(i, j, dots[d - 1]), dots[d - 1].ants);
          forall p | 0 <= p < |prev|
            ensures (prev + [t])[p].key != t.key
          {
            assert prev[p] in prev;
          }
        }
      }
    }

    /** Every dot node among the first d that gets a seed has its seed state queued. */
    lemma {:induction false} DotsSeedsCover(i: nat, j: nat, g: nat, dots: seq<DotNode>, d: nat)
      requires d <= |dots|
      ensures forall e :: 0 <= e < d && Seeded(i, j, dots[e]) ==> Seed(i, j, g, e, dots[e]) in DotsSeeds(i, j, g, dots, d)
    {
      if d > 0 {
        DotsSeedsCover(i, j, g, dots, d - 1);
      }
    }

    /** Keys of distinct states stay distinct when two queues with disjoint keys are joined. */
    lemma DistinctKeysAppend(a: seq<CubeState>, b: seq<CubeState>)
      requires DistinctKeys(a) && DistinctKeys(b)
      requires forall s, t :: s in a && t in b ==> s.key != t.key
      ensures DistinctKeys(a + b)
    {
      forall p, r | 0 <= p < r < |a + b|
        ensures (a + b)[p].key != (a + b)[r].key
      {
        if p < |a| && r >= |a| {
          assert (a + b)[p] in a && (a + b)[r] == b[r - |a|];
          assert b[r - |a|] in b;
        } else if p >= |a| {
          assert (a + b)[p] == b[p - |a|];
        }
      }
    }

    /** The seed states of the first g grammars are well formed, with ranks all ones and
        grammar positions below g. */
    lemma {:induction false} SpanSeedsWellFormed(dcs: seq<DotChart>, g: nat, i: nat, j: nat)
      requires |dcs| == |grammars| && g <= |grammars|
      ensures forall t :: t in SpanSeeds(dcs, g, i, j) ==>
        WellFormed(env, i, j, t) && t.key.grammar < g && t.key.ranks == Ones(1 + |t.dotNode.ants|)
    {
      if g > 0 {
        SpanSeedsWellFormed(dcs, g - 1, i, j);
        var dots := GrammarDotCell(dcs, g - 1, i, j);
        DotsSeedsShape(i, j, g - 1, dots, |dots|);
      }
    }

    /** No two seed states share a key: the queue cube pruning starts from holds each seed
        once. */
    lemma {:induction false} SpanSeedsDistinct(dcs: seq<DotChart>, g: nat, i: nat, j: nat)
      requires |dcs| == |grammars| && g <= |grammars|
      ensures DistinctKeys(SpanSeeds(dcs, g, i, j))
    {
      if g > 0 {
        var a, b := SpanSeeds(dcs, g - 1, i, j), GrammarSeeds(dcs, g - 1, i, j);
        assert DistinctKeys(a) by {
          SpanSeedsDistinct(dcs, g - 1, i, j);
        }
        assert DistinctKeys(b) by {
          var dots := GrammarDotCell(dcs, g - 1, i, j);
          DotsSeedsShape(i, j, g - 1, dots, |dots|);
        }
        SeedKeysApart(dcs, g - 1, i, j);
        DistinctKeysAppend(a, b);
      }
    }

    /** The seeds of grammar g have keys apart from those of the grammars before it. */
    lemma SeedKeysApart(dcs: seq<DotChart>, g: nat, i: nat, j: nat)
      requires |dcs| == |grammars| && g < |grammars|
      ensures forall s, t :: s in SpanSeeds(dcs, g, i, j) && t in GrammarSeeds(dcs, g, i, j) ==> s.key != t.key
    {
      assert forall t :: t in SpanSeeds(dcs, g, i, j) ==> t.key.grammar < g by {
        SpanSeedsWellFormed(dcs, g, i, j);
      }
      assert forall t :: t in GrammarSeeds(dcs, g, i, j) ==> t.key.grammar == g by {
        var dots := GrammarDotCell(dcs, g, i, j);
        DotsSeedsShape(i, j, g, dots, |dots|);
      }
    }

    /** The queue seeding leaves for the whole span is ready for popping: well-formed states
        with distinct keys. */
    lemma SpanSeedsReady(dcs: seq<DotChart>, i: nat, j: nat)
      requires |dcs| == |grammars|
      ensures SeedQueue(env, i, j, SpanSeeds(dcs, |grammars|, i, j))
    {
      SpanSeedsWellFormed(dcs, |grammars|, i, j);
      SpanSeedsDistinct(dcs, |grammars|, i, j);
    }

    // ---------------------------------------------------------------------------------
    // Span-level cube pruning: popping
    // ---------------------------------------------------------------------------------

    /** The insertion of a popped state's rule application, pruning off. */
    function PopInsertion(s: CubeState): Addition
    {
      Addition(Edge(s.rule, s.ants, s.result, s.dotNode.path), true)
    }

    /** The insertions for the popped states `popped`: each one the constrained decoding test
        admits, in pop order. */
    function PopInsertions(popped: seq<CubeState>): seq<Addition>
    {
      if popped == [] then []
      else
        var s := popped[|popped| - 1];
        PopInsertions(popped[..|popped| - 1]) + (if Admits(s.result) then [PopInsertion(s)] else [])
    }

    /** Offering the next popped state, when it is admitted, extends the cell by its
        insertion. */
    lemma OfferPopped(c: Cell, c1: Cell, popped: seq<CubeState>, s: CubeState)
      requires c1 == c.(added := c.added + PopInsertions(popped))
      ensures (if Admits(s.result) then Offer(c1, PopInsertion(s)) else c1) == c.(added := c.added + PopInsertions(popped + [s]))
    {
      assert (popped + [s])[..|popped|] == popped;
      if Admits(s.result) {
        assert c.added + PopInsertions(popped) + [PopInsertion(s)] == c.added + (PopInsertions(popped) + [PopInsertion(s)]);
      } else {
        assert PopInsertions(popped + [s]) == PopInsertions(popped) + [];
      }
    }

    /** The pop loop: while states are queued and fewer than the pop limit have been popped,
        take the best one, insert it into the cell if the constrained decoding test admits it,
        and queue its unvisited in-bounds neighbours. The states popped, in order, are `popped`:
        at most the pop limit of them, no two alike, each a seed or a neighbour of one popped
        before it, the first the best seed. If the loop stops short of the limit, every seed
        was popped and so was every in-bounds neighbour of every popped state. */
    method PopCandidates(c: Cell, i: nat, j: nat, seeds: seq<CubeState>, visited0: set<Key>)
      returns (c': Cell, ghost popped: seq<CubeState>)
      requires SeedQueue(env, i, j, seeds) && visited0 == KeySet(seeds)
      ensures c' == c.(added := c.added + PopInsertions(popped))
      ensures PopOutcome(env, i, j, cfg.popLimit, seeds, popped)
    {
      c', popped := c, [];
      var queue, visited := seeds, visited0;
      var popCount := 0;
      assert c.added + [] == c.added;
      PopInvariantHoldsAtStart(env, i, j, seeds);
      while |queue| > 0 && popCount < cfg.popLimit
        invariant PopInvariant(env, i, j, seeds, queue, visited, popped)
        invariant popCount == |popped| && (popCount == 0 || popCount <= cfg.popLimit)
        invariant c' == c.(added := c.added + PopInsertions(popped))
        invariant |popped| == 0 ==> queue == seeds
        invariant |popped| > 0 ==> |seeds| > 0 && popped[0] == seeds[BestIndex(seeds)]
        decreases cfg.popLimit - popCount
      {
        var s;
        ghost var first := if popped == [] then queue[BestIndex(queue)] else popped[0];
        s, queue, visited := PopBest(env, i, j, queue, visited, seeds, popped);
        popCount := popCount + 1;
        assert (if Admits(s.result) then Offer(c', PopInsertion(s)) else c') == c.(added := c.added + PopInsertions(popped + [s])) by {
          OfferPopped(c, c', popped, s);
        }
        if Admits(s.result) {
          c' := Offer(c', PopInsertion(s));
        }
        assert (popped + [s])[0] == first;
        popped := popped + [s];
      }
      if |popped| < cfg.popLimit {
        PopInvariantDrained(env, i, j, seeds, visited, popped);
      }
    }

    /** Span-level cube pruning of the span's cell c over [i, j): seeding, then the pop loop.
        The cell exists afterwards exactly when it did before or some dot node of the span has
        rules, and what it gains is the admitted arity-0 rules of those dot nodes, in order,
        followed by the admitted popped states, in pop order. */
    method CubePruneCell(dcs: seq<DotChart>, goal: Symbol, c: Option<Cell>, i: nat, j: nat)
      returns (c': Option<Cell>, ghost popped: seq<CubeState>)
      requires |dcs| == |grammars|
      ensures var dns := SpanDotNodes(dcs, |grammars|, i, j);
        c' == SeededCell(goal, c, |WithRules(dns)| > 0, DotsAxioms(i, j, dns) + PopInsertions(popped))
      ensures PopOutcome(env, i, j, cfg.popLimit, SpanSeeds(dcs, |grammars|, i, j), popped)
    {
      ghost var dns := SpanDotNodes(dcs, |grammars|, i, j);
      ghost var created, axioms := |WithRules(dns)| > 0, DotsAxioms(i, j, dns);
      var queue, visited;
      c', queue, visited := SeedSpan(dcs, goal, c, i, j);
      assert c' == SeededCell(goal, c, created, axioms) by {
        SeedingFillsCell(goal, c, i, j, dns);
      }
      assert SeedQueue(env, i, j, queue) by {
        SpanSeedsReady(dcs, i, j);
      }
      popped := [];
      if |queue| > 0 {
        var cell;
        cell, popped := PopCandidates(c'.value, i, j, queue, visited);
        SeededCellExtends(goal, c, created, axioms, PopInsertions(popped));
        c' := Some(cell);
      } else {
        assert axioms + [] == axioms;
        PopOutcomeEmpty(env, i, j, cfg.popLimit);
      }
    }

    /** What completing span [i, j) with dot charts dcs makes of its cell c: under a pop limit,
        the seeded cell extended by the admitted popped states `popped`, which satisfy the pop
        loop's outcome; without one, no pops and every dot node with rules completed in turn. */
    ghost predicate CompletedSpan(dcs: seq<DotChart>, goal: Symbol, c: Option<Cell>, c': Option<Cell>, i: nat, j: nat,
                                  popped: seq<CubeState>)
      requires |dcs| == |grammars|
      requires cfg.popLimit <= 0 && cfg.constrainParse ==> sentence.tree.Some?
    {
      if cfg.popLimit > 0 then
        var dns := SpanDotNodes(dcs, |grammars|, i, j);
        && c' == SeededCell(goal, c, |WithRules(dns)| > 0, DotsAxioms(i, j, dns) + PopInsertions(popped))
        && PopOutcome(env, i, j, cfg.popLimit, SpanSeeds(dcs, |grammars|, i, j), popped)
      else
        popped == [] && c' == CompletedGrammars(dcs, goal, c, i, j, |grammars|)
    }

    /** Completion of span [i, j), on its cell c with dot charts dcs: cube pruning under a pop
        limit when one is set, otherwise exhaustive completion of every dot node with rules. */
    method CompleteSpan(dcs: seq<DotChart>, goal: Symbol, c: Option<Cell>, i: nat, j: nat)
      returns (c': Option<Cell>, ghost popped: seq<CubeState>)
      requires |dcs| == |grammars|
      requires cfg.popLimit <= 0 && cfg.constrainParse ==> sentence.tree.Some?
      ensures CompletedSpan(dcs, goal, c, c', i, j, popped)
    {
      if cfg.popLimit > 0 {
        c', popped := CubePruneCell(dcs, goal, c, i, j);
      } else {
        popped := [];
        c' := CompleteExhaustively(dcs, goal, c, i, j);
      }
    }

    // ---------------------------------------------------------------------------------
    // Unary closure
    // ---------------------------------------------------------------------------------

    /** Grammar g's unary rules under x's left-hand side: the rules at the trie position the
        root reaches by that symbol, when g applies to [i, j) and the position holds a rule
        collection of arity 1. */
    function GrammarUnaryRules(i: nat, j: nat, g: nat, x: Node): seq<Rule>
      requires g < |grammars|
    {
      var m := env.trieMatch(grammars[g], x.lhs);
      if env.hasRuleForSpan(grammars[g], i, j, sentence.lattice.distance(i, j))
         && m.Some? && m.value.collection.Some? && m.value.collection.value.arity == 1
      then m.value.collection.value.sortedRules
      else []
    }

    /** The unary rules of the first k grammars under x, grammar by grammar. */
    function UnaryRules(i: nat, j: nat, k: nat, x: Node): seq<Rule>
      requires k <= |grammars|
    {
      if k == 0 then [] else UnaryRules(i, j, k - 1, x) + GrammarUnaryRules(i, j, k - 1, x)
    }

    /** A rule is among x's unary rules exactly when some grammar that applies to the span
        has it as a unary rule under x's left-hand side. */
    lemma {:induction false} UnaryRulesFire(i: nat, j: nat, k: nat, x: Node)
      requires k <= |grammars|
      ensures forall r :: r in UnaryRules(i, j, k, x) <==>
        exists g :: 0 <= g < k && env.hasRuleForSpan(grammars[g], i, j, sentence.lattice.distance(i, j))
          && FiresUnary(env, grammars[g], x.lhs, r)
    {
      if k > 0 {
        UnaryRulesFire(i, j, k - 1, x);
      }
    }

    /** The insertion of unary rule r applied to node x, with an empty source path and pruning
        off. */
    function UnaryAddition(i: nat, j: nat, x: Node, r: Rule): Addition
    {
      Addition(Edge(r, [x], env.computeNode(r, [x], i, j, EmptyPath), EmptyPath), true)
    }

    /** The insertions of `rules` applied to x, in rule order. */
    function UnaryAdditions(i: nat, j: nat, x: Node, rules: seq<Rule>): seq<Addition>
    {
      if rules == [] then []
      else UnaryAdditions(i, j, x, rules[..|rules| - 1]) + [UnaryAddition(i, j, x, rules[|rules| - 1])]
    }

    lemma {:induction false} UnaryAdditionsAppend(i: nat, j: nat, x: Node, a: seq<Rule>, b: seq<Rule>)
      ensures UnaryAdditions(i, j, x, a + b) == UnaryAdditions(i, j, x, a) + UnaryAdditions(i, j, x, b)
    {
      if b == [] {
        assert a + b == a;
      } else {
        assert (a + b)[..|a + b| - 1] == a + b[..|b| - 1];
        UnaryAdditionsAppend(i, j, x, a, b[..|b| - 1]);
      }
    }

    /** The insertions that expanding node x makes: every grammar's unary rules under x. */
    function NodeAdditions(i: nat, j: nat, x: Node): seq<Addition>
    {
      UnaryAdditions(i, j, x, UnaryRules(i, j, |grammars|, x))
    }

    /** The insertions that expanding the nodes `xs` in turn makes. */
    function ClosureAdditions(i: nat, j: nat, xs: seq<Node>): seq<Addition>
    {
      if xs == [] then [] else ClosureAdditions(i, j, xs[..|xs| - 1]) + NodeAdditions(i, j, xs[|xs| - 1])
    }

    /** The nodes handed back while expanding xs[m], the cell having been through the expansion
        of xs[..m] after starting as c. */
    function Produced(c: Cell, i: nat, j: nat, xs: seq<Node>, m: nat): seq<Node>
      requires m < |xs|
    {
      Results(env, c.(added := c.added + ClosureAdditions(i, j, xs[..m])), NodeAdditions(i, j, xs[m]))
    }

    /** Offers grammar g's unary rules under x to the cell, collecting the nodes handed back
        whose left-hand side has not been expanded. */
    method ExpandInGrammar(c: Cell, i: nat, j: nat, g: nat, x: Node, seen: set<Symbol>)
      returns (c': Cell, incoming: seq<Node>)
      requires g < |grammars|
      ensures var adds := UnaryAdditions(i, j, x, GrammarUnaryRules(i, j, g, x));
        c' == c.(added := c.added + adds) && incoming == Fresh(Results(env, c, adds), seen)
    {
      c', incoming := c, [];
      assert c.added + [] == c.added;
      if !env.hasRuleForSpan(grammars[g], i, j, sentence.lattice.distance(i, j)) {
        return;
      }
      var child := env.trieMatch(grammars[g], x.lhs);
      if child.Some? && child.value.collection.Some? && child.value.collection.value.arity == 1 {
        var rules := child.value.collection.value.sortedRules;
        for r := 0 to |rules|
          invariant c' == c.(added := c.added + UnaryAdditions(i, j, x, rules[..r]))
          invariant incoming == Fresh(Results(env, c, UnaryAdditions(i, j, x, rules[..r])), seen)
        {
          var result := env.computeNode(rules[r], [x], i, j, EmptyPath);
          var a := Addition(Edge(rules[r], [x], result, EmptyPath), true);
          var resNode := env.insertResult(c', a);
          ExpandRuleStep(c, c', i, j, x, rules, r, seen, incoming);
          c' := Offer(c', a);
          if resNode.Some? && resNode.value.lhs !in seen {
            incoming := incoming + [resNode.value];
          }
        }
        assert rules[..|rules|] == rules;
      }
    }

    /** One rule further in the expansion of x within one grammar. */
    lemma ExpandRuleStep(c: Cell, mid: Cell, i: nat, j: nat, x: Node, rules: seq<Rule>, r: nat, seen: set<Symbol>,
                         incoming: seq<Node>)
      requires r < |rules|
      requires mid == c.(added := c.added + UnaryAdditions(i, j, x, rules[..r]))
      requires incoming == Fresh(Results(env, c, UnaryAdditions(i, j, x, rules[..r])), seen)
      ensures var a := UnaryAddition(i, j, x, rules[r]);
        Offer(mid, a) == c.(added := c.added + UnaryAdditions(i, j, x, rules[..r + 1]))
      ensures var back := env.insertResult(mid, UnaryAddition(i, j, x, rules[r]));
        incoming + (if back.Some? && back.value.lhs !in seen then [back.value] else [])
          == Fresh(Results(env, c, UnaryAdditions(i, j, x, rules[..r + 1])), seen)
    {
      var a := UnaryAddition(i, j, x, rules[r]);
      var prev := UnaryAdditions(i, j, x, rules[..r]);
      var resNode := env.insertResult(mid, a);
      var got := if resNode.Some? then [resNode.value] else [];
      assert UnaryAdditions(i, j, x, rules[..r + 1]) == prev + [a] by {
        assert rules[..r + 1][..r] == rules[..r];
      }
      assert Results(env, c, prev + [a]) == Results(env, c, prev) + got by {
        assert (prev + [a])[..|prev|] == prev;
      }
      assert Fresh(Results(env, c, prev) + got, seen) == incoming + Fresh(got, seen) by {
        FreshAppend(Results(env, c, prev), got, seen);
      }
      assert c.added + prev + [a] == c.added + (prev + [a]);
    }

    /** Expands node x: offers every grammar's unary rules under x to the cell, collecting the
        nodes handed back whose left-hand side has not been expanded. */
    method ExpandNode(c: Cell, i: nat, j: nat, x: Node, seen: set<Symbol>) returns (c': Cell, incoming: seq<Node>)
      ensures c' == c.(added := c.added + NodeAdditions(i, j, x))
      ensures incoming == Fresh(Results(env, c, NodeAdditions(i, j, x)), seen)
    {
      c', incoming := c, [];
      assert c.added + [] == c.added;
      for g := 0 to |grammars|
        invariant c' == c.(added := c.added + UnaryAdditions(i, j, x, UnaryRules(i, j, g, x)))
        invariant incoming == Fresh(Results(env, c, UnaryAdditions(i, j, x, UnaryRules(i, j, g, x))), seen)
      {
        var mid, gained := c', incoming;
        c', gained := ExpandInGrammar(c', i, j, g, x, seen);
        ExpandNodeStep(c, mid, c', i, j, g, x, seen, incoming, gained);
        incoming := incoming + gained;
      }
    }

    /** One grammar further in the expansion of x. */
    lemma ExpandNodeStep(c: Cell, mid: Cell, c': Cell, i: nat, j: nat, g: nat, x: Node, seen: set<Symbol>,
                         incoming: seq<Node>, gained: seq<Node>)
      requires g < |grammars|
      requires mid == c.(added := c.added + UnaryAdditions(i, j, x, UnaryRules(i, j, g, x)))
      requires incoming == Fresh(Results(env, c, UnaryAdditions(i, j, x, UnaryRules(i, j, g, x))), seen)
      requires var more := UnaryAdditions(i, j, x, GrammarUnaryRules(i, j, g, x));
        c' == mid.(added := mid.added + more) && gained == Fresh(Results(env, mid, more), seen)
      ensures c' == c.(added := c.added + UnaryAdditions(i, j, x, UnaryRules(i, j, g + 1, x)))
      ensures incoming + gained == Fresh(Results(env, c, UnaryAdditions(i, j, x, UnaryRules(i, j, g + 1, x))), seen)
    {
      var prev := UnaryAdditions(i, j, x, UnaryRules(i, j, g, x));
      var more := UnaryAdditions(i, j, x, GrammarUnaryRules(i, j, g, x));
      assert UnaryAdditions(i, j, x, UnaryRules(i, j, g + 1, x)) == prev + more by {
        UnaryAdditionsAppend(i, j, x, UnaryRules(i, j, g, x), GrammarUnaryRules(i, j, g, x));
      }
      assert c.added + prev + more == c.added + (prev + more);
      assert Fresh(Results(env, c, prev + more), seen) == incoming + gained by {
        ResultsAppend(env, c, prev, more);
        FreshAppend(Results(env, c, prev), Results(env, mid, more), seen);
      }
    }

    /** What the unary closure of cell c0 over [i, j) takes in when it expands the last node
        of p, the nodes before it having been expanded already: the nodes that expansion hands
        back whose left-hand side no node of p has (the expanded set grows only when a node is
        taken off the agenda, so two nodes with one new left-hand side are both taken in). */
    ghost function Intake(c0: Cell, i: nat, j: nat): seq<Node> -> seq<Node>
    {
      p => if p == [] then [] else Fresh(Produced(c0, i, j, p, |p| - 1), Lhss(p))
    }

    lemma IntakeTakesFresh(c0: Cell, i: nat, j: nat)
      ensures TakesFresh(Intake(c0, i, j))
    {
      forall p: seq<Node>, y | y in Intake(c0, i, j)(p)
        ensures y.lhs !in Lhss(p)
      {
        FreshMembers(Produced(c0, i, j, p, |p| - 1), Lhss(p));
      }
    }

    /** The agenda of the unary closure of cell c0, which started from the cell's nodes
        `initial`: the nodes expanded so far followed by the nodes still queued are the initial
        nodes followed by every node the expansions so far have taken in. */
    ghost predicate Agenda(c0: Cell, i: nat, j: nat, initial: seq<Node>, expanded: seq<Node>, queue: seq<Node>)
    {
      expanded + queue == initial + TakenWith(Intake(c0, i, j), expanded, |expanded|)
    }

    /** What the unary closure of cell c0 over [i, j) computes: the nodes it expands are the
        cell's own sorted nodes followed by every node the expansions take in, and `count` is
        the number of nodes taken in. */
    ghost predicate UnaryClosure(c0: Cell, i: nat, j: nat, expanded: seq<Node>, count: int)
    {
      var initial := env.sortedNodes(c0);
      && Drained(Intake(c0, i, j), initial, expanded)
      && count == |expanded| - |initial|
    }

    /** The unary closure is determined by the cell it starts from: one sequence of expanded
        nodes, hence one count and one closed cell, satisfies it. */
    lemma UnaryClosureUnique(c0: Cell, i: nat, j: nat, e1: seq<Node>, n1: int, e2: seq<Node>, n2: int)
      requires UnaryClosure(c0, i, j, e1, n1) && UnaryClosure(c0, i, j, e2, n2)
      ensures e1 == e2 && n1 == n2
      ensures ClosureAdditions(i, j, e1) == ClosureAdditions(i, j, e2)
    {
      IntakeTakesFresh(c0, i, j);
      DrainedUnique(Intake(c0, i, j), env.sortedNodes(c0), e1, e2);
    }

    /** The closure is complete: every node any expansion hands back has its left-hand side
        expanded, so every grammar's unary rules have been applied under every left-hand side
        the closed cell reaches. */
    lemma ClosureComplete(c0: Cell, i: nat, j: nat, expanded: seq<Node>, count: int)
      requires UnaryClosure(c0, i, j, expanded, count)
      ensures forall m, y :: 0 <= m < |expanded| && y in Produced(c0, i, j, expanded, m) ==> y.lhs in Lhss(expanded)
    {
      forall m, y | 0 <= m < |expanded| && y in Produced(c0, i, j, expanded, m)
        ensures y.lhs in Lhss(expanded)
      {
        LhssPrefix(expanded, m + 1);
        if y.lhs !in Lhss(expanded[..m + 1]) {
          IntakeAt(c0, i, j, expanded, m);
          FreshMembers(Produced(c0, i, j, expanded, m), Lhss(expanded[..m + 1]));
          DrainedTakesMember(Intake(c0, i, j), env.sortedNodes(c0), expanded, m);
        }
      }
    }

    /** Every node the closure takes in was handed back by an earlier expansion, with a
        left-hand side not expanded by then. */
    lemma ClosureTakesHandedBack(c0: Cell, i: nat, j: nat, expanded: seq<Node>, count: int)
      requires UnaryClosure(c0, i, j, expanded, count)
      ensures forall k :: |env.sortedNodes(c0)| <= k < |expanded| ==>
        exists m :: 0 <= m < k && expanded[k] in Produced(c0, i, j, expanded, m)
          && expanded[k].lhs !in Lhss(expanded[..m + 1])
    {
      forall k | |env.sortedNodes(c0)| <= k < |expanded|
        ensures exists m :: (0 <= m < k && expanded[k] in Produced(c0, i, j, expanded, m)
          && expanded[k].lhs !in Lhss(expanded[..m + 1]))
      {
        var m := ClosureTakenAt(c0, i, j, expanded, count, k);
      }
    }

    /** The expansion that took in the k-th expanded node. */
    lemma ClosureTakenAt(c0: Cell, i: nat, j: nat, expanded: seq<Node>, count: int, k: nat) returns (m: nat)
      requires UnaryClosure(c0, i, j, expanded, count)
      requires |env.sortedNodes(c0)| <= k < |expanded|
      ensures m < k && expanded[k] in Produced(c0, i, j, expanded, m) && expanded[k].lhs !in Lhss(expanded[..m + 1])
    {
      IntakeTakesFresh(c0, i, j);
      m := DrainedTakenBy(Intake(c0, i, j), env.sortedNodes(c0), expanded, k);
      IntakeAt(c0, i, j, expanded, m);
      FreshMembers(Produced(c0, i, j, expanded, m), Lhss(expanded[..m + 1]));
    }

    /** What expanding xs[m] takes in, after the expansion of xs[..m]. */
    lemma IntakeAt(c0: Cell, i: nat, j: nat, xs: seq<Node>, m: nat)
      requires m < |xs|
      ensures Intake(c0, i, j)(xs[..m + 1]) == Fresh(Produced(c0, i, j, xs, m), Lhss(xs[..m + 1]))
    {
      assert xs[..m + 1] == xs[..m] + [xs[m]];
      ProducedLast(c0, i, j, xs[..m], xs[m]);
    }

    /** What expanding x hands back, after the expansion of xs. */
    lemma ProducedLast(c0: Cell, i: nat, j: nat, xs: seq<Node>, x: Node)
      ensures Produced(c0, i, j, xs + [x], |xs|)
        == Results(env, c0.(added := c0.added + ClosureAdditions(i, j, xs)), NodeAdditions(i, j, x))
    {
      assert (xs + [x])[..|xs|] == xs;
    }

    /** Taking the head x of the queue, expanding it and queueing the nodes handed back whose
        left-hand side is new keeps the agenda. */
    lemma AgendaStep(c0: Cell, i: nat, j: nat, initial: seq<Node>, expanded: seq<Node>, queue: seq<Node>,
                     incoming: seq<Node>)
      requires Agenda(c0, i, j, initial, expanded, queue)
      requires queue != []
      requires incoming == Fresh(Results(env, c0.(added := c0.added + ClosureAdditions(i, j, expanded)),
                                         NodeAdditions(i, j, queue[0])), Lhss(expanded + [queue[0]]))
      ensures Agenda(c0, i, j, initial, expanded + [queue[0]], queue[1..] + incoming)
    {
      IntakeLast(c0, i, j, expanded, queue[0]);
      AgendaShift(Intake(c0, i, j), initial, expanded, queue, incoming);
    }

    /** What expanding x takes in, after the expansion of xs. */
    lemma IntakeLast(c0: Cell, i: nat, j: nat, xs: seq<Node>, x: Node)
      ensures Intake(c0, i, j)(xs + [x])
        == Fresh(Results(env, c0.(added := c0.added + ClosureAdditions(i, j, xs)), NodeAdditions(i, j, x)), Lhss(xs + [x]))
    {
      ProducedLast(c0, i, j, xs, x);
    }

    /** The unary closure of the span's cell c over [i, j). With no cell there is nothing to
        do. Otherwise the agenda starts as the cell's sorted nodes; the head node is taken off,
        its left-hand side marked expanded, and every grammar's unary rules under that symbol
        are offered to the cell, queueing each node handed back whose left-hand side has not
        been expanded. The closure stops when the agenda is empty, which it always becomes.
        `expanded` lists the nodes taken off, in order, and `count` how many were queued beyond
        the cell's own nodes. */
    method CloseUnary(c: Option<Cell>, i: nat, j: nat) returns (c': Option<Cell>, count: nat, ghost expanded: seq<Node>)
      ensures c.None? ==> c' == None && count == 0 && expanded == []
      ensures c.Some? ==>
        && c' == Some(c.value.(added := c.value.added + ClosureAdditions(i, j, expanded)))
        && UnaryClosure(c.value, i, j, expanded, count)
    {
      c', count, expanded := c, 0, [];
      if c.None? {
        return;
      }
      var cell;
      cell, count, expanded := RunAgenda(c.value, i, j);
      c' := Some(cell);
      assert expanded + [] == expanded;
    }

    /** The agenda loop of the unary closure, on cell c0. */
    method RunAgenda(c0: Cell, i: nat, j: nat) returns (cell: Cell, count: nat, ghost expanded: seq<Node>)
      ensures Agenda(c0, i, j, env.sortedNodes(c0), expanded, [])
      ensures count == |expanded| - |env.sortedNodes(c0)|
      ensures cell == c0.(added := c0.added + ClosureAdditions(i, j, expanded))
    {
      cell, count, expanded := c0, 0, [];
      var queue := env.sortedNodes(c0);
      ghost var initial := queue;
      var seen: set<Symbol> := {};
      assert c0.added + [] == c0.added;
      assert [] + queue == initial + [];
      while |queue| > 0
        invariant Agenda(c0, i, j, initial, expanded, queue)
        invariant seen == Lhss(expanded) && count == |expanded| + |queue| - |initial|
        invariant cell == c0.(added := c0.added + ClosureAdditions(i, j, expanded))
        decreases AllSymbols - seen, LeadingStale(queue, seen)
      {
        var x := queue[0];
        var seen' := seen + {x.lhs};
        var cell', incoming := ExpandNode(cell, i, j, x, seen');
        var queue' := queue[1..] + incoming;
        assert seen' == Lhss(expanded + [x]) by {
          LhssSnoc(expanded, x);
        }
        assert Agenda(c0, i, j, initial, expanded + [x], queue') by {
          AgendaStep(c0, i, j, initial, expanded, queue, incoming);
        }
        assert cell' == c0.(added := c0.added + ClosureAdditions(i, j, expanded + [x])) by {
          ClosureAdditionsSnoc(c0, i, j, expanded, x);
        }
        assert AllSymbols - seen' < AllSymbols - seen
            || (AllSymbols - seen' == AllSymbols - seen && LeadingStale(queue', seen') < LeadingStale(queue, seen)) by {
          FreshMembers(Results(env, cell, NodeAdditions(i, j, x)), seen');
          RoundShrinks(queue, incoming, seen);
        }
        cell, queue, seen, count := cell', queue', seen', count + |incoming|;
        expanded := expanded + [x];
      }
      assert expanded + [] == expanded;
    }

    lemma LhssSnoc(xs: seq<Node>, x: Node)
      ensures Lhss(xs + [x]) == Lhss(xs) + {x.lhs}
    {
    }

    /** Expanding one more node appends that node's insertions. */
    lemma ClosureAdditionsSnoc(c0: Cell, i: nat, j: nat, xs: seq<Node>, x: Node)
      ensures var before := c0.(added := c0.added + ClosureAdditions(i, j, xs));
        before.(added := before.added + NodeAdditions(i, j, x)) == c0.(added := c0.added + ClosureAdditions(i, j, xs + [x]))
    {
      assert (xs + [x])[..|xs|] == xs;
      assert c0.added + ClosureAdditions(i, j, xs) + NodeAdditions(i, j, x)
          == c0.added + (ClosureAdditions(i, j, xs) + NodeAdditions(i, j, x));
    }

    // ---------------------------------------------------------------------------------
    // Expansion
    // ---------------------------------------------------------------------------------

    /** The dot charts once each has expanded its dot cell for [i, j), reading the cells g. */
    function ExpandedDots(dcs: seq<DotChart>, g: Grid, i: nat, j: nat): (r: seq<DotChart>)
      ensures |r| == |dcs|
    {
      seq(|dcs|, k requires 0 <= k < |dcs| => env.expandDotCell(dcs[k], g, i, j))
    }

    /** The dot charts once every grammar that applies to [i, j) has started dot items from the
        cells g; the others are left as they were. */
    function StartedDots(dcs: seq<DotChart>, g: Grid, i: nat, j: nat): (r: seq<DotChart>)
      requires |dcs| == |grammars|
      ensures |r| == |dcs|
    {
      seq(|dcs|, k requires 0 <= k < |dcs| =>
        if env.hasRuleForSpan(grammars[k], i, j, sentence.lattice.distance(i, j)) then env.startDotItems(dcs[k], g, i, j)
        else dcs[k])
    }

    /** Step (1) for a span: every dot chart expands its dot cell for [i, j), each on its own,
        reading the chart's cells g. */
    method ExpandDotCells(dcs: seq<DotChart>, g: Grid, i: nat, j: nat) returns (dcs': seq<DotChart>)
      ensures dcs' == ExpandedDots(dcs, g, i, j)
    {
      dcs' := dcs;
      for k := 0 to |dcs|
        invariant |dcs'| == |dcs|
        invariant forall m :: 0 <= m < k ==> dcs'[m] == env.expandDotCell(dcs[m], g, i, j)
        invariant forall m :: k <= m < |dcs| ==> dcs'[m] == dcs[m]
      {
        dcs' := dcs'[k := env.expandDotCell(dcs'[k], g, i, j)];
      }
    }

    /** Step (4) for a span: the dot charts of the grammars that apply to [i, j) start dot items
        from the chart's cells g, whose cell of [i, j) is now closed. */
    method StartDotItems(dcs: seq<DotChart>, g: Grid, i: nat, j: nat) returns (dcs': seq<DotChart>)
      requires |dcs| == |grammars|
      ensures dcs' == StartedDots(dcs, g, i, j)
    {
      dcs' := dcs;
      for k := 0 to |dcs|
        invariant |dcs'| == |dcs|
        invariant forall m :: 0 <= m < k ==> dcs'[m] == StartedDots(dcs, g, i, j)[m]
        invariant forall m :: k <= m < |dcs| ==> dcs'[m] == dcs[m]
      {
        if env.hasRuleForSpan(grammars[k], i, j, sentence.lattice.distance(i, j)) {
          dcs' := dcs'[k := env.startDotItems(dcs'[k], g, i, j)];
        }
      }
    }

    /** What the work for span [i, j) leaves, from dot charts dcs0 and the chart's cells g: the
        dot charts, expanded over g, complete the span's cell into `mid`; the unary closure over
        `mid`, which expands `expanded`, gives the cell c; and the applicable dot charts, started
        from g with c in place, are dcs. */
    ghost predicate SpanDone(dcs0: seq<DotChart>, goal: Symbol, g: Grid, i: nat, j: nat, mid: Option<Cell>,
                             popped: seq<CubeState>, expanded: seq<Node>, c: Option<Cell>, dcs: seq<DotChart>)
      requires |dcs0| == |grammars|
      requires cfg.popLimit <= 0 && cfg.constrainParse ==> sentence.tree.Some?
    {
      var dcs1 := ExpandedDots(dcs0, g, i, j);
      && CompletedSpan(dcs1, goal, At(g, i, j), mid, i, j, popped)
      && (mid.None? ==> c.None?)
      && (mid.Some? ==>
            && c == Some(mid.value.(added := mid.value.added + ClosureAdditions(i, j, expanded)))
            && UnaryClosure(mid.value, i, j, expanded, |expanded| - |env.sortedNodes(mid.value)|))
      && dcs == StartedDots(dcs1, Put(g, i, j, c), i, j)
    }

    /** The work for one span [i, j), on the chart's cells g and the dot charts dcs0: the dot
        charts expand, the span's cell is completed, the unary closure runs on it, and the
        applicable dot charts start dot items from the closed cell. Sorting the cell's nodes
        changes nothing in this model. */
    method SpanWork(dcs0: seq<DotChart>, goal: Symbol, g: Grid, i: nat, j: nat)
      returns (dcs: seq<DotChart>, c: Option<Cell>, ghost mid: Option<Cell>, ghost popped: seq<CubeState>,
               ghost expanded: seq<Node>)
      requires |dcs0| == |grammars|
      requires cfg.popLimit <= 0 && cfg.constrainParse ==> sentence.tree.Some?
      ensures SpanDone(dcs0, goal, g, i, j, mid, popped, expanded, c, dcs)
    {
      var dcs1 := ExpandDotCells(dcs0, g, i, j);
      var completed;
      completed, popped := CompleteSpan(dcs1, goal, At(g, i, j), i, j);
      mid := completed;
      var count;
      c, count, expanded := CloseUnary(completed, i, j);
      dcs := StartDotItems(dcs1, Put(g, i, j, c), i, j);
    }

    /** The chart's cells as they stand. */
    function Snapshot(): (g: Grid)
      reads cells
      ensures |g| == cells.Length0
      ensures forall a :: 0 <= a < |g| ==> |g[a]| == cells.Length1
      ensures forall a, b :: 0 <= a < cells.Length0 && 0 <= b < cells.Length1 ==> g[a][b] == cells[a, b]
    {
      Rows(cells.Length0)
    }

    /** The first k rows of the chart's cells. */
    function Rows(k: nat): (g: Grid)
      requires k <= cells.Length0
      reads cells
      ensures |g| == k
      ensures forall a :: 0 <= a < k ==> |g[a]| == cells.Length1
      ensures forall a, b :: 0 <= a < k && 0 <= b < cells.Length1 ==> g[a][b] == cells[a, b]
      decreases k
    {
      if k == 0 then [] else Rows(k - 1) + [Columns(k - 1, cells.Length1)]
    }

    /** The first k cells of row a of the chart. */
    function Columns(a: nat, k: nat): (row: seq<Option<Cell>>)
      requires a < cells.Length0 && k <= cells.Length1
      reads cells
      ensures |row| == k
      ensures forall b :: 0 <= b < k ==> row[b] == cells[a, b]
      decreases k
    {
      if k == 0 then [] else Columns(a, k - 1) + [cells[a, k - 1]]
    }

    /** The record `r` of a span's work says what that work does. */
    ghost predicate Done(r: SpanRecord)
    {
      && |r.dcsBefore| == |grammars|
      && (cfg.popLimit <= 0 && cfg.constrainParse ==> sentence.tree.Some?)
      && SpanDone(r.dcsBefore, r.goal, r.grid, r.span.i, r.span.j, r.mid, r.popped, r.expanded, r.cell, r.dcsAfter)
      && r.gridAfter == Put(r.grid, r.span.i, r.span.j, r.cell)
    }

    lemma RecordDone(r: SpanRecord)
      requires |r.dcsBefore| == |grammars| && (cfg.popLimit <= 0 && cfg.constrainParse ==> sentence.tree.Some?)
      requires SpanDone(r.dcsBefore, r.goal, r.grid, r.span.i, r.span.j, r.mid, r.popped, r.expanded, r.cell, r.dcsAfter)
      requires r.gridAfter == Put(r.grid, r.span.i, r.span.j, r.cell)
      ensures Done(r)
    {
    }

    /** Every record of rs says what its span's work did, under goal symbol `goal`. */
    ghost predicate AllDone(rs: seq<SpanRecord>, goal: Symbol)
    {
      forall k :: 0 <= k < |rs| ==> DoneAt(rs, k, goal)
    }

    /** Record k of rs says what its span's work did, under goal symbol `goal`. */
    ghost predicate DoneAt(rs: seq<SpanRecord>, k: nat, goal: Symbol)
      requires k < |rs|
    {
      Done(rs[k]) && rs[k].goal == goal
    }

    lemma AllDoneSnoc(rs: seq<SpanRecord>, r: SpanRecord, goal: Symbol)
      requires AllDone(rs, goal) && Done(r) && r.goal == goal
      ensures AllDone(rs + [r], goal)
    {
      forall k | 0 <= k < |rs| + 1
        ensures DoneAt(rs + [r], k, goal)
      {
        if k < |rs| {
          assert DoneAt(rs, k, goal);
        }
      }
    }

    lemma AllDoneAppend(a: seq<SpanRecord>, b: seq<SpanRecord>, goal: Symbol)
      requires AllDone(a, goal) && AllDone(b, goal)
      ensures AllDone(a + b, goal)
    {
      forall k | 0 <= k < |a| + |b|
        ensures DoneAt(a + b, k, goal)
      {
        if k < |a| {
          assert DoneAt(a, k, goal);
        } else {
          assert DoneAt(b, k - |a|, goal);
        }
      }
    }

    /** Records that say what they did and chain from (g0, d0), extended by one more such
        record that starts where they end. */
    lemma LogStep(g0: Grid, d0: seq<DotChart>, rs: seq<SpanRecord>, r: SpanRecord, goal: Symbol)
      requires AllDone(rs, goal) && Chain(g0, d0, rs, r.grid, r.dcsBefore)
      requires Done(r) && r.goal == goal
      ensures AllDone(rs + [r], goal)
      ensures Chain(g0, d0, rs + [r], r.gridAfter, r.dcsAfter)
    {
      AllDoneSnoc(rs, r, goal);
      ChainSnoc(g0, d0, rs, r);
    }

    /** Records that say what they did and chain from (g0, d0) to (g1, d1), followed by more
        that do the same from (g1, d1) to (g2, d2). */
    lemma LogJoin(g0: Grid, d0: seq<DotChart>, a: seq<SpanRecord>, g1: Grid, d1: seq<DotChart>,
                  b: seq<SpanRecord>, g2: Grid, d2: seq<DotChart>, goal: Symbol)
      requires AllDone(a, goal) && Chain(g0, d0, a, g1, d1)
      requires AllDone(b, goal) && Chain(g1, d1, b, g2, d2)
      ensures AllDone(a + b, goal)
      ensures Chain(g0, d0, a + b, g2, d2)
    {
      AllDoneAppend(a, b, goal);
      ChainAppend(g0, d0, a, g1, d1, b, g2, d2);
    }

    /** The records of the spans below width w, followed by those of row w, are the records
        of the spans below width w + 1. */
    lemma LogRow(g0: Grid, d0: seq<DotChart>, done: seq<SpanRecord>, g1: Grid, d1: seq<DotChart>,
                 row: seq<SpanRecord>, g2: Grid, d2: seq<DotChart>, w: nat)
      requires 1 <= w <= n
      requires Steps(done) == PlanBelow(n, w, sentence.lattice.distance)
      requires Steps(row) == RowPlan(n, w, n - w + 1, sentence.lattice.distance)
      requires AllDone(done, goalSymbol) && Chain(g0, d0, done, g1, d1)
      requires AllDone(row, goalSymbol) && Chain(g1, d1, row, g2, d2)
      ensures Steps(done + row) == PlanBelow(n, w + 1, sentence.lattice.distance)
      ensures AllDone(done + row, goalSymbol) && Chain(g0, d0, done + row, g2, d2)
    {
      StepsBelowNext(done, row, n, w, sentence.lattice.distance);
      LogJoin(g0, d0, done, g1, d1, row, g2, d2, goalSymbol);
    }

    /** The work for span [i, j), on the chart: the span's cell and the dot charts are replaced
        by what the work leaves, no other cell changes, and the work is appended to the log. */
    method ProcessSpan(i: nat, j: nat) returns (ghost r: SpanRecord)
      requires Valid() && Mirrored() && i < j <= n
      requires cfg.popLimit <= 0 && cfg.constrainParse ==> sentence.tree.Some?
      modifies this`dotcharts, this`grid, cells
      ensures Valid() && Mirrored() && Untouched(i, j)
      ensures && r.span == Span(i, j) && r.goal == goalSymbol && r.grid == old(grid) && r.dcsBefore == old(dotcharts)
        && r.cell == cells[i, j] && r.dcsAfter == dotcharts && Done(r)
      ensures grid == r.gridAfter
    {
      var g := Snapshot();
      SnapshotMirrors();
      var dcs, c;
      ghost var mid, popped, expanded;
      dcs, c, mid, popped, expanded := SpanWork(dotcharts, goalSymbol, g, i, j);
      r := SpanRecord(Span(i, j), goalSymbol, g, dotcharts, mid, popped, expanded, c, dcs, Put(g, i, j, c));
      RecordDone(r);
      dotcharts := dcs;
      WriteCell(i, j, c);
    }

    /** With `grid` holding the cells, the snapshot is `grid`. */
    lemma SnapshotMirrors()
      requires Mirrored()
      ensures Snapshot() == grid
    {
      var g := Snapshot();
      forall a | 0 <= a < |g|
        ensures g[a] == grid[a]
      {
        assert |g[a]| == |grid[a]|;
      }
    }

    /** Writes the cell of span [i, j); `grid` changes in that cell alone. */
    method WriteCell(i: nat, j: nat, c: Option<Cell>)
      requires i < cells.Length0 && j < cells.Length1 && Mirrored()
      modifies this`grid, cells
      ensures cells[i, j] == c && Untouched(i, j)
      ensures Mirrored() && grid == Put(old(grid), i, j, c)
    {
      cells[i, j] := c;
      grid := Put(grid, i, j, c);
    }

    /** The goal transition once every span is done: no derivation when the chart has no cell
        for the whole sentence or the goal cell's transition from it fails; otherwise the goal
        cell becomes the transition's result and the hypergraph is rooted at its best node. */
    method TransitToGoal() returns (r: Decoded)
      requires Valid() && n > 0
      modifies this`goalBin
      ensures var top := cells[0, n];
        r.NoDerivation? <==> top.None? || env.transitToGoal(old(goalBin), top.value, n).None?
      ensures r.NoDerivation? ==> goalBin == old(goalBin)
      ensures !r.NoDerivation? ==>
        && goalBin == env.transitToGoal(old(goalBin), cells[0, n].value, n).value
        && r == (if env.sortedNodes(goalBin) == [] then EmptyNodeList
                 else Derived(HyperGraph(env.sortedNodes(goalBin)[0], sentence.id, n)))
    {
      var top := cells[0, n];
      if top.None? {
        return NoDerivation;
      }
      var g := env.transitToGoal(goalBin, top.value, n);
      if g.None? {
        return NoDerivation;
      }
      goalBin := g.value;
      var best := env.sortedNodes(goalBin);
      if best == [] {
        r := EmptyNodeList;
      } else {
        r := Derived(HyperGraph(best[0], sentence.id, n));
      }
    }

    /** No cell of a span the lattice does not connect, or of a position pair that is not a
        span, has changed. */
    twostate predicate UnreachedKept()
      reads this, cells
    {
      forall a, b ::
        (0 <= a < cells.Length0 && 0 <= b < cells.Length1 && !(a < b && Reachable(sentence.lattice.distance, Span(a, b))))
        ==> cells[a, b] == old(cells[a, b])
    }

    /** One turn of a row's loop, at start i: the span [i, i + width) is processed when the
        lattice connects it and skipped otherwise. The records `done` of the row's earlier
        spans, which chain from (g0, d0) to the chart's cells and dot charts, gain the span's
        record, and keep saying what they did and chaining to where the chart now is. */
    method RowStep(width: nat, i: nat, ghost g0: Grid, ghost d0: seq<DotChart>, ghost done: seq<SpanRecord>)
      returns (ghost done': seq<SpanRecord>)
      requires Valid() && Mirrored() && 1 <= width <= n && i <= n - width
      requires cfg.popLimit <= 0 && cfg.constrainParse ==> sentence.tree.Some?
      requires Steps(done) == RowPlan(n, width, i, sentence.lattice.distance)
      requires AllDone(done, goalSymbol) && Chain(g0, d0, done, grid, dotcharts)
      modifies this`dotcharts, this`grid, cells
      ensures Valid() && Mirrored() && UnreachedKept()
      ensures Steps(done') == RowPlan(n, width, i + 1, sentence.lattice.distance)
      ensures AllDone(done', goalSymbol) && Chain(g0, d0, done', grid, dotcharts)
    {
      var d := sentence.lattice.distance;
      var j := i + width;
      if d(i, j).Infinite? {
        RowPlanSkip(n, width, i, d);
        return done;
      }
      ghost var rec := ProcessSpan(i, j);
      StepsRowNext(done, rec, n, width, i, d);
      LogStep(g0, d0, done, rec, goalSymbol);
      done' := done + [rec];
    }

    /** The spans of one width, by increasing start, skipping those the lattice does not
        connect: the records `done`, one per span processed, in order, each start from the
        cells and dot charts the previous one left. */
    method ExpandRow(width: nat) returns (ghost done: seq<SpanRecord>)
      requires Valid() && Mirrored() && 1 <= width <= n
      requires cfg.popLimit <= 0 && cfg.constrainParse ==> sentence.tree.Some?
      modifies this`dotcharts, this`grid, cells
      ensures Valid() && Mirrored() && UnreachedKept()
      ensures Steps(done) == RowPlan(n, width, n - width + 1, sentence.lattice.distance)
      ensures AllDone(done, goalSymbol)
      ensures Chain(old(grid), old(dotcharts), done, grid, dotcharts)
    {
      done := [];
      for i := 0 to n - width + 1
        invariant Valid() && Mirrored() && UnreachedKept()
        invariant Steps(done) == RowPlan(n, width, i, sentence.lattice.distance)
        invariant AllDone(done, goalSymbol)
        invariant Chain(old(grid), old(dotcharts), done, grid, dotcharts)
      {
        done := RowStep(width, i, old(grid), old(dotcharts), done);
      }
    }

    /** One turn of the main loop, at width w: the records `done` of the narrower spans, which
        chain from (g0, d0) to the chart's cells and dot charts, gain the records of row w. */
    method WidthStep(w: nat, ghost g0: Grid, ghost d0: seq<DotChart>, ghost done: seq<SpanRecord>)
      returns (ghost done': seq<SpanRecord>)
      requires Valid() && Mirrored() && 1 <= w <= n
      requires cfg.popLimit <= 0 && cfg.constrainParse ==> sentence.tree.Some?
      requires Steps(done) == PlanBelow(n, w, sentence.lattice.distance)
      requires AllDone(done, goalSymbol) && Chain(g0, d0, done, grid, dotcharts)
      modifies this`dotcharts, this`grid, cells
      ensures Valid() && Mirrored() && UnreachedKept()
      ensures Steps(done') == PlanBelow(n, w + 1, sentence.lattice.distance)
      ensures AllDone(done', goalSymbol) && Chain(g0, d0, done', grid, dotcharts)
    {
      ghost var g, dcs := grid, dotcharts;
      ghost var row := ExpandRow(w);
      LogRow(g0, d0, done, g, dcs, row, grid, dotcharts, w);
      done' := done + row;
    }

    /** The chart's main loop: spans by increasing width and, within a width, by increasing
        start, skipping spans the lattice does not connect. The records `done`, one per span
        processed, have exactly the steps of the expansion plan of the sentence; each says
        what the span's work did, and they chain from the cells and dot charts the chart
        started with to those it ends with. Cells of spans that are skipped or outside the
        chart keep their contents. */
    method FillChart() returns (ghost done: seq<SpanRecord>)
      requires Valid() && Mirrored()
      requires cfg.popLimit <= 0 && cfg.constrainParse ==> sentence.tree.Some?
      modifies this`dotcharts, this`grid, cells
      ensures Valid() && Mirrored() && UnreachedKept()
      ensures Steps(done) == Plan(Schedule(n), sentence.lattice.distance)
      ensures AllDone(done, goalSymbol)
      ensures Chain(old(grid), old(dotcharts), done, grid, dotcharts)
    {
      done := [];
      for width := 1 to n + 1
        invariant Valid() && Mirrored() && UnreachedKept()
        invariant Steps(done) == PlanBelow(n, width, sentence.lattice.distance)
        invariant AllDone(done, goalSymbol)
        invariant Chain(old(grid), old(dotcharts), done, grid, dotcharts)
      {
        done := WidthStep(width, old(grid), old(dotcharts), done);
      }
      PlanBelowIsPlan(n, n + 1, sentence.lattice.distance);
    }

    /** The chart's expansion: the main loop, then the goal transition over the top cell. */
    method Expand() returns (r: Decoded, ghost done: seq<SpanRecord>)
      requires Valid() && Mirrored() && n > 0
      requires cfg.popLimit <= 0 && cfg.constrainParse ==> sentence.tree.Some?
      modifies this`dotcharts, this`grid, this`goalBin, cells
      ensures Valid() && Mirrored() && UnreachedKept()
      ensures Steps(done) == Plan(Schedule(n), sentence.lattice.distance)
      ensures AllDone(done, goalSymbol)
      ensures Chain(old(grid), old(dotcharts), done, grid, dotcharts)
      ensures var top := cells[0, n];
        r.NoDerivation? <==> top.None? || env.transitToGoal(old(goalBin), top.value, n).None?
      ensures !r.NoDerivation? ==>
        && goalBin == env.transitToGoal(old(goalBin), cells[0, n].value, n).value
        && r == (if env.sortedNodes(goalBin) == [] then EmptyNodeList
                 else Derived(HyperGraph(env.sortedNodes(goalBin)[0], sentence.id, n)))
    {
      done := FillChart();
      r := TransitToGoal();
    }

    // ---------------------------------------------------------------------------------
    // Scans over a filled chart
    // ---------------------------------------------------------------------------------

    /** The scan shared by the hypergraph lookups: from width w and start i on, widest spans
        first and by ascending start within a width, stop at the first cell the verdict
        accepts. */
    function ScanFrom(w: nat, i: nat, verdict: Option<Cell> -> Option<Decoded>): (r: ScanResult)
      requires Valid() && w <= n
      reads this, cells
      ensures r.StoppedAt? ==>
        r.i < r.j <= n && Pending(w, i, Span(r.i, r.j)) && verdict(cells[r.i, r.j]) == Some(r.outcome)
      ensures r.StoppedAt? ==> forall a, b ::
        (0 <= a < b <= n && Pending(w, i, Span(a, b)) && ScannedBefore(Span(a, b), Span(r.i, r.j))) ==>
        verdict(cells[a, b]).None?
      ensures r.Exhausted? ==> forall a, b :: 0 <= a < b <= n && Pending(w, i, Span(a, b)) ==>
        verdict(cells[a, b]).None?
      decreases w, n + 1 - i
    {
      if w == 0 then Exhausted
      else if i + w > n then ScanFrom(w - 1, 0, verdict)
      else match verdict(cells[i, i + w])
        case Some(o) => StoppedAt(i, i + w, o)
        case None => ScanFrom(w, i + 1, verdict)
    }

    /** [a, b) is the first span, in scan order, whose cell exists. */
    ghost predicate LongestComplete(a: nat, b: nat)
      requires Valid()
      reads this, cells
    {
      && a < b <= n && cells[a, b].Some?
      && forall a', b' :: 0 <= a' < b' <= n && ScannedBefore(Span(a', b'), Span(a, b)) ==> cells[a', b'].None?
    }

    /** [a, b) is the first span, in scan order, whose cell exists and either has no nodes or
        has a best node with left-hand side root. */
    ghost predicate FirstWithRoot(root: Symbol, a: nat, b: nat)
      requires Valid()
      reads this, cells
    {
      && a < b <= n && RootedAtSymbol(env, sentence.id, n, root, cells[a, b]).Some?
      && forall a', b' :: 0 <= a' < b' <= n && ScannedBefore(Span(a', b'), Span(a, b)) ==>
           RootedAtSymbol(env, sentence.id, n, root, cells[a', b']).None?
    }

    /** The hypergraph rooted at the best node of the widest (then leftmost) span that has a
        cell; no derivation when the chart holds no cell at all. */
    function HypergraphRootedAtLongestCompleteSpan(): (r: Decoded)
      requires Valid()
      reads this, cells
      ensures r.NoDerivation? <==> forall a, b :: 0 <= a < b <= n ==> cells[a, b].None?
      ensures !r.NoDerivation? ==> exists a: nat, b: nat :: LongestComplete(a, b) && Some(r) == RootedAt(env, sentence.id, n, cells[a, b])
    {
      var s := ScanFrom(n, 0, c => RootedAt(env, sentence.id, n, c));
      if s.StoppedAt? then
        assert LongestComplete(s.i, s.j);
        s.outcome
      else NoDerivation
    }

    /** The hypergraph rooted at the best node of the widest (then leftmost) span whose best
        node has left-hand side root; no derivation when there is none. */
    function HypergraphWithRootSymbol(root: Symbol): (r: Decoded)
      requires Valid()
      reads this, cells
      ensures r.NoDerivation? <==> forall a, b :: 0 <= a < b <= n ==> RootedAtSymbol(env, sentence.id, n, root, cells[a, b]).None?
      ensures !r.NoDerivation? ==> exists a: nat, b: nat :: FirstWithRoot(root, a, b) && Some(r) == RootedAtSymbol(env, sentence.id, n, root, cells[a, b])
      ensures r.Derived? ==> r.graph.root.lhs == root
    {
      var s := ScanFrom(n, 0, c => RootedAtSymbol(env, sentence.id, n, root, c));
      if s.StoppedAt? then
        assert FirstWithRoot(root, s.i, s.j);
        s.outcome
      else NoDerivation
    }

    /** The hypergraph rooted at the best node of the cell of [i, j). */
    function HypergraphRootedAtCell(i: nat, j: nat): (r: Decoded)
      requires Valid() && i < n && j <= n
      reads this, cells
      ensures r.NoDerivation? <==> cells[i, j].None?
      ensures r.EmptyNodeList? <==> cells[i, j].Some? && env.sortedNodes(cells[i, j].value) == []
      ensures r.Derived? ==> r.graph == HyperGraph(env.sortedNodes(cells[i, j].value)[0], sentence.id, n)
    {
      var v := RootedAt(env, sentence.id, n, cells[i, j]);
      if v.Some? then v.value else NoDerivation
    }

    /** Two scan positions are ordered one way or the other. */
    lemma ScanOrderTotal(a: Span, b: Span)
      ensures a == b || ScannedBefore(a, b) || ScannedBefore(b, a)
    {
    }

    /** When the longest-span lookup finds a best node with left-hand side root, the root-symbol
        lookup for root returns the same hypergraph. */
    lemma RootSymbolAgreesWithLongest(root: Symbol)
      requires Valid()
      requires HypergraphRootedAtLongestCompleteSpan().Derived?
      requires HypergraphRootedAtLongestCompleteSpan().graph.root.lhs == root
      ensures HypergraphWithRootSymbol(root) == HypergraphRootedAtLongestCompleteSpan()
    {
      var r := HypergraphRootedAtLongestCompleteSpan();
      var a: nat, b: nat :| LongestComplete(a, b) && Some(r) == RootedAt(env, sentence.id, n, cells[a, b]);
      assert RootedAtSymbol(env, sentence.id, n, root, cells[a, b]) == Some(r);
      var r2 := HypergraphWithRootSymbol(root);
      assert !r2.NoDerivation?;
      var a2: nat, b2: nat :| FirstWithRoot(root, a2, b2) && Some(r2) == RootedAtSymbol(env, sentence.id, n, root, cells[a2, b2]);
      ScanOrderTotal(Span(a, b), Span(a2, b2));
    }
  }
}
