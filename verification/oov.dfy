/** Synthesis of pass-through rules for out-of-vocabulary lattice arcs, done once when a chart
    is built. */
module Oov {
  import opened Types

  /** What the synthesis reads: collaborators, configuration, vocabulary ids, the sentence's
      input grammars (not the chart's own out-of-vocabulary grammar) and its reference parse. */
  datatype OovContext = OovContext(
    env: Env, cfg: Config, voc: Vocab, grammars: seq<Grammar>, tree: Option<SyntaxTree>)

  /** Grammar g's trie root matches word w at a position that holds rules. */
  predicate MatchedBy(env: Env, g: Grammar, w: Symbol)
  {
    env.trieMatch(g, w).Some? && env.trieMatch(g, w).value.hasRules
  }

  /** Some input grammar has a unigram rule for w. */
  predicate KnownWord(ctx: OovContext, w: Symbol)
  {
    exists g :: g in ctx.grammars && MatchedBy(ctx.env, g, w)
  }

  /** An arc carrying w gets rules: it is neither the sentence start nor the sentence stop
      symbol, and, when only true unknowns get rules, no input grammar knows it. */
  predicate Eligible(ctx: OovContext, w: Symbol)
  {
    w != ctx.voc.start && w != ctx.voc.stop && !(ctx.cfg.trueOovsOnly && KnownWord(ctx, w))
  }

  /** The target side of the rule for w: w itself, or its marked form. */
  function TargetWord(ctx: OovContext, w: Symbol): Symbol
  {
    if ctx.cfg.markOovs then ctx.voc.markOov(w) else w
  }

  /** Rules take their left-hand sides from the reference parse. */
  predicate LabelMode(ctx: OovContext)
  {
    ctx.tree.Some? && (ctx.cfg.constrainParse || ctx.cfg.usePosLabels)
  }

  /** The labels of the reference parse over [k, k+1). */
  function NodeLabels(ctx: OovContext, k: nat): seq<Symbol>
    requires LabelMode(ctx)
  {
    ctx.tree.value.constituentLabels(k, k + 1)
  }

  /** One arity-0 rule w -> t per label, in label order. */
  function LabelRules(labels: seq<Symbol>, w: Symbol, t: Symbol): seq<Rule>
  {
    seq(|labels|, m requires 0 <= m < |labels| => Rule(labels[m], [w], [t], 0))
  }

  /** The rules synthesised for an arc carrying w that leaves lattice node k. */
  function ArcRules(ctx: OovContext, k: nat, w: Symbol): seq<Rule>
  {
    if !Eligible(ctx, w) then []
    else if LabelMode(ctx) then LabelRules(NodeLabels(ctx, k), w, TargetWord(ctx, w))
    else [Rule(ctx.cfg.defaultNonterminal, [w], [TargetWord(ctx, w)], 0)]
  }

  /** The rules for the arcs `arcs` leaving node k, arc by arc. */
  function NodeRules(ctx: OovContext, k: nat, arcs: seq<Arc>): seq<Rule>
  {
    if arcs == [] then []
    else NodeRules(ctx, k, arcs[..|arcs| - 1]) + ArcRules(ctx, k, arcs[|arcs| - 1].word)
  }

  /** The rules for the lattice nodes whose outgoing arcs are `nodes`, node by node. */
  function LatticeRules(ctx: OovContext, nodes: seq<seq<Arc>>): seq<Rule>
  {
    if nodes == [] then []
    else LatticeRules(ctx, nodes[..|nodes| - 1]) + NodeRules(ctx, |nodes| - 1, nodes[|nodes| - 1])
  }

  /** The test for a true unknown word: scan the input grammars, stopping at the first that
      matches w with rules. */
  method IsTrueOov(ctx: OovContext, w: Symbol) returns (trueOov: bool)
    ensures trueOov <==> !KnownWord(ctx, w)
  {
    trueOov := true;
    var g := 0;
    while g < |ctx.grammars|
      invariant 0 <= g <= |ctx.grammars|
      invariant trueOov <==> forall h :: 0 <= h < g ==> !MatchedBy(ctx.env, ctx.grammars[h], w)
      invariant !trueOov ==> KnownWord(ctx, w)
    {
      var m := ctx.env.trieMatch(ctx.grammars[g], w);
      if m.Some? && m.value.hasRules {
        trueOov := false;
        break;
      }
      g := g + 1;
    }
    if trueOov {
      forall x | x in ctx.grammars
        ensures !MatchedBy(ctx.env, x, w)
      {
        var h :| 0 <= h < |ctx.grammars| && ctx.grammars[h] == x;
      }
    }
  }

  /** The rules for one arc carrying w out of node k. */
  method SynthesizeArc(ctx: OovContext, k: nat, w: Symbol) returns (rules: seq<Rule>)
    ensures rules == ArcRules(ctx, k, w)
  {
    rules := [];
    if w == ctx.voc.start || w == ctx.voc.stop {
      return;
    }
    if ctx.cfg.trueOovsOnly {
      var trueOov := IsTrueOov(ctx, w);
      if !trueOov {
        return;
      }
    }
    var target := if ctx.cfg.markOovs then ctx.voc.markOov(w) else w;
    if ctx.tree.Some? && (ctx.cfg.constrainParse || ctx.cfg.usePosLabels) {
      var labels := ctx.tree.value.constituentLabels(k, k + 1);
      for m := 0 to |labels|
        invariant rules == LabelRules(labels[..m], w, target)
      {
        rules := rules + [Rule(labels[m], [w], [target], 0)];
      }
      assert labels[..|labels|] == labels;
    } else {
      rules := [Rule(ctx.cfg.defaultNonterminal, [w], [target], 0)];
    }
  }

  /** The rules for the arcs leaving lattice node k, arc by arc. */
  method SynthesizeNode(ctx: OovContext, k: nat, arcs: seq<Arc>) returns (rules: seq<Rule>)
    ensures rules == NodeRules(ctx, k, arcs)
  {
    rules := [];
    for a := 0 to |arcs|
      invariant rules == NodeRules(ctx, k, arcs[..a])
    {
      var arcRules := SynthesizeArc(ctx, k, arcs[a].word);
      assert arcs[..a + 1][..a] == arcs[..a];
      rules := rules + arcRules;
    }
    assert arcs[..|arcs|] == arcs;
  }

  /** The out-of-vocabulary loop of the chart's constructor: every arc of every lattice node,
      in order. */
  method SynthesizeOovRules(ctx: OovContext, lattice: Lattice) returns (rules: seq<Rule>)
    ensures rules == LatticeRules(ctx, lattice.arcs)
  {
    rules := [];
    var nodes := lattice.arcs;
    for k := 0 to |nodes|
      invariant rules == LatticeRules(ctx, nodes[..k])
    {
      var nodeRules := SynthesizeNode(ctx, k, nodes[k]);
      assert nodes[..k + 1][..k] == nodes[..k];
      rules := rules + nodeRules;
    }
    assert nodes[..|nodes|] == nodes;
  }

  /** Every synthesised rule has arity 0, a single source word that is neither the start nor
      the stop symbol (nor, when only true unknowns get rules, a word an input grammar knows),
      and a single target word: the source word itself unless words are marked. Without
      reference labels its left-hand side is the default nonterminal. */
  lemma {:induction false} OovRuleShape(ctx: OovContext, nodes: seq<seq<Arc>>)
    ensures forall r :: r in LatticeRules(ctx, nodes) ==>
      && r.arity == 0
      && |r.source| == 1
      && Eligible(ctx, r.source[0])
      && r.target == [TargetWord(ctx, r.source[0])]
      && (ctx.cfg.markOovs || r.target == r.source)
      && (!LabelMode(ctx) ==> r.lhs == ctx.cfg.defaultNonterminal)
  {
    if nodes != [] {
      OovRuleShape(ctx, nodes[..|nodes| - 1]);
      NodeRuleShape(ctx, |nodes| - 1, nodes[|nodes| - 1]);
    }
  }

  lemma {:induction false} NodeRuleShape(ctx: OovContext, k: nat, arcs: seq<Arc>)
    ensures forall r :: r in NodeRules(ctx, k, arcs) ==>
      && r.arity == 0
      && |r.source| == 1
      && Eligible(ctx, r.source[0])
      && r.target == [TargetWord(ctx, r.source[0])]
      && (ctx.cfg.markOovs || r.target == r.source)
      && (!LabelMode(ctx) ==> r.lhs == ctx.cfg.defaultNonterminal)
  {
    if arcs != [] {
      NodeRuleShape(ctx, k, arcs[..|arcs| - 1]);
    }
  }

  /** How many rules one arc gets: none if it is not eligible; otherwise one per reference
      label over [k, k+1) in label mode, and exactly one default-nonterminal rule if not. */
  lemma ArcRuleCount(ctx: OovContext, k: nat, w: Symbol)
    ensures !Eligible(ctx, w) ==> ArcRules(ctx, k, w) == []
    ensures Eligible(ctx, w) && LabelMode(ctx) ==>
      |ArcRules(ctx, k, w)| == |NodeLabels(ctx, k)| &&
      forall m :: 0 <= m < |NodeLabels(ctx, k)| ==>
        ArcRules(ctx, k, w)[m] == Rule(NodeLabels(ctx, k)[m], [w], [TargetWord(ctx, w)], 0)
    ensures Eligible(ctx, w) && !LabelMode(ctx) ==>
      ArcRules(ctx, k, w) == [Rule(ctx.cfg.defaultNonterminal, [w], [TargetWord(ctx, w)], 0)]
  {
  }

  /** Every arc of every node contributes its rules: nothing is lost between arcs. */
  lemma {:induction false} OovRulesCoverArcs(ctx: OovContext, nodes: seq<seq<Arc>>)
    ensures forall k, a, r :: 0 <= k < |nodes| && a in nodes[k] && r in ArcRules(ctx, k, a.word) ==>
      r in LatticeRules(ctx, nodes)
  {
    if nodes != [] {
      var last := |nodes| - 1;
      OovRulesCoverArcs(ctx, nodes[..last]);
      NodeRulesCoverArcs(ctx, last, nodes[last]);
      forall k, a, r | 0 <= k < |nodes| && a in nodes[k] && r in ArcRules(ctx, k, a.word)
        ensures r in LatticeRules(ctx, nodes)
      {
        if k < last {
          assert nodes[..last][k] == nodes[k];
        }
      }
    }
  }

  lemma {:induction false} NodeRulesCoverArcs(ctx: OovContext, k: nat, arcs: seq<Arc>)
    ensures forall a, r :: a in arcs && r in ArcRules(ctx, k, a.word) ==> r in NodeRules(ctx, k, arcs)
  {
    if arcs != [] {
      var last := |arcs| - 1;
      NodeRulesCoverArcs(ctx, k, arcs[..last]);
      forall a, r | a in arcs && r in ArcRules(ctx, k, a.word)
        ensures r in NodeRules(ctx, k, arcs)
      {
        if a != arcs[last] {
          var m :| 0 <= m < |arcs| && arcs[m] == a;
          assert arcs[..last][m] == a;
        }
      }
    }
  }

  /** With an injective marking, a synthesised rule's target word determines its source
      word. */
  lemma TargetDeterminesSource(ctx: OovContext, nodes: seq<seq<Arc>>, r1: Rule, r2: Rule)
    requires forall x: Symbol, y: Symbol :: ctx.voc.markOov(x) == ctx.voc.markOov(y) ==> x == y
    requires r1 in LatticeRules(ctx, nodes) && r2 in LatticeRules(ctx, nodes)
    requires r1.target == r2.target
    ensures r1.source == r2.source
  {
    OovRuleShape(ctx, nodes);
  }
}
