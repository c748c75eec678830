/** The pieces of span-level cube pruning that do not touch the chart: rank vectors, the
    states they select, neighbour generation and the choice of the next state to pop. */
module CubePrune {
  import opened Types

  /** What identifies a cube-pruning state in the visited set: its dot node (the grammar
      index and the dot node's position in that grammar's dot cell) and its rank vector. */
  datatype Key = Key(grammar: nat, dot: nat, ranks: seq<int>)

  /** A candidate: its key, its dot node, the dot node's filtered rules, and the rule,
      antecedent nodes and scoring result its rank vector selects. */
  datatype CubeState = CubeState(
    key: Key, dotNode: DotNode, rules: seq<Rule>, rule: Rule, ants: seq<Node>, result: NodeResult)

  /** `ranks` is a rank vector for `ruleCount` rules and the antecedent super nodes `ants`:
      the rule rank first, then one rank per antecedent slot, each from 1 up to the number of
      alternatives in its dimension. */
  predicate RanksInBounds(ranks: seq<int>, ruleCount: nat, ants: seq<FilledSuperNode>)
  {
    && |ranks| == 1 + |ants|
    && 1 <= ranks[0] <= ruleCount
    && forall k :: 1 <= k < |ranks| ==> 1 <= ranks[k] <= |ants[k - 1].nodes|
  }

  /** The antecedent nodes a rank vector selects (ranks count from 1). */
  function SelectedAnts(ranks: seq<int>, ants: seq<FilledSuperNode>): seq<Node>
    requires |ranks| == 1 + |ants|
    requires forall k :: 1 <= k < |ranks| ==> 1 <= ranks[k] <= |ants[k - 1].nodes|
  {
    seq(|ants|, m requires 0 <= m < |ants| => ants[m].nodes[ranks[m + 1] - 1])
  }

  /** The scored state that rank vector `ranks` of dot node `dn` selects over span [i, j). */
  function Materialize(env: Env, i: nat, j: nat, g: nat, d: nat, dn: DotNode, rules: seq<Rule>, ranks: seq<int>): CubeState
    requires RanksInBounds(ranks, |rules|, dn.ants)
  {
    var rule := rules[ranks[0] - 1];
    var ants := SelectedAnts(ranks, dn.ants);
    CubeState(Key(g, d, ranks), dn, rules, rule, ants, env.computeNode(rule, ants, i, j, dn.path))
  }

  /** A state whose rank vector is in bounds and whose rule, antecedents and score are exactly
      what its rank vector selects. */
  predicate WellFormed(env: Env, i: nat, j: nat, s: CubeState)
  {
    && RanksInBounds(s.key.ranks, |s.rules|, s.dotNode.ants)
    && s == Materialize(env, i, j, s.key.grammar, s.key.dot, s.dotNode, s.rules, s.key.ranks)
  }

  /** The rank vector of length len whose entries are all 1. */
  function Ones(len: nat): seq<int>
  {
    seq(len, _ => 1)
  }

  /** A seed state, rank vector all ones, is in bounds whenever the dot node has a rule, and
      selects the best rule and the best node of every antecedent super node. */
  lemma SeedInBounds(rules: seq<Rule>, ants: seq<FilledSuperNode>)
    requires |rules| > 0
    ensures RanksInBounds(Ones(1 + |ants|), |rules|, ants)
    ensures forall m :: 0 <= m < |ants| ==> SelectedAnts(Ones(1 + |ants|), ants)[m] == ants[m].nodes[0]
  {
  }

  /** The rank vector one step further along dimension k. */
  function Neighbour(ranks: seq<int>, k: nat): seq<int>
    requires k < |ranks|
  {
    ranks[k := ranks[k] + 1]
  }

  /** The test neighbour generation applies: one step along dimension k does not run past the
      number of rules (k = 0) or of nodes in antecedent super node k - 1. */
  predicate CanExtend(ranks: seq<int>, k: nat, ruleCount: nat, ants: seq<FilledSuperNode>)
    requires k < |ranks| == 1 + |ants|
  {
    if k == 0 then ranks[0] + 1 <= ruleCount else ranks[k] + 1 <= |ants[k - 1].nodes|
  }

  /** From an in-bounds vector, a neighbour is in bounds exactly when the test admits it, so
      neighbour generation never queues an out-of-bounds rank vector and never drops an
      in-bounds one. */
  lemma NeighbourInBounds(ranks: seq<int>, k: nat, ruleCount: nat, ants: seq<FilledSuperNode>)
    requires RanksInBounds(ranks, ruleCount, ants) && k < |ranks|
    ensures RanksInBounds(Neighbour(ranks, k), ruleCount, ants) <==> CanExtend(ranks, k, ruleCount, ants)
  {
    if CanExtend(ranks, k, ruleCount, ants) {
      var r := Neighbour(ranks, k);
      forall m | 1 <= m < |r|
        ensures 1 <= r[m] <= |ants[m - 1].nodes|
      {
        if m != k {
          assert r[m] == ranks[m];
        }
      }
    } else {
      assert Neighbour(ranks, k)[k] == ranks[k] + 1;
    }
  }

  function RankSum(ranks: seq<int>): int
  {
    if ranks == [] then 0 else ranks[0] + RankSum(ranks[1..])
  }

  /** Every neighbour's entries add up to one more than its source's, so a neighbour is never
      its source. */
  lemma {:induction false} NeighbourRaisesSum(ranks: seq<int>, k: nat)
    requires k < |ranks|
    ensures RankSum(Neighbour(ranks, k)) == RankSum(ranks) + 1
  {
    if k > 0 {
      assert Neighbour(ranks, k)[1..] == Neighbour(ranks[1..], k - 1);
      NeighbourRaisesSum(ranks[1..], k - 1);
    } else {
      assert Neighbour(ranks, k)[1..] == ranks[1..];
    }
  }

  /** The position of the state the priority queue yields next: one with the highest score,
      the earliest such one when several tie. */
  function BestIndex(q: seq<CubeState>): (b: nat)
    requires |q| > 0
    ensures b < |q|
    ensures forall m :: 0 <= m < |q| ==> q[m].result.score <= q[b].result.score
    ensures forall m :: 0 <= m < b ==> q[m].result.score < q[b].result.score
  {
    if |q| == 1 then 0
    else
      var b := 1 + BestIndex(q[1..]);
      assert forall m :: 1 <= m < |q| ==> q[m] == q[1..][m - 1];
      if q[0].result.score >= q[b].result.score then 0 else b
  }

  /** The keys of the states in q. */
  function KeySet(q: seq<CubeState>): set<Key>
  {
    set t | t in q :: t.key
  }

  /** No two states of q share a key. */
  predicate DistinctKeys(q: seq<CubeState>)
  {
    forall p, r :: 0 <= p < r < |q| ==> q[p].key != q[r].key
  }

  /** t is a neighbour of s: the same dot node and rules, with one rank raised by one. */
  predicate NeighbourOf(t: CubeState, s: CubeState)
  {
    && t.dotNode == s.dotNode && t.rules == s.rules
    && t.key.grammar == s.key.grammar && t.key.dot == s.key.dot
    && exists k :: 0 <= k < |s.key.ranks| && t.key.ranks == Neighbour(s.key.ranks, k)
  }

  /** Every in-bounds neighbour of s has been visited. */
  predicate Expanded(s: CubeState, visited: set<Key>)
  {
    && |s.key.ranks| == 1 + |s.dotNode.ants|
    && forall k :: 0 <= k < |s.key.ranks| && CanExtend(s.key.ranks, k, |s.rules|, s.dotNode.ants) ==>
         Key(s.key.grammar, s.key.dot, Neighbour(s.key.ranks, k)) in visited
  }

  /** Generate the neighbours of the popped state s: for every dimension k, the rank vector
      with entry k raised by one, if that stays in bounds and has not been visited; each one
      is scored, marked visited and queued. */
  method PushNeighbours(env: Env, i: nat, j: nat, s: CubeState, queue: seq<CubeState>, visited: set<Key>)
    returns (queue': seq<CubeState>, visited': set<Key>)
    requires WellFormed(env, i, j, s)
    ensures |queue| <= |queue'| && queue'[..|queue|] == queue
    ensures visited' == visited + KeySet(queue'[|queue|..])
    ensures forall t :: t in queue'[|queue|..] ==>
      && WellFormed(env, i, j, t) && t.key !in visited && NeighbourOf(t, s)
      && RankSum(t.key.ranks) == RankSum(s.key.ranks) + 1
    ensures DistinctKeys(queue'[|queue|..])
    ensures Expanded(s, visited')
  {
    var ranks := s.key.ranks;
    var dn := s.dotNode;
    queue', visited' := queue, visited;
    for k := 0 to |ranks|
      invariant |queue| <= |queue'| && queue'[..|queue|] == queue
      invariant visited' == visited + KeySet(queue'[|queue|..])
      invariant forall t :: t in queue'[|queue|..] ==>
        && WellFormed(env, i, j, t) && t.key !in visited && NeighbourOf(t, s)
        && RankSum(t.key.ranks) == RankSum(s.key.ranks) + 1
      invariant DistinctKeys(queue'[|queue|..])
      invariant forall k' :: 0 <= k' < k && CanExtend(ranks, k', |s.rules|, dn.ants) ==>
        Key(s.key.grammar, s.key.dot, Neighbour(ranks, k')) in visited'
    {
      var newRanks := Neighbour(ranks, k);
      // can't extend
      if !CanExtend(ranks, k, |s.rules|, dn.ants) {
        continue;
      }
      NeighbourInBounds(ranks, k, |s.rules|, dn.ants);
      NeighbourRaisesSum(ranks, k);
      var next := Materialize(env, i, j, s.key.grammar, s.key.dot, dn, s.rules, newRanks);
      if next.key in visited' {
        continue;
      }
      ghost var added := queue'[|queue|..];
      visited' := visited' + {next.key};
      queue' := queue' + [next];
      assert queue'[|queue|..] == added + [next];
      assert KeySet(added + [next]) == KeySet(added) + {next.key};
      assert next.key !in KeySet(added);
      forall p | 0 <= p < |added|
        ensures (added + [next])[p].key != next.key
      {
        assert added[p] in added;
      }
    }
  }

  /** The queue after removing the state at position b. */
  function Without(q: seq<CubeState>, b: nat): (r: seq<CubeState>)
    requires b < |q|
    ensures |r| == |q| - 1
    ensures forall m :: 0 <= m < b ==> r[m] == q[m]
    ensures forall m :: b <= m < |r| ==> r[m] == q[m + 1]
  {
    q[..b] + q[b + 1..]
  }

  /** Every state left after removing one was in the queue. */
  lemma WithoutKeepsMembers(q: seq<CubeState>, b: nat)
    requires b < |q|
    ensures forall t :: t in Without(q, b) ==> t in q
  {
    forall t | t in Without(q, b)
      ensures t in q
    {
      var m :| 0 <= m < |q| - 1 && Without(q, b)[m] == t;
      if m >= b {
        assert t == q[m + 1];
      }
    }
  }

  /** Removing one state from a queue whose keys are distinct leaves a queue whose keys are
      distinct, none of them the removed state's key. */
  lemma WithoutKeepsKeysDistinct(q: seq<CubeState>, b: nat)
    requires b < |q|
    requires DistinctKeys(q)
    ensures forall t :: t in Without(q, b) ==> t in q && t.key != q[b].key
    ensures DistinctKeys(Without(q, b))
    ensures KeySet(q) == KeySet(Without(q, b)) + {q[b].key}
  {
    var w := Without(q, b);
    forall t | t in w
      ensures t in q && t.key != q[b].key
    {
      var m :| 0 <= m < |w| && w[m] == t;
      if m >= b {
        assert t == q[m + 1];
      }
    }
    forall t | t in q
      ensures t.key in KeySet(w) + {q[b].key}
    {
      var m :| 0 <= m < |q| && q[m] == t;
      if m < b {
        assert w[m] == t;
      } else if m > b {
        assert w[m - 1] == t;
      }
    }
  }

  /** t is a seed or a neighbour of one of the states popped so far. */
  predicate Reached(t: CubeState, seeds: seq<CubeState>, popped: seq<CubeState>)
  {
    t in seeds || exists m :: 0 <= m < |popped| && NeighbourOf(t, popped[m])
  }

  /** What holds between two pops of span-level cube pruning over [i, j), which started from
      `seeds`: every queued or popped state is well formed and was reached from the seeds;
      every popped state has had its neighbours visited; no key is queued or popped twice; and
      the visited set holds exactly the keys of the popped and the queued states, the seeds'
      among them. */
  predicate PopInvariant(env: Env, i: nat, j: nat, seeds: seq<CubeState>, queue: seq<CubeState>, visited: set<Key>, popped: seq<CubeState>)
  {
    && (forall t :: t in queue ==> WellFormed(env, i, j, t) && Reached(t, seeds, popped))
    && (forall m :: 0 <= m < |popped| ==>
          WellFormed(env, i, j, popped[m]) && Expanded(popped[m], visited) && Reached(popped[m], seeds, popped[..m]))
    && DistinctKeys(queue) && DistinctKeys(popped)
    && (forall t :: t in queue ==> t.key !in KeySet(popped))
    && visited == KeySet(popped) + KeySet(queue)
    && KeySet(seeds) <= visited
  }

  /** Before the first pop, with the queue and the visited set seeding left. */
  lemma PopInvariantHoldsAtStart(env: Env, i: nat, j: nat, seeds: seq<CubeState>)
    requires SeedQueue(env, i, j, seeds)
    ensures PopInvariant(env, i, j, seeds, seeds, KeySet(seeds), [])
  {
  }

  /** What the pop loop promises about the states it popped from the queue `seeds` under pop
      limit `limit`: at most the limit of them, no two alike, each well formed and either a seed
      or a neighbour of one popped before it, the best seed first; and if the loop stopped
      short of the limit, every seed was popped and so was every in-bounds neighbour of every
      popped state. */
  predicate PopOutcome(env: Env, i: nat, j: nat, limit: int, seeds: seq<CubeState>, popped: seq<CubeState>)
  {
    && (|popped| == 0 || |popped| <= limit)
    && DistinctKeys(popped)
    && (forall m :: 0 <= m < |popped| ==> WellFormed(env, i, j, popped[m]) && Reached(popped[m], seeds, popped[..m]))
    && (|seeds| > 0 && limit > 0 ==> |popped| > 0 && popped[0] == seeds[BestIndex(seeds)])
    && (|popped| < limit ==>
          KeySet(seeds) <= KeySet(popped) && forall m :: 0 <= m < |popped| ==> Expanded(popped[m], KeySet(popped)))
  }

  /** A queue to start popping from: well-formed states, no two with the same key. */
  predicate SeedQueue(env: Env, i: nat, j: nat, seeds: seq<CubeState>)
  {
    (forall t :: t in seeds ==> WellFormed(env, i, j, t)) && DistinctKeys(seeds)
  }

  /** With nothing to pop, the pop loop keeps its promises vacuously. */
  lemma PopOutcomeEmpty(env: Env, i: nat, j: nat, limit: int)
    ensures PopOutcome(env, i, j, limit, [], [])
  {
    assert KeySet([]) == {};
  }

  /** One round of the pop loop: take the best queued state out of the queue and queue its
      unvisited in-bounds neighbours. */
  method PopBest(env: Env, i: nat, j: nat, queue: seq<CubeState>, visited: set<Key>,
                 ghost seeds: seq<CubeState>, ghost popped: seq<CubeState>)
    returns (s: CubeState, queue': seq<CubeState>, visited': set<Key>)
    requires PopInvariant(env, i, j, seeds, queue, visited, popped)
    requires |queue| > 0
    ensures s == queue[BestIndex(queue)]
    ensures PopInvariant(env, i, j, seeds, queue', visited', popped + [s])
  {
    var b := BestIndex(queue);
    s := queue[b];
    var rest := Without(queue, b);
    queue', visited' := PushNeighbours(env, i, j, s, rest, visited);
    ghost var added := queue'[|rest|..];
    assert queue' == rest + added;
    PopStep(env, i, j, seeds, queue, visited, popped, b, added, visited');
  }

  /** When the queue has run dry, every seed has been popped, and so has every in-bounds
      neighbour of every popped state. */
  lemma PopInvariantDrained(env: Env, i: nat, j: nat, seeds: seq<CubeState>, visited: set<Key>, popped: seq<CubeState>)
    requires PopInvariant(env, i, j, seeds, [], visited, popped)
    ensures KeySet(seeds) <= KeySet(popped)
    ensures forall m :: 0 <= m < |popped| ==> Expanded(popped[m], KeySet(popped))
  {
    assert KeySet([]) == {};
  }

  /** Popping the state at position b, then queueing its unvisited neighbours `added`, keeps
      the invariant. */
  lemma PopStep(env: Env, i: nat, j: nat, seeds: seq<CubeState>, queue: seq<CubeState>, visited: set<Key>,
                popped: seq<CubeState>, b: nat, added: seq<CubeState>, visited': set<Key>)
    requires PopInvariant(env, i, j, seeds, queue, visited, popped)
    requires b < |queue|
    requires visited' == visited + KeySet(added)
    requires forall t :: t in added ==> WellFormed(env, i, j, t) && t.key !in visited && NeighbourOf(t, queue[b])
    requires DistinctKeys(added)
    requires Expanded(queue[b], visited')
    ensures PopInvariant(env, i, j, seeds, Without(queue, b) + added, visited', popped + [queue[b]])
  {
    var s := queue[b];
    WithoutKeepsKeysDistinct(queue, b);
    assert KeySet(popped + [s]) == KeySet(popped) + {s.key};
    assert KeySet(Without(queue, b) + added) == KeySet(Without(queue, b)) + KeySet(added);
    PopStepReached(env, i, j, seeds, queue, popped, b, added);
    PopStepPopped(env, i, j, seeds, queue, visited, popped, b, visited');
    PopStepKeys(queue, visited, popped, b, added);
  }

  lemma PopStepReached(env: Env, i: nat, j: nat, seeds: seq<CubeState>, queue: seq<CubeState>,
                       popped: seq<CubeState>, b: nat, added: seq<CubeState>)
    requires b < |queue|
    requires forall t :: t in queue ==> WellFormed(env, i, j, t) && Reached(t, seeds, popped)
    requires forall t :: t in added ==> WellFormed(env, i, j, t) && NeighbourOf(t, queue[b])
    ensures forall t :: t in Without(queue, b) + added ==> WellFormed(env, i, j, t) && Reached(t, seeds, popped + [queue[b]])
  {
    WithoutKeepsMembers(queue, b);
    var popped' := popped + [queue[b]];
    forall t | t in Without(queue, b) + added
      ensures WellFormed(env, i, j, t) && Reached(t, seeds, popped')
    {
      if t in Without(queue, b) {
        if t !in seeds {
          var m :| 0 <= m < |popped| && NeighbourOf(t, popped[m]);
          assert popped'[m] == popped[m];
        }
      } else {
        assert popped'[|popped|] == queue[b];
      }
    }
  }

  lemma PopStepPopped(env: Env, i: nat, j: nat, seeds: seq<CubeState>, queue: seq<CubeState>, visited: set<Key>,
                      popped: seq<CubeState>, b: nat, visited': set<Key>)
    requires b < |queue|
    requires forall t :: t in queue ==> WellFormed(env, i, j, t) && Reached(t, seeds, popped)
    requires forall m :: 0 <= m < |popped| ==>
      WellFormed(env, i, j, popped[m]) && Expanded(popped[m], visited) && Reached(popped[m], seeds, popped[..m])
    requires visited <= visited' && Expanded(queue[b], visited')
    ensures forall m :: 0 <= m < |popped| + 1 ==>
      WellFormed(env, i, j, (popped + [queue[b]])[m]) && Expanded((popped + [queue[b]])[m], visited')
      && Reached((popped + [queue[b]])[m], seeds, (popped + [queue[b]])[..m])
  {
    var popped' := popped + [queue[b]];
    forall m | 0 <= m < |popped'|
      ensures WellFormed(env, i, j, popped'[m]) && Expanded(popped'[m], visited') && Reached(popped'[m], seeds, popped'[..m])
    {
      if m < |popped| {
        assert popped'[..m] == popped[..m];
      } else {
        assert popped'[..m] == popped;
        assert queue[b] in queue;
      }
    }
  }

  lemma PopStepKeys(queue: seq<CubeState>, visited: set<Key>, popped: seq<CubeState>, b: nat, added: seq<CubeState>)
    requires b < |queue|
    requires DistinctKeys(queue) && DistinctKeys(popped) && DistinctKeys(added)
    requires forall t :: t in queue ==> t.key !in KeySet(popped)
    requires visited == KeySet(popped) + KeySet(queue)
    requires forall t :: t in added ==> t.key !in visited
    ensures DistinctKeys(Without(queue, b) + added) && DistinctKeys(popped + [queue[b]])
    ensures forall t :: t in Without(queue, b) + added ==> t.key !in KeySet(popped + [queue[b]])
  {
    var s := queue[b];
    var rest := Without(queue, b);
    var popped' := popped + [s];
    var queue' := rest + added;
    WithoutKeepsKeysDistinct(queue, b);
    assert s in queue;
    assert KeySet(popped') == KeySet(popped) + {s.key};
    forall p, r | 0 <= p < r < |queue'|
      ensures queue'[p].key != queue'[r].key
    {
      if r >= |rest| && p < |rest| {
        assert queue'[p] in rest && queue'[r] == added[r - |rest|];
        assert queue'[r] in added;
        assert queue'[p] in queue;
      } else if p >= |rest| {
        assert queue'[p] == added[p - |rest|] && queue'[r] == added[r - |rest|];
      }
    }
    forall p, r | 0 <= p < r < |popped'|
      ensures popped'[p].key != popped'[r].key
    {
      if r == |popped| {
        assert popped'[p] in popped;
      }
    }
    forall t | t in queue'
      ensures t.key !in KeySet(popped')
    {
      if t in added {
        assert s.key in visited;
      }
    }
  }
}
