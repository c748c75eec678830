/** Facts about the agenda of the unary closure: which rules fire, and why the agenda runs
    dry. */
module Closure {
  import opened Types

  /** The unary rules grammar g's trie holds under symbol x: the rules of the trie position
      x leads to, when that position has a rule collection of arity 1. */
  predicate FiresUnary(env: Env, g: Grammar, x: Symbol, r: Rule)
  {
    && env.trieMatch(g, x).Some?
    && env.trieMatch(g, x).value.collection.Some?
    && env.trieMatch(g, x).value.collection.value.arity == 1
    && r in env.trieMatch(g, x).value.collection.value.sortedRules
  }

  /** The number of nodes at the head of the agenda whose left-hand side has already been
      expanded. */
  function LeadingStale(queue: seq<Node>, seen: set<Symbol>): nat
  {
    if queue == [] || queue[0].lhs !in seen then 0 else 1 + LeadingStale(queue[1..], seen)
  }

  /** Appending nodes whose left-hand sides have not been expanded does not lengthen the
      stale head of the agenda. Together with the growth of the expanded set on every other
      step, this is why the closure ends: a step that takes a stale node shortens the stale
      head, and a step that takes a incoming node adds a symbol to the expanded set, of which
      there are finitely many. */
  lemma {:induction false} AppendFreshKeepsStaleHead(queue: seq<Node>, incoming: seq<Node>, seen: set<Symbol>)
    requires forall x :: x in incoming ==> x.lhs !in seen
    ensures LeadingStale(queue + incoming, seen) <= LeadingStale(queue, seen)
  {
    if queue == [] {
      assert queue + incoming == incoming;
      if incoming != [] {
        assert incoming[0] in incoming;
      }
    } else if queue[0].lhs in seen {
      assert (queue + incoming)[1..] == queue[1..] + incoming;
      AppendFreshKeepsStaleHead(queue[1..], incoming, seen);
    }
  }

  /** The nodes the cell's insertion hands back, in order, when the insertions `adds` are
      offered one by one to cell c (an insertion that is pruned or merged away hands back
      nothing). */
  function Results(env: Env, c: Cell, adds: seq<Addition>): seq<Node>
  {
    if adds == [] then []
    else
      var init := adds[..|adds| - 1];
      var r := env.insertResult(c.(added := c.added + init), adds[|adds| - 1]);
      Results(env, c, init) + (if r.Some? then [r.value] else [])
  }

  /** Offering two stretches of insertions hands back what the first stretch hands back,
      then what the second hands back from the cell the first left. */
  lemma {:induction false} ResultsAppend(env: Env, c: Cell, a: seq<Addition>, b: seq<Addition>)
    ensures Results(env, c, a + b) == Results(env, c, a) + Results(env, c.(added := c.added + a), b)
  {
    if b == [] {
      assert a + b == a;
    } else {
      var b' := b[..|b| - 1];
      assert (a + b)[..|a + b| - 1] == a + b';
      assert c.added + (a + b') == c.added + a + b';
      ResultsAppend(env, c, a, b');
    }
  }

  /** The nodes of `nodes` whose left-hand side is not in `seen`, in order: those the agenda
      takes in. */
  function Fresh(nodes: seq<Node>, seen: set<Symbol>): seq<Node>
  {
    if nodes == [] then []
    else
      var x := nodes[|nodes| - 1];
      Fresh(nodes[..|nodes| - 1], seen) + (if x.lhs !in seen then [x] else [])
  }

  lemma {:induction false} FreshAppend(a: seq<Node>, b: seq<Node>, seen: set<Symbol>)
    ensures Fresh(a + b, seen) == Fresh(a, seen) + Fresh(b, seen)
  {
    if b == [] {
      assert a + b == a;
    } else {
      var b' := b[..|b| - 1];
      assert (a + b)[..|a + b| - 1] == a + b';
      FreshAppend(a, b', seen);
    }
  }

  /** The agenda takes in exactly the handed-back nodes whose left-hand side is new. */
  lemma {:induction false} FreshMembers(nodes: seq<Node>, seen: set<Symbol>)
    ensures forall x :: x in Fresh(nodes, seen) <==> x in nodes && x.lhs !in seen
  {
    if nodes != [] {
      FreshMembers(nodes[..|nodes| - 1], seen);
      assert nodes == nodes[..|nodes| - 1] + [nodes[|nodes| - 1]];
    }
  }

  /** A node the agenda takes in was handed back, with a new left-hand side. */
  lemma FreshMember(nodes: seq<Node>, seen: set<Symbol>, x: Node)
    requires x in Fresh(nodes, seen)
    ensures x in nodes && x.lhs !in seen
  {
    FreshMembers(nodes, seen);
  }

  /** A step that takes an already expanded node off the head of the agenda, and appends only
      nodes with new left-hand sides, shortens the stale head. */
  lemma StaleStepShortens(queue: seq<Node>, incoming: seq<Node>, seen: set<Symbol>)
    requires queue != [] && queue[0].lhs in seen
    requires forall x :: x in incoming ==> x.lhs !in seen
    ensures LeadingStale(queue[1..] + incoming, seen) < LeadingStale(queue, seen)
  {
    AppendFreshKeepsStaleHead(queue[1..], incoming, seen);
  }

  /** One round of the agenda, which marks the head's symbol expanded and appends only nodes
      whose symbols are not expanded, either expands a new symbol or shortens the stale head:
      the closure ends. */
  lemma RoundShrinks(queue: seq<Node>, incoming: seq<Node>, seen: set<Symbol>)
    requires queue != []
    requires forall x :: x in incoming ==> x.lhs !in seen + {queue[0].lhs}
    ensures var seen' := seen + {queue[0].lhs};
      AllSymbols - seen' < AllSymbols - seen
      || (AllSymbols - seen' == AllSymbols - seen && LeadingStale(queue[1..] + incoming, seen') < LeadingStale(queue, seen))
  {
    var seen' := seen + {queue[0].lhs};
    if queue[0].lhs in seen {
      assert seen' == seen;
      StaleStepShortens(queue, incoming, seen);
    } else {
      SymbolInUniverse(queue[0].lhs);
      assert queue[0].lhs in AllSymbols - seen;
    }
  }

  /** The left-hand sides of `nodes`. */
  ghost function Lhss(nodes: seq<Node>): set<Symbol>
  {
    set x | x in nodes :: x.lhs
  }

  /** What an agenda takes in while the nodes xs[..m] are expanded in turn, when expanding
      the last node of a prefix p of them takes in the nodes intake(p). */
  ghost function TakenWith(intake: seq<Node> -> seq<Node>, xs: seq<Node>, m: nat): seq<Node>
    requires m <= |xs|
  {
    if m == 0 then [] else TakenWith(intake, xs, m - 1) + intake(xs[..m])
  }

  /** An expansion takes in only nodes whose left-hand side no node expanded so far has. */
  ghost predicate TakesFresh(intake: seq<Node> -> seq<Node>)
  {
    forall p: seq<Node>, y :: y in intake(p) ==> y.lhs !in Lhss(p)
  }

  /** What is taken in while expanding the first m nodes depends on those nodes only. */
  lemma {:induction false} TakenSamePrefix(intake: seq<Node> -> seq<Node>, xs: seq<Node>, ys: seq<Node>, m: nat)
    requires m <= |xs| && m <= |ys| && xs[..m] == ys[..m]
    ensures TakenWith(intake, xs, m) == TakenWith(intake, ys, m)
  {
    if m > 0 {
      assert xs[..m - 1] == ys[..m - 1] by {
        assert xs[..m - 1] == xs[..m][..m - 1] && ys[..m - 1] == ys[..m][..m - 1];
      }
      TakenSamePrefix(intake, xs, ys, m - 1);
    }
  }

  /** The left-hand sides of a prefix are among those of the whole sequence, and each node
      of the prefix contributes its own. */
  lemma LhssPrefix(xs: seq<Node>, m: nat)
    requires m <= |xs|
    ensures Lhss(xs[..m]) <= Lhss(xs)
    ensures forall k :: 0 <= k < m ==> xs[k].lhs in Lhss(xs[..m])
  {
    assert forall y :: y in xs[..m] ==> y in xs;
    forall k | 0 <= k < m
      ensures xs[k].lhs in Lhss(xs[..m])
    {
      assert xs[..m][k] == xs[k];
    }
  }

  lemma AppendAssoc(a: seq<Node>, b: seq<Node>, c: seq<Node>)
    ensures a + b + c == a + (b + c)
  {
  }

  /** Expanding one more node takes in what the intake gives for the longer prefix. */
  lemma TakenSnoc(intake: seq<Node> -> seq<Node>, xs: seq<Node>, x: Node)
    ensures TakenWith(intake, xs + [x], |xs| + 1) == TakenWith(intake, xs, |xs|) + intake(xs + [x])
  {
    assert (xs + [x])[..|xs|] == xs[..|xs|];
    TakenSamePrefix(intake, xs + [x], xs, |xs|);
    assert (xs + [x])[..|xs| + 1] == xs + [x];
  }

  /** Moving the head of the queue to the end of the expanded nodes, and appending to the
      queue, leaves the two together in the same order. */
  lemma ShiftHead(expanded: seq<Node>, queue: seq<Node>, incoming: seq<Node>)
    requires queue != []
    ensures expanded + [queue[0]] + (queue[1..] + incoming) == expanded + queue + incoming
  {
    assert queue == [queue[0]] + queue[1..];
  }

  /** An agenda whose expanded nodes and queue are the initial nodes and those taken in stays
      one when the head of the queue is expanded and what that expansion takes in is queued. */
  lemma AgendaShift(intake: seq<Node> -> seq<Node>, initial: seq<Node>, expanded: seq<Node>, queue: seq<Node>,
                    incoming: seq<Node>)
    requires expanded + queue == initial + TakenWith(intake, expanded, |expanded|)
    requires queue != [] && intake(expanded + [queue[0]]) == incoming
    ensures expanded + [queue[0]] + (queue[1..] + incoming)
      == initial + TakenWith(intake, expanded + [queue[0]], |expanded + [queue[0]]|)
  {
    var t := TakenWith(intake, expanded, |expanded|);
    TakenSnoc(intake, expanded, queue[0]);
    calc {
      expanded + [queue[0]] + (queue[1..] + incoming);
      { ShiftHead(expanded, queue, incoming); }
      expanded + queue + incoming;
      initial + t + incoming;
      { AppendAssoc(initial, t, incoming); }
      initial + (t + incoming);
    }
  }

  /** The nodes taken in by the first p expansions come first among those taken in by the
      first n. */
  lemma {:induction false} TakenGrows(intake: seq<Node> -> seq<Node>, xs: seq<Node>, p: nat, n: nat)
    requires p <= n <= |xs|
    ensures |TakenWith(intake, xs, p)| <= |TakenWith(intake, xs, n)|
    ensures TakenWith(intake, xs, n)[..|TakenWith(intake, xs, p)|] == TakenWith(intake, xs, p)
    decreases n
  {
    if p < n {
      TakenGrows(intake, xs, p, n - 1);
      var t := TakenWith(intake, xs, n - 1);
      assert (t + intake(xs[..n]))[..|TakenWith(intake, xs, p)|] == t[..|TakenWith(intake, xs, p)|];
    }
  }

  /** Each node taken in by the first n expansions was taken in by one of them. */
  lemma {:induction false} TakenByOne(intake: seq<Node> -> seq<Node>, xs: seq<Node>, n: nat, q: nat) returns (m: nat)
    requires n <= |xs| && q < |TakenWith(intake, xs, n)|
    ensures m < n && TakenWith(intake, xs, n)[q] in intake(xs[..m + 1])
    decreases n
  {
    var t := TakenWith(intake, xs, n - 1);
    if q < |t| {
      m := TakenByOne(intake, xs, n - 1, q);
      assert TakenWith(intake, xs, n)[q] == t[q];
    } else {
      m := n - 1;
    }
  }

  /** Expansion p and the later ones take in only nodes whose left-hand side is not that of
      any of the first p + 1 expanded nodes. */
  lemma {:induction false} LaterTakenFresh(intake: seq<Node> -> seq<Node>, xs: seq<Node>, p: nat, n: nat)
    requires TakesFresh(intake)
    requires p < n <= |xs|
    ensures forall k :: |TakenWith(intake, xs, p)| <= k < |TakenWith(intake, xs, n)| ==>
      TakenWith(intake, xs, n)[k].lhs !in Lhss(xs[..p + 1])
    decreases n
  {
    var tp := TakenWith(intake, xs, p);
    var t: seq<Node> := TakenWith(intake, xs, n - 1);
    var u: seq<Node> := intake(xs[..n]);
    TakenGrows(intake, xs, p, n - 1);
    assert Lhss(xs[..p + 1]) <= Lhss(xs[..n]) by {
      assert forall y :: y in xs[..p + 1] ==> y in xs[..n];
    }
    if p < n - 1 {
      LaterTakenFresh(intake, xs, p, n - 1);
    }
    forall k | |tp| <= k < |t + u|
      ensures (t + u)[k].lhs !in Lhss(xs[..p + 1])
    {
      if k >= |t| {
        assert (t + u)[k] in u;
      }
    }
  }

  /** xs is what an agenda that starts as `initial` expands when it runs dry: the initial
      nodes followed by everything the expansions of xs take in. */
  ghost predicate Drained(intake: seq<Node> -> seq<Node>, initial: seq<Node>, xs: seq<Node>)
  {
    xs == initial + TakenWith(intake, xs, |xs|)
  }

  /** A drained agenda expands every node an expansion takes in. */
  lemma DrainedTakesMember(intake: seq<Node> -> seq<Node>, initial: seq<Node>, xs: seq<Node>, m: nat)
    requires Drained(intake, initial, xs) && m < |xs|
    ensures forall y :: y in intake(xs[..m + 1]) ==> y in xs
  {
    TakenGrows(intake, xs, m + 1, |xs|);
    var t, all := TakenWith(intake, xs, m + 1), TakenWith(intake, xs, |xs|);
    forall y | y in intake(xs[..m + 1])
      ensures y in xs
    {
      assert y in t;
      assert y in all[..|t|];
      assert y in initial + all;
    }
  }

  /** In a drained agenda, the node expanded at position p is an initial node or one the
      expansions before p took in. */
  lemma DrainedAhead(intake: seq<Node> -> seq<Node>, initial: seq<Node>, xs: seq<Node>, p: nat)
    requires TakesFresh(intake) && Drained(intake, initial, xs)
    requires p < |xs|
    ensures p < |initial| + |TakenWith(intake, xs, p)|
  {
    var tp, all := TakenWith(intake, xs, p), TakenWith(intake, xs, |xs|);
    var q := |initial| + |tp|;
    TakenGrows(intake, xs, p, |xs|);
    if q < |xs| {
      // the node at q was taken in by expansion p or a later one, so its left-hand side
      // is not among those of xs[..p + 1]: q lies beyond p
      LaterTakenFresh(intake, xs, p, |xs|);
      assert xs[q] == all[|tp|];
      assert forall k :: 0 <= k <= p ==> xs[k] in xs[..p + 1];
    }
  }

  /** In a drained agenda, a node beyond the initial ones was taken in by an earlier
      expansion, and its left-hand side had not been expanded by then. */
  lemma DrainedTakenBy(intake: seq<Node> -> seq<Node>, initial: seq<Node>, xs: seq<Node>, k: nat) returns (m: nat)
    requires TakesFresh(intake) && Drained(intake, initial, xs)
    requires |initial| <= k < |xs|
    ensures m < k && xs[k] in intake(xs[..m + 1]) && xs[k].lhs !in Lhss(xs[..m + 1])
  {
    var all := TakenWith(intake, xs, |xs|);
    m := TakenByOne(intake, xs, |xs|, k - |initial|);
    assert xs[k] == all[k - |initial|];
    LhssPrefix(xs, m + 1);
  }

  /** Two drained agendas from the same initial nodes agree at p once they agree before p. */
  lemma DrainedAgree(intake: seq<Node> -> seq<Node>, initial: seq<Node>, e1: seq<Node>, e2: seq<Node>, p: nat)
    requires TakesFresh(intake) && Drained(intake, initial, e1) && Drained(intake, initial, e2)
    requires p < |e1| && p < |e2| && e1[..p] == e2[..p]
    ensures e1[p] == e2[p]
  {
    if |initial| <= p {
      DrainedAhead(intake, initial, e1, p);
      TakenGrows(intake, e1, p, |e1|);
      TakenGrows(intake, e2, p, |e2|);
      TakenSamePrefix(intake, e1, e2, p);
      var t := TakenWith(intake, e1, p);
      assert e1[p] == TakenWith(intake, e1, |e1|)[..|t|][p - |initial|];
      assert e2[p] == TakenWith(intake, e2, |e2|)[..|t|][p - |initial|];
    }
  }

  /** A drained agenda that is a prefix of another drained agenda is all of it. */
  lemma DrainedEnds(intake: seq<Node> -> seq<Node>, initial: seq<Node>, short: seq<Node>, long: seq<Node>)
    requires TakesFresh(intake) && Drained(intake, initial, short) && Drained(intake, initial, long)
    requires |short| <= |long| && short == long[..|short|]
    ensures |short| == |long|
  {
    if |short| < |long| {
      DrainedAhead(intake, initial, long, |short|);
      TakenSamePrefix(intake, short, long, |short|);
      assert false;
    }
  }

  /** An agenda from given initial nodes drains in one way only. */
  lemma DrainedUnique(intake: seq<Node> -> seq<Node>, initial: seq<Node>, e1: seq<Node>, e2: seq<Node>)
    requires TakesFresh(intake) && Drained(intake, initial, e1) && Drained(intake, initial, e2)
    ensures e1 == e2
  {
    var m := if |e1| <= |e2| then |e1| else |e2|;
    for p := 0 to m
      invariant e1[..p] == e2[..p]
    {
      DrainedAgree(intake, initial, e1, e2, p);
      assert e1[..p + 1] == e1[..p] + [e1[p]] && e2[..p + 1] == e2[..p] + [e2[p]];
    }
    if |e1| <= |e2| {
      DrainedEnds(intake, initial, e1, e2);
    } else {
      DrainedEnds(intake, initial, e2, e1);
    }
    assert e1 == e1[..m] && e2 == e2[..m];
  }
}
