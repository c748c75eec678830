/** The left-hand-side label filter that constrained parsing applies to a span's rules. */
module RuleFilter {
  import opened Types

  /** A rule may build an item over a span whose reference labels are `labels` when its
      left-hand side is the goal symbol or one of those labels. */
  predicate Allowed(r: Rule, goal: Symbol, labels: set<Symbol>)
  {
    r.lhs == goal || r.lhs in labels
  }

  /** The rules of `rules` that are allowed, in their original order. */
  function FilterByLabels(rules: seq<Rule>, goal: Symbol, labels: set<Symbol>): seq<Rule>
  {
    if rules == [] then []
    else (if Allowed(rules[0], goal, labels) then [rules[0]] else []) + FilterByLabels(rules[1..], goal, labels)
  }

  /** The filter keeps only allowed rules, and every allowed rule as many times as it occurs. */
  lemma {:induction false} FilterKeepsExactlyAllowed(rules: seq<Rule>, goal: Symbol, labels: set<Symbol>)
    ensures forall r :: r in FilterByLabels(rules, goal, labels) ==> Allowed(r, goal, labels)
    ensures forall r ::
      multiset(FilterByLabels(rules, goal, labels))[r] == (if Allowed(r, goal, labels) then multiset(rules)[r] else 0)
  {
    if rules != [] {
      FilterKeepsExactlyAllowed(rules[1..], goal, labels);
      assert rules == [rules[0]] + rules[1..];
    }
  }

  /** `a` is `b` with some elements left out, the rest in their original order. */
  predicate IsSubsequence<T(==)>(a: seq<T>, b: seq<T>)
  {
    if a == [] then true
    else if b == [] then false
    else if a[0] == b[0] then IsSubsequence(a[1..], b[1..])
    else IsSubsequence(a, b[1..])
  }

  /** The filter keeps the original order of the rules it keeps. */
  lemma {:induction false} FilterPreservesOrder(rules: seq<Rule>, goal: Symbol, labels: set<Symbol>)
    ensures IsSubsequence(FilterByLabels(rules, goal, labels), rules)
  {
    if rules != [] {
      FilterPreservesOrder(rules[1..], goal, labels);
      var rest := FilterByLabels(rules[1..], goal, labels);
      if Allowed(rules[0], goal, labels) {
        assert FilterByLabels(rules, goal, labels) == [rules[0]] + rest;
        assert ([rules[0]] + rest)[1..] == rest;
      } else {
        assert FilterByLabels(rules, goal, labels) == rest;
        SkipHead(rest, rules);
      }
    }
  }

  /** Dropping the head of `b` keeps a subsequence of its tail a subsequence of `b`. */
  lemma {:induction false} SkipHead<T>(a: seq<T>, b: seq<T>)
    requires b != [] && IsSubsequence(a, b[1..])
    ensures IsSubsequence(a, b)
    decreases |a| + |b|
  {
    if a != [] && a[0] == b[0] {
      // b[1..] must reach a[0] somewhere, so a[1..] fits into b[1..] as well
      TailOfSubsequence(a, b[1..]);
    }
  }

  lemma {:induction false} TailOfSubsequence<T>(a: seq<T>, b: seq<T>)
    requires a != [] && IsSubsequence(a, b)
    ensures IsSubsequence(a[1..], b)
    decreases |a| + |b|
  {
    assert b != [];
    if a[0] == b[0] {
      SkipHead(a[1..], b);
    } else {
      TailOfSubsequence(a, b[1..]);
      SkipHead(a[1..], b);
    }
  }

  /** A list whose rules are all allowed passes the filter unchanged. */
  lemma {:induction false} FilterKeepsAllowed(rules: seq<Rule>, goal: Symbol, labels: set<Symbol>)
    requires forall r :: r in rules ==> Allowed(r, goal, labels)
    ensures FilterByLabels(rules, goal, labels) == rules
  {
    if rules != [] {
      FilterKeepsAllowed(rules[1..], goal, labels);
      assert rules == [rules[0]] + rules[1..];
    }
  }

  /** Filtering twice keeps what filtering once keeps. */
  lemma FilterIdempotent(rules: seq<Rule>, goal: Symbol, labels: set<Symbol>)
    ensures FilterByLabels(FilterByLabels(rules, goal, labels), goal, labels) == FilterByLabels(rules, goal, labels)
  {
    FilterKeepsExactlyAllowed(rules, goal, labels);
    FilterKeepsAllowed(FilterByLabels(rules, goal, labels), goal, labels);
  }
}
