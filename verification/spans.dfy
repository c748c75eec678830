/** The order in which the chart visits spans, and the steps it takes for each one. */
module Spans {
  import opened Types

  /** The half-open span [i, j) over lattice positions. */
  datatype Span = Span(i: nat, j: nat)

  function Width(s: Span): int
  {
    s.j - s.i
  }

  /** A span the chart of a sentence of length n has a cell for. */
  predicate InChart(s: Span, n: nat)
  {
    s.i < s.j <= n
  }

  /** Whether span a is processed before span b: narrower first, then by start. */
  predicate Precedes(a: Span, b: Span)
  {
    Width(a) < Width(b) || (Width(a) == Width(b) && a.i < b.i)
  }

  /** The spans of width w, by ascending start. */
  function Row(n: nat, w: nat): seq<Span>
    requires 1 <= w <= n
  {
    seq(n - w + 1, k requires 0 <= k <= n - w => Span(k, k + w))
  }

  /** The first i + 1 spans of a row are its first i and the span starting at i. */
  lemma RowSnoc(n: nat, w: nat, i: nat)
    requires 1 <= w <= n && i <= n - w
    ensures Row(n, w)[..i + 1] == Row(n, w)[..i] + [Span(i, i + w)]
  {
  }

  /** The spans of width 1 .. w-1 in visiting order. */
  function ScheduleBelow(n: nat, w: nat): seq<Span>
    requires 1 <= w <= n + 1
    decreases w
  {
    if w == 1 then [] else ScheduleBelow(n, w - 1) + Row(n, w - 1)
  }

  /** Every span the two nested loops of the chart's expansion visit, in order. */
  function Schedule(n: nat): seq<Span>
  {
    ScheduleBelow(n, n + 1)
  }

  lemma RowShape(n: nat, w: nat)
    requires 1 <= w <= n
    ensures forall s :: s in Row(n, w) <==> InChart(s, n) && Width(s) == w
    ensures forall p, q :: 0 <= p < q < |Row(n, w)| ==> Row(n, w)[p].i < Row(n, w)[q].i
  {
    forall s | InChart(s, n) && Width(s) == w
      ensures s in Row(n, w)
    {
      assert Row(n, w)[s.i] == s;
    }
  }

  lemma {:induction false} ScheduleBelowShape(n: nat, w: nat)
    requires 1 <= w <= n + 1
    ensures forall s :: s in ScheduleBelow(n, w) <==> InChart(s, n) && Width(s) < w
    ensures forall p, q :: 0 <= p < q < |ScheduleBelow(n, w)| ==>
      Precedes(ScheduleBelow(n, w)[p], ScheduleBelow(n, w)[q])
    decreases w
  {
    if w > 1 {
      ScheduleBelowShape(n, w - 1);
      RowShape(n, w - 1);
      var a, b := ScheduleBelow(n, w - 1), Row(n, w - 1);
      assert ScheduleBelow(n, w) == a + b;
      forall p, q | 0 <= p < q < |a + b|
        ensures Precedes((a + b)[p], (a + b)[q])
      {
        if q < |a| {
        } else if p < |a| {
          assert a[p] in a && b[q - |a|] in b;
        } else {
          assert (a + b)[p] == b[p - |a|] && (a + b)[q] == b[q - |a|];
        }
      }
    }
  }

  /** The expansion visits every span of the chart exactly once (in the iff and the strict
      order below, which rules out repeats), narrower spans first and spans of one width by
      ascending start. */
  lemma ScheduleVisitsEachSpanOnce(n: nat)
    ensures forall s :: s in Schedule(n) <==> InChart(s, n)
    ensures forall p, q :: 0 <= p < q < |Schedule(n)| ==> Precedes(Schedule(n)[p], Schedule(n)[q])
    ensures forall p, q :: 0 <= p < q < |Schedule(n)| ==> Schedule(n)[p] != Schedule(n)[q]
  {
    ScheduleBelowShape(n, n + 1);
  }

  /** One step the expansion takes for a span. */
  datatype Step =
    | ExpandDots(span: Span)
    | Complete(span: Span)
    | Unary(span: Span)
    | StartDots(span: Span)
    | Sort(span: Span)

  /** The steps for one span, in order: dot-chart expansion, completion, unary closure,
      seeding of new dot items, sorting of the cell. */
  function SpanSteps(s: Span): seq<Step>
  {
    [ExpandDots(s), Complete(s), Unary(s), StartDots(s), Sort(s)]
  }

  /** The five steps of span s stand together at position p of plan. */
  predicate StepsAt(plan: seq<Step>, p: int, s: Span)
  {
    0 <= p && p + 5 <= |plan| && plan[p..p + 5] == SpanSteps(s)
  }

  /** A span the lattice connects. */
  predicate Reachable(d: (nat, nat) -> Distance, s: Span)
  {
    !d(s.i, s.j).Infinite?
  }

  /** The steps the expansion takes over the spans `spans`, skipping unreachable ones. */
  function Plan(spans: seq<Span>, d: (nat, nat) -> Distance): seq<Step>
  {
    if spans == [] then []
    else (if Reachable(d, spans[0]) then SpanSteps(spans[0]) else []) + Plan(spans[1..], d)
  }

  lemma {:induction false} PlanAppend(a: seq<Span>, b: seq<Span>, d: (nat, nat) -> Distance)
    ensures Plan(a + b, d) == Plan(a, d) + Plan(b, d)
  {
    if a != [] {
      assert (a + b)[1..] == a[1..] + b;
      PlanAppend(a[1..], b, d);
    } else {
      assert a + b == b;
    }
  }

  /** Visiting one more span appends its steps, if the lattice connects it. */
  lemma PlanSnoc(spans: seq<Span>, s: Span, d: (nat, nat) -> Distance)
    ensures Reachable(d, s) ==> Plan(spans + [s], d) == Plan(spans, d) + SpanSteps(s)
    ensures !Reachable(d, s) ==> Plan(spans + [s], d) == Plan(spans, d)
  {
    PlanAppend(spans, [s], d);
    assert [s][1..] == [];
    assert Plan(spans, d) + [] == Plan(spans, d);
  }

  /** The steps for the first i spans of row w, one span at a time. */
  function RowPlan(n: nat, w: nat, i: nat, d: (nat, nat) -> Distance): seq<Step>
    requires 1 <= w <= n && i <= n - w + 1
  {
    if i == 0 then []
    else if Reachable(d, Span(i - 1, i - 1 + w)) then RowPlan(n, w, i - 1, d) + SpanSteps(Span(i - 1, i - 1 + w))
    else RowPlan(n, w, i - 1, d)
  }

  /** The steps for the spans below width w, one row at a time. */
  function PlanBelow(n: nat, w: nat, d: (nat, nat) -> Distance): seq<Step>
    requires 1 <= w <= n + 1
    decreases w
  {
    if w == 1 then [] else PlanBelow(n, w - 1, d) + RowPlan(n, w - 1, n - w + 2, d)
  }

  /** Taken span by span, a row prefix has the plan of the prefix. */
  lemma {:induction false} RowPlanIsPlan(n: nat, w: nat, i: nat, d: (nat, nat) -> Distance)
    requires 1 <= w <= n && i <= n - w + 1
    ensures RowPlan(n, w, i, d) == Plan(Row(n, w)[..i], d)
  {
    if i > 0 {
      RowPlanIsPlan(n, w, i - 1, d);
      RowSnoc(n, w, i - 1);
      PlanSnoc(Row(n, w)[..i - 1], Span(i - 1, i - 1 + w), d);
    }
  }

  /** Taken row by row, the spans below width w have the plan of the schedule below w. */
  lemma {:induction false} PlanBelowIsPlan(n: nat, w: nat, d: (nat, nat) -> Distance)
    requires 1 <= w <= n + 1
    ensures PlanBelow(n, w, d) == Plan(ScheduleBelow(n, w), d)
    decreases w
  {
    if w > 1 {
      PlanBelowIsPlan(n, w - 1, d);
      RowPlanIsPlan(n, w - 1, n - w + 2, d);
      assert Row(n, w - 1)[..n - w + 2] == Row(n, w - 1);
      PlanAppend(ScheduleBelow(n, w - 1), Row(n, w - 1), d);
    }
  }

  /** Every step of a plan is for one of its spans, and one the lattice connects. */
  lemma {:induction false} PlanMembers(spans: seq<Span>, d: (nat, nat) -> Distance)
    ensures forall st :: st in Plan(spans, d) ==> st.span in spans && Reachable(d, st.span)
  {
    if spans != [] {
      PlanMembers(spans[1..], d);
      var head := if Reachable(d, spans[0]) then SpanSteps(spans[0]) else [];
      assert Plan(spans, d) == head + Plan(spans[1..], d);
    }
  }

  /** Every span of a plan the lattice connects has its five steps together in the plan. */
  lemma {:induction false} PlanCovers(spans: seq<Span>, d: (nat, nat) -> Distance)
    ensures forall s :: s in spans && Reachable(d, s) ==> exists p :: StepsAt(Plan(spans, d), p, s)
  {
    if spans != [] {
      PlanCovers(spans[1..], d);
      var head := if Reachable(d, spans[0]) then SpanSteps(spans[0]) else [];
      var rest := Plan(spans[1..], d);
      assert Plan(spans, d) == head + rest;
      forall s | s in spans && Reachable(d, s)
        ensures exists p :: StepsAt(Plan(spans, d), p, s)
      {
        if s == spans[0] {
          assert (head + rest)[0..5] == head;
          assert StepsAt(Plan(spans, d), 0, s);
        } else {
          assert s in spans[1..];
          var p :| StepsAt(rest, p, s);
          StepsAtShift(head, rest, p, s);
          assert StepsAt(Plan(spans, d), |head| + p, s);
        }
      }
    }
  }

  lemma StepsAtShift(head: seq<Step>, rest: seq<Step>, p: int, s: Span)
    requires StepsAt(rest, p, s)
    ensures StepsAt(head + rest, |head| + p, s)
  {
    assert (head + rest)[|head| + p..|head| + p + 5] == rest[p..p + 5];
  }

  /** If the spans come narrower first, so do the steps. */
  lemma {:induction false} PlanNarrowerFirst(spans: seq<Span>, d: (nat, nat) -> Distance)
    requires forall p, q :: 0 <= p < q < |spans| ==> Width(spans[p]) <= Width(spans[q])
    ensures forall p, q :: 0 <= p < q < |Plan(spans, d)| ==>
      Width(Plan(spans, d)[p].span) <= Width(Plan(spans, d)[q].span)
  {
    if spans != [] {
      PlanNarrowerFirst(spans[1..], d);
      PlanMembers(spans[1..], d);
      var head := if Reachable(d, spans[0]) then SpanSteps(spans[0]) else [];
      var rest := Plan(spans[1..], d);
      assert Plan(spans, d) == head + rest;
      forall st | st in rest
        ensures Width(spans[0]) <= Width(st.span)
      {
        var k :| 0 <= k < |spans[1..]| && spans[1..][k] == st.span;
        assert spans[k + 1] == st.span;
      }
      forall p, q | 0 <= p < q < |head + rest|
        ensures Width((head + rest)[p].span) <= Width((head + rest)[q].span)
      {
        if q < |head| {
        } else if p < |head| {
          assert (head + rest)[q] == rest[q - |head|] && rest[q - |head|] in rest;
        } else {
          assert (head + rest)[p] == rest[p - |head|] && (head + rest)[q] == rest[q - |head|];
        }
      }
    }
  }

  /** The expansion's steps: each of them is for a span of the chart the lattice connects;
      every such span gets its five steps together and in order; and no step for a span comes
      after a step for a wider one. */
  lemma ExpansionPlan(n: nat, d: (nat, nat) -> Distance)
    ensures forall st :: st in Plan(Schedule(n), d) ==> InChart(st.span, n) && Reachable(d, st.span)
    ensures forall s :: InChart(s, n) && Reachable(d, s) ==>
      exists p :: StepsAt(Plan(Schedule(n), d), p, s)
    ensures forall p, q :: 0 <= p < q < |Plan(Schedule(n), d)| ==>
      Width(Plan(Schedule(n), d)[p].span) <= Width(Plan(Schedule(n), d)[q].span)
  {
    ScheduleVisitsEachSpanOnce(n);
    PlanMembers(Schedule(n), d);
    PlanCovers(Schedule(n), d);
    PlanNarrowerFirst(Schedule(n), d);
  }
}
