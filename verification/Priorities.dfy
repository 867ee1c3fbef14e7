/** The arithmetic of rule priorities: how many nested tests interval halving can take, and what
    rebalancing does (PriorityUpdater). */
module Priorities {
  import opened Wrappers
  import opened Oxm
  import opened FieldSets
  import opened Tracing
  import opened TraceTrees
  import opened Grafting

  // ---------- capacity of a tree never rebalanced ----------

  function Pow2(k: nat): nat {
    if k == 0 then 1 else 2 * Pow2(k - 1)
  }

  lemma {:induction false} PowPositive(k: nat)
    ensures Pow2(k) >= 1
  {
    if k > 0 { PowPositive(k - 1); }
  }

  function TestCount(es: seq<Event>): nat {
    if es == [] then 0 else (if es[0].Tested? then 1 else 0) + TestCount(es[1..])
  }

  /** Every test sits in the middle of the interval it was created in. */
  predicate Halved(n: Node, l: nat, r: nat) {
    match n
    case Unexplored => true
    case FlowNode(_, _) => true
    case TestNode(_, positive, negative, _, prio) =>
      prio == Middle(l, r) && Halved(negative, l, prio) && Halved(positive, prio, r)
    case LoadNode(_, cases) => forall v :: v in cases ==> Halved(cases[v], l, r)
  }

  lemma {:induction false} GraftKeepsHalved(n: Node, es: seq<Event>, fin: Option<FlowId>, l: nat, r: nat,
                                            ctx: seq<Field>, id: nat)
    requires Halved(n, l, r)
    ensures Halved(Graft(n, es, fin, l, r, ctx, id).node, l, r)
    decreases |es|
  {
    if es != [] {
      match es[0]
      case Loaded(f) =>
        GraftKeepsHalved(Child(n, f.value), es[1..], fin, l, r, Added(ctx, f), id);
      case Tested(f, ret) =>
        if n.Unexplored? && !Exceeded(l, r) {
          GraftKeepsHalved(Unexplored, es[1..], fin, Middle(l, r), r, Added(ctx, f), id + 1);
          GraftKeepsHalved(Unexplored, es[1..], fin, l, Middle(l, r), ctx, id + 1);
        } else if n.TestNode? {
          GraftKeepsHalved(n.positive, es[1..], fin, n.prio, r, Added(ctx, f), id);
          GraftKeepsHalved(n.negative, es[1..], fin, l, n.prio, ctx, id);
        }
    }
  }

  /** In a tree never rebalanced, a range of 2^(d+1) takes any trace with d tests and then a flow. */
  lemma {:induction false} Capacity(n: Node, es: seq<Event>, fin: Option<FlowId>, l: nat, r: nat, ctx: seq<Field>,
                                    id: nat)
    requires Halved(n, l, r) && l <= r && r - l >= Pow2(TestCount(es) + 1)
    ensures Graft(n, es, fin, l, r, ctx, id).status != PriorityExceeded
    decreases |es|
  {
    if es == [] {
      assert Pow2(1) == 2;
    } else {
      match es[0]
      case Loaded(f) =>
        Capacity(Child(n, f.value), es[1..], fin, l, r, Added(ctx, f), id);
      case Tested(f, ret) =>
        var half := Pow2(TestCount(es[1..]) + 1);
        PowPositive(TestCount(es[1..]) + 1);
        assert r - l >= 2 * half;
        if n.Unexplored? {
          Capacity(Unexplored, es[1..], fin, Middle(l, r), r, Added(ctx, f), id + 1);
          Capacity(Unexplored, es[1..], fin, l, Middle(l, r), ctx, id + 1);
        } else if n.TestNode? {
          Capacity(n.positive, es[1..], fin, n.prio, r, Added(ctx, f), id);
          Capacity(n.negative, es[1..], fin, l, n.prio, ctx, id);
        }
    }
  }

  /** Fields of types of their own. */
  function Nth(k: nat): Field {
    Field(Type(0, k, 1, true), {0}, {0})
  }

  /** So many tests, all of them failed. */
  function Negatives(k: nat): seq<Event> {
    if k == 0 then [] else [Tested(Nth(k), false)] + Negatives(k - 1)
  }

  lemma {:induction false} NegativesNeed(k: nat, l: nat, r: nat, ctx: seq<Field>, id: nat, flow: FlowId)
    requires Graft(Unexplored, Negatives(k), Some(flow), l, r, ctx, id).status == Done
    ensures r - l >= Pow2(k + 1)
    decreases k
  {
    if k == 0 {
      assert Pow2(1) == 2;
    } else {
      assert Negatives(k)[1..] == Negatives(k - 1);
      NegativesNeed(k - 1, l, Middle(l, r), ctx, id + 1, flow);
    }
  }

  lemma {:induction false} NegativesFresh(k: nat)
    ensures TestCount(Negatives(k)) == k && NonRedundant([], Negatives(k))
  {
    if k > 0 {
      assert Negatives(k)[1..] == Negatives(k - 1);
      NegativesFresh(k - 1);
    }
  }

  lemma {:induction false} FreshIsConsistent(es: seq<Event>, fin: Option<FlowId>, l: nat, r: nat, ctx: seq<Field>,
                                             id: nat)
    ensures Graft(Unexplored, es, fin, l, r, ctx, id).status != InconsistentTrace
    decreases |es|
  {
    if es != [] {
      match es[0]
      case Loaded(f) => FreshIsConsistent(es[1..], fin, l, r, Added(ctx, f), id);
      case Tested(f, ret) =>
        FreshIsConsistent(es[1..], fin, Middle(l, r), r, Added(ctx, f), id + 1);
        FreshIsConsistent(es[1..], fin, l, Middle(l, r), ctx, id + 1);
    }
  }

  /** Exactly the ranges of 2^(d+1) take every trace of d fresh tests followed by a flow. */
  lemma CapacityExact(l: nat, r: nat, d: nat, flow: FlowId)
    ensures (forall es :: NonRedundant([], es) && TestCount(es) == d ==>
               Graft(Unexplored, es, Some(flow), l, r, [], 0).status == Done)
            <==> r - l >= Pow2(d + 1)
  {
    if r - l >= Pow2(d + 1) {
      forall es | TestCount(es) == d
        ensures Graft(Unexplored, es, Some(flow), l, r, [], 0).status == Done
      {
        Capacity(Unexplored, es, Some(flow), l, r, [], 0);
        FreshIsConsistent(es, Some(flow), l, r, [], 0);
      }
    } else {
      NegativesFresh(d);
      if Graft(Unexplored, Negatives(d), Some(flow), l, r, [], 0).status == Done {
        NegativesNeed(d, l, r, [], 0, flow);
      }
    }
  }

  const DEFAULT_LEFT: nat := 1
  const DEFAULT_RIGHT: nat := 65535

  /** The default range takes every trace of 14 tests, and not every trace of 15. */
  lemma DefaultCapacity(flow: FlowId)
    ensures forall es :: NonRedundant([], es) && TestCount(es) == 14 ==>
              Graft(Unexplored, es, Some(flow), DEFAULT_LEFT, DEFAULT_RIGHT, [], 0).status == Done
    ensures exists es :: NonRedundant([], es) && TestCount(es) == 15 &&
              Graft(Unexplored, es, Some(flow), DEFAULT_LEFT, DEFAULT_RIGHT, [], 0).status != Done
  {
    CapacityExact(DEFAULT_LEFT, DEFAULT_RIGHT, 14, flow);
    CapacityExact(DEFAULT_LEFT, DEFAULT_RIGHT, 15, flow);
    assert Pow2(4) == 16 && Pow2(8) == 256 && Pow2(12) == 4096;
    assert Pow2(15) == 32768 && Pow2(16) == 65536;
  }

  // ---------- rebalancing ----------

  ghost function MaxOf(s: set<nat>): (m: nat)
    ensures forall x :: x in s ==> x <= m
    ensures if s == {} then m == 0 else m in s
  {
    if s == {} then 0
    else
      var x :| x in s;
      var rest := MaxOf(s - {x});
      assert forall y :: y in s ==> y == x || y in s - {x};
      if rest > x then rest else x
  }

  /** DepthCounter. */
  ghost function Count(n: Node): nat {
    match n
    case Unexplored => 1
    case FlowNode(_, _) => 1
    case TestNode(_, positive, negative, _, _) => Count(positive) + Count(negative) + 1
    case LoadNode(_, cases) => MaxOf(set v | v in cases :: Count(cases[v]))
  }

  lemma {:induction false} CountPositive(n: Node)
    requires NonEmptyLoads(n)
    ensures Count(n) >= 1
  {
    match n
    case Unexplored =>
    case FlowNode(_, _) =>
    case TestNode(_, _, _, _, _) =>
    case LoadNode(_, cases) =>
      var v :| v in cases;
      CaseCount(n, v);
      CountPositive(cases[v]);
  }

  lemma CaseCount(n: Node, v: Bits)
    requires n.LoadNode? && v in n.cases
    ensures Count(n.cases[v]) <= Count(n)
  {
    var counts := set w | w in n.cases :: Count(n.cases[w]);
    assert Count(n.cases[v]) in counts;
    assert Count(n) == MaxOf(counts);
  }

  function Average(from: real, to: real, k: nat, m: nat): real
    requires k + m > 0
  {
    (from * m as real + to * k as real) / (m + k) as real
  }

  /** std::round on a nonnegative number. */
  function Round(x: real): int {
    (x + 0.5).Floor
  }

  lemma CancelFactor(a: real, b: real, w: real)
    requires w > 0.0 && a * w == b * w
    ensures a == b
  {
    assert (a - b) * w == 0.0;
  }

  /** The average cuts the range in the proportion k : m. */
  lemma AverageCuts(from: real, to: real, k: nat, m: nat, share: real)
    requires k + m > 0 && share * (m + k) as real == to - from
    ensures Average(from, to, k, m) == from + share * k as real
    ensures to - Average(from, to, k, m) == share * m as real
  {
    var w, rk, rm := (m + k) as real, k as real, m as real;
    var p := Average(from, to, k, m);
    assert p * w == from * rm + to * rk;
    assert to * rk == from * rk + (share * w) * rk;
    assert (from + share * rk) * w == from * rm + from * rk + share * rk * w by {
      assert from * w == from * rm + from * rk;
    }
    assert (share * w) * rk == share * rk * w;
    CancelFactor(p, from + share * rk, w);
    assert share * w == share * rm + share * rk;
  }

  lemma Split(from: real, to: real, k: nat, m: nat)
    requires k + m > 0 && from <= to
    ensures var p := Average(from, to, k, m);
            && from <= p <= to
            && (to - from >= 2.0 * (k + m) as real ==> p - from >= 2.0 * k as real && to - p >= 2.0 * m as real)
  {
    var w := (m + k) as real;
    var share := (to - from) / w;
    AverageCuts(from, to, k, m, share);
    ShareBounds(share, w, to - from);
    MulMonotone(0.0, share, k);
    MulMonotone(0.0, share, m);
    if to - from >= 2.0 * w {
      MulMonotone(2.0, share, k);
      MulMonotone(2.0, share, m);
    }
  }

  lemma ShareBounds(share: real, w: real, x: real)
    requires w > 0.0 && share * w == x && x >= 0.0
    ensures share >= 0.0 && (x >= 2.0 * w ==> share >= 2.0)
  {
    if 0.0 <= share < 2.0 {
      assert (2.0 - share) * w > 0.0;
    }
  }

  lemma MulMonotone(a: real, b: real, k: nat)
    requires a <= b
    ensures a * k as real <= b * k as real && (a == 0.0 ==> 0.0 <= b * k as real)
  {
    var d, w := b - a, k as real;
    assert d * w >= 0.0 && d * w == b * w - a * w;
  }

  /** PriorityAssigner between from and to. */
  ghost function Rebalanced(n: Node, from: real, to: real): Node
    requires NonEmptyLoads(n) && 0.0 <= from <= to
  {
    match n
    case Unexplored => n
    case FlowNode(flow, _) =>
      Split(from, to, 1, 1);
      FlowNode(flow, Round(Average(from, to, 1, 1)))
    case TestNode(need, positive, negative, id, _) =>
      CountPositive(positive);
      var p := Average(from, to, Count(negative), Count(positive));
      Split(from, to, Count(negative), Count(positive));
      TestNode(need, Rebalanced(positive, p, to), Rebalanced(negative, from, p), id, Round(p))
    case LoadNode(mask, cases) =>
      LoadNode(mask, map v | v in cases :: Rebalanced(cases[v], from, to))
  }

  // ---------- what the count counts ----------

  /** The tests and leaves that are left of a tree when one case is chosen at each load. */
  datatype Slice = Leaf | Fork(positive: Slice, negative: Slice)

  function Size(s: Slice): nat {
    match s
    case Leaf => 1
    case Fork(positive, negative) => Size(positive) + Size(negative) + 1
  }

  ghost predicate IsSlice(s: Slice, n: Node) {
    match n
    case Unexplored => s == Leaf
    case FlowNode(_, _) => s == Leaf
    case TestNode(_, positive, negative, _, _) => s.Fork? && IsSlice(s.positive, positive)
      && IsSlice(s.negative, negative)
    case LoadNode(_, cases) => exists v :: v in cases && IsSlice(s, cases[v])
  }

  /** So many tests and leaves are left by the choices that leave most. */
  ghost predicate IsWidest(n: Node, size: nat) {
    (forall s :: IsSlice(s, n) ==> Size(s) <= size) && exists s :: IsSlice(s, n) && Size(s) == size
  }

  lemma {:induction false} SliceBounded(s: Slice, n: Node)
    requires IsSlice(s, n)
    ensures Size(s) <= Count(n)
  {
    match n
    case Unexplored =>
    case FlowNode(_, _) =>
    case TestNode(_, positive, negative, _, _) =>
      SliceBounded(s.positive, positive);
      SliceBounded(s.negative, negative);
    case LoadNode(_, cases) =>
      var v :| v in cases && IsSlice(s, cases[v]);
      SliceBounded(s, cases[v]);
      CaseCount(n, v);
  }

  lemma {:induction false} WidestSlice(n: Node) returns (s: Slice)
    requires NonEmptyLoads(n)
    ensures IsSlice(s, n) && Size(s) == Count(n)
  {
    match n
    case Unexplored => s := Leaf;
    case FlowNode(_, _) => s := Leaf;
    case TestNode(_, positive, negative, _, _) =>
      var p := WidestSlice(positive);
      var m := WidestSlice(negative);
      s := Fork(p, m);
    case LoadNode(_, cases) =>
      var counts := set w | w in cases :: Count(cases[w]);
      var some :| some in cases;
      assert Count(cases[some]) in counts;
      var v :| v in cases && Count(cases[v]) == MaxOf(counts);
      s := WidestSlice(cases[v]);
  }

  /** The count is the number of tests and leaves left by the choices that leave most. */
  lemma CountExact(n: Node, size: nat)
    requires NonEmptyLoads(n)
    ensures size == Count(n) <==> IsWidest(n, size)
  {
    forall s | IsSlice(s, n) ensures Size(s) <= Count(n) {
      SliceBounded(s, n);
    }
    var widest := WidestSlice(n);
  }

  /** p divides the range into parts of the proportion below : above. */
  predicate Divides(p: real, from: real, to: real, below: nat, above: nat) {
    from <= p <= to && (p - from) * above as real == (to - p) * below as real
  }

  /** prio is the integer next to x, and the upper one of two. */
  predicate IsRounded(prio: int, x: real) {
    prio as real - 0.5 <= x < prio as real + 0.5
  }

  /** Every test divides its range in the proportion of the sizes of its two sides, every flow halves it. */
  ghost predicate Proportional(n: Node, b: Node, from: real, to: real) {
    match n
    case Unexplored => b == Unexplored
    case FlowNode(flow, _) => b.FlowNode? && b.flow == flow && IsRounded(b.prio, (from + to) / 2.0)
    case TestNode(need, positive, negative, id, _) =>
      && b.TestNode? && b.need == need && b.id == id
      && exists p: real, below: nat, above: nat ::
           && IsWidest(negative, below) && IsWidest(positive, above)
           && Divides(p, from, to, below, above) && IsRounded(b.prio, p)
           && Proportional(negative, b.negative, from, p) && Proportional(positive, b.positive, p, to)
    case LoadNode(mask, cases) =>
      && b.LoadNode? && b.mask == mask && b.cases.Keys == cases.Keys
      && forall v :: v in cases ==> Proportional(cases[v], b.cases[v], from, to)
  }

  lemma AverageDivides(from: real, to: real, k: nat, m: nat)
    requires k + m > 0 && from <= to
    ensures Divides(Average(from, to, k, m), from, to, k, m)
  {
    var share, rk, rm := (to - from) / (m + k) as real, k as real, m as real;
    Split(from, to, k, m);
    AverageCuts(from, to, k, m, share);
    assert (share * rk) * rm == (share * rm) * rk;
  }

  lemma RoundRounds(x: real)
    ensures IsRounded(Round(x), x)
  {
  }

  /** Rebalancing does so all the way down. */
  lemma {:induction false} RebalancedProportional(n: Node, from: real, to: real)
    requires NonEmptyLoads(n) && 0.0 <= from <= to
    ensures Proportional(n, Rebalanced(n, from, to), from, to)
  {
    hide IsWidest, Divides, Average, Round, IsRounded;
    match n
    case Unexplored =>
    case FlowNode(flow, _) =>
      Split(from, to, 1, 1);
      HalfIsAverage(from, to);
      RoundRounds(Average(from, to, 1, 1));
    case TestNode(need, positive, negative, id, _) =>
      var below, above := Count(negative), Count(positive);
      CountPositive(positive);
      CountExact(positive, above);
      CountExact(negative, below);
      var p := Average(from, to, below, above);
      Split(from, to, below, above);
      AverageDivides(from, to, below, above);
      RoundRounds(p);
      RebalancedProportional(positive, p, to);
      RebalancedProportional(negative, from, p);
    case LoadNode(mask, cases) =>
      forall v | v in cases { RebalancedProportional(cases[v], from, to); }
  }

  lemma HalfIsAverage(from: real, to: real)
    ensures Average(from, to, 1, 1) == (from + to) / 2.0
  {
  }

  /** Every unexplored leaf has room for a test or a flow. */
  predicate Roomy(n: Node, l: nat, r: nat) {
    match n
    case Unexplored => !Exceeded(l, r)
    case FlowNode(_, _) => true
    case TestNode(_, positive, negative, _, prio) => Roomy(negative, l, prio) && Roomy(positive, prio, r)
    case LoadNode(_, cases) => forall v :: v in cases ==> Roomy(cases[v], l, r)
  }

  lemma RoundApart(x: real, y: real, d: nat)
    requires y - x >= d as real
    ensures Round(y) >= Round(x) + d
  {
    assert y + 0.5 >= (x + 0.5) + d as real;
  }

  /** Rebalancing over a range of twice the tree's count nests all rounded priorities strictly again
      and leaves every unexplored leaf room for a test or a flow. */
  lemma {:induction false} RebalancedOrdered(n: Node, from: real, to: real)
    requires NonEmptyLoads(n) && 0.0 <= from && to - from >= 2.0 * Count(n) as real
    ensures PrioOrdered(Rebalanced(n, from, to), Round(from), Round(to))
    ensures Roomy(Rebalanced(n, from, to), Round(from), Round(to))
  {
    CountPositive(n);
    match n
    case Unexplored =>
      RoundApart(from, to, 2);
    case FlowNode(_, _) =>
      var p := Average(from, to, 1, 1);
      assert p - from >= 1.0 && to - p >= 1.0;
      RoundApart(from, p, 1);
      RoundApart(p, to, 1);
    case TestNode(_, positive, negative, _, _) =>
      CountPositive(positive);
      CountPositive(negative);
      var p := Average(from, to, Count(negative), Count(positive));
      Split(from, to, Count(negative), Count(positive));
      RoundApart(from, p, 1);
      RoundApart(p, to, 1);
      RebalancedOrdered(negative, from, p);
      RebalancedOrdered(positive, p, to);
    case LoadNode(_, cases) =>
      forall v | v in cases
        ensures PrioOrdered(Rebalanced(cases[v], from, to), Round(from), Round(to))
        ensures Roomy(Rebalanced(cases[v], from, to), Round(from), Round(to))
      {
        CaseCount(n, v);
        RebalancedOrdered(cases[v], from, to);
      }
  }

  /** The two trees differ in priorities only. */
  predicate SameButPrios(a: Node, b: Node) {
    match a
    case Unexplored => b.Unexplored?
    case FlowNode(flow, _) => b.FlowNode? && b.flow == flow
    case TestNode(need, positive, negative, id, _) =>
      b.TestNode? && b.need == need && b.id == id && SameButPrios(positive, b.positive)
        && SameButPrios(negative, b.negative)
    case LoadNode(mask, cases) =>
      b.LoadNode? && b.mask == mask && b.cases.Keys == cases.Keys
        && forall v :: v in cases ==> SameButPrios(cases[v], b.cases[v])
  }

  lemma {:induction false} RebalancedSame(n: Node, from: real, to: real)
    requires NonEmptyLoads(n) && 0.0 <= from <= to
    ensures SameButPrios(n, Rebalanced(n, from, to))
  {
    match n
    case Unexplored =>
    case FlowNode(_, _) =>
    case TestNode(_, positive, negative, _, _) =>
      CountPositive(positive);
      var p := Average(from, to, Count(negative), Count(positive));
      Split(from, to, Count(negative), Count(positive));
      RebalancedSame(positive, p, to);
      RebalancedSame(negative, from, p);
    case LoadNode(_, cases) =>
      forall v | v in cases { RebalancedSame(cases[v], from, to); }
  }

  /** Priorities play no part in lookup. */
  lemma {:induction false} SameLookup(a: Node, b: Node, q: Packet, alive: set<FlowId>)
    requires SameButPrios(a, b)
    ensures Lookup(a, q, alive) == Lookup(b, q, alive)
  {
    match a
    case Unexplored =>
    case FlowNode(_, _) =>
    case TestNode(_, positive, negative, _, _) =>
      SameLookup(positive, b.positive, q, alive);
      SameLookup(negative, b.negative, q, alive);
    case LoadNode(mask, cases) =>
      if mask.t in q && LoadBits(q, mask).value in cases {
        SameLookup(cases[LoadBits(q, mask).value], b.cases[LoadBits(q, mask).value], q, alive);
      }
  }

  lemma {:induction false} SameInvariants(a: Node, b: Node, ctx: seq<Field>)
    requires SameButPrios(a, b)
    ensures WellMasked(a, ctx) ==> WellMasked(b, ctx)
    ensures OneField(a, ctx) ==> OneField(b, ctx)
  {
    match a
    case Unexplored =>
    case FlowNode(_, _) =>
    case TestNode(need, positive, negative, _, _) =>
      SameInvariants(positive, b.positive, ctx + [need]);
      SameInvariants(negative, b.negative, ctx);
    case LoadNode(mask, cases) =>
      forall v | v in cases { SameInvariants(cases[v], b.cases[v], ctx + [CaseField(mask, v)]); }
  }

  lemma {:induction false} SameIds(a: Node, b: Node)
    requires SameButPrios(a, b)
    ensures forall i :: HasId(a, i) <==> HasId(b, i)
    ensures forall f :: HasFlow(a, f) <==> HasFlow(b, f)
    ensures UniqueIds(a) ==> UniqueIds(b)
    ensures UniqueFlows(a) ==> UniqueFlows(b)
    ensures NonEmptyLoads(a) ==> NonEmptyLoads(b)
    ensures Count(a) == Count(b)
  {
    hide PrioOrdered;
    match a
    case Unexplored =>
    case FlowNode(_, _) =>
    case TestNode(_, positive, negative, _, _) =>
      SameIds(positive, b.positive);
      SameIds(negative, b.negative);
    case LoadNode(_, cases) =>
      forall v | v in cases { SameIds(cases[v], b.cases[v]); }
      assert forall v :: v in cases <==> v in b.cases;
      assert (set v | v in cases :: Count(cases[v])) == (set v | v in b.cases :: Count(b.cases[v]));
  }
}
