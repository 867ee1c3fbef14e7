/** The visitors that work on a whole tree: the flow-table compiler and the priority updater. */
module Compilers {
  import opened Oxm
  import opened FieldSets
  import opened Tracing
  import opened TraceTrees
  import opened FlowTables
  import opened Priorities
  import opened Tracers

  /** No two rules of the tree have the same key. */
  ghost predicate DistinctKeys(n: Node, ctx: seq<Field>, alive: set<FlowId>) {
    forall a, b :: Emits(n, ctx, a, alive) && Emits(n, ctx, b, alive) && KeyOf(a) == KeyOf(b) ==> a == b
  }

  /** Where the table already has a key of the tree, it has the tree's action. */
  ghost predicate NoClash(t: Table, n: Node, ctx: seq<Field>, alive: set<FlowId>) {
    forall a :: Emits(n, ctx, a, alive) && KeyOf(a) in t ==> Holds(t, a)
  }

  /** t' is t with the rules of n added. */
  ghost predicate AddsRules(t: Table, t': Table, n: Node, ctx: seq<Field>, alive: set<FlowId>) {
    forall rule :: Holds(t', rule) <==> Holds(t, rule) || Emits(n, ctx, rule, alive)
  }

  lemma InstallHolds(t: Table, a: Rule, rule: Rule)
    requires KeyOf(a) in t ==> Holds(t, a)
    ensures Holds(Install(t, a), rule) <==> Holds(t, rule) || rule == a
  {
  }

  /** After adding some of a tree's rules there is still no clash with the others. */
  lemma StillNoClash(t: Table, t': Table, part: Node, partCtx: seq<Field>, n: Node, ctx: seq<Field>, rest: Node,
                     restCtx: seq<Field>, alive: set<FlowId>)
    requires DistinctKeys(n, ctx, alive) && NoClash(t, n, ctx, alive) && AddsRules(t, t', part, partCtx, alive)
    requires forall a :: Emits(part, partCtx, a, alive) ==> Emits(n, ctx, a, alive)
    requires forall a :: Emits(rest, restCtx, a, alive) ==> Emits(n, ctx, a, alive)
    ensures NoClash(t', rest, restCtx, alive)
  {
    forall a | Emits(rest, restCtx, a, alive) && KeyOf(a) in t' ensures Holds(t', a) {
      var b := RuleAt(t', KeyOf(a));
      assert Holds(t', b) && KeyOf(b) == KeyOf(a);
      if Holds(t, b) {
        assert KeyOf(a) in t;
      }
    }
  }

  class Compiler {
    const backend: Backend
    const matching: MultiFieldSet
    const alive: set<FlowId>

    constructor (backend: Backend, alive: set<FlowId>, included: seq<Field>)
      ensures this.backend == backend && this.alive == alive && fresh(matching)
      ensures matching.Valid() && matching.elements == included
    {
      this.backend, this.alive := backend, alive;
      matching := new MultiFieldSet.Of(included);
    }

    /** Emits the rules of n and leaves the working match as it was. A single flow's rule replaces
        whatever stands under its key. */
    method Visit(n: Node)
      requires matching.Valid()
      requires WellMasked(n, matching.elements)
      requires n.FlowNode?
               || (DistinctKeys(n, matching.elements, alive) && NoClash(backend.table, n, matching.elements, alive))
      modifies backend, matching
      ensures matching.Valid() && matching.elements == old(matching.elements)
      ensures NoClash(old(backend.table), n, matching.elements, alive) ==>
              AddsRules(old(backend.table), backend.table, n, matching.elements, alive)
      ensures n.FlowNode? ==>
        backend.table == if n.flow in alive
          then FlowTables.Install(old(backend.table), Rule(n.prio, Elements(matching.elements), Forward(n.flow)))
                         else old(backend.table)
      decreases n, 1
    {
      ghost var ctx, t0 := matching.elements, backend.table;
      match n
      case Unexplored =>
      case FlowNode(flow, prio) =>
        if flow in alive {
          ghost var rule := Rule(prio, Elements(ctx), Forward(flow));
          assert Emits(n, ctx, rule, alive);
          backend.Install(prio, matching, flow);
        }
      case TestNode(need, positive, negative, _, prio) =>
        AddedUnseen(ctx, need);
        Visit(negative);
        ghost var t1 := backend.table;
        matching.Add(need);
        ghost var barrier := Rule(prio, Elements(ctx + [need]), ToController);
        assert Emits(n, ctx, barrier, alive);
        StillNoClash(t0, t1, negative, ctx, n, ctx, n, ctx, alive);
        backend.BarrierRule(prio, matching);
        ghost var t2 := backend.table;
        BarrierStep(t0, t1, n, ctx, alive);
        Visit(positive);
        forall rule ensures Holds(backend.table, rule) <==> Holds(t0, rule) || Emits(n, ctx, rule, alive) {
          InstallHolds(t1, barrier, rule);
        }
        matching.Erase(MaskOf(need));
      case LoadNode(mask, cases) =>
        VisitCases(n);
    }

    method VisitCases(n: Node)
      requires n.LoadNode? && matching.Valid()
      requires WellMasked(n, matching.elements)
      requires DistinctKeys(n, matching.elements, alive) && NoClash(backend.table, n, matching.elements, alive)
      modifies backend, matching
      ensures matching.Valid() && matching.elements == old(matching.elements)
      ensures AddsRules(old(backend.table), backend.table, n, matching.elements, alive)
      decreases n, 0
    {
      ghost var ctx, t0 := matching.elements, backend.table;
      var left := n.cases.Keys;
      while left != {}
        invariant left <= n.cases.Keys && matching.Valid() && matching.elements == ctx
        invariant forall rule :: Holds(backend.table, rule) <==>
                  Holds(t0, rule) || EmitsExcept(n, left, ctx, rule, alive)
        decreases |left|
      {
        var v :| v in left;
        var f := CaseField(n.mask, v);
        AddedUnseen(ctx, f);
        CaseNoClash(t0, backend.table, n, left, v, ctx, alive);
        matching.Add(f);
        Visit(n.cases[v]);
        matching.Erase(n.mask);
        CaseDone(n, left, v, ctx, alive);
        left := left - {v};
      }
    }
  }

  /** The rules of the cases already visited. */
  ghost predicate EmitsExcept(n: Node, left: set<Bits>, ctx: seq<Field>, rule: Rule, alive: set<FlowId>)
    requires n.LoadNode?
  {
    exists v :: v in n.cases && v !in left && Emits(n.cases[v], Added(ctx, CaseField(n.mask, v)), rule, alive)
  }

  lemma CaseDone(n: Node, left: set<Bits>, v: Bits, ctx: seq<Field>, alive: set<FlowId>)
    requires n.LoadNode? && v in left && left <= n.cases.Keys
    ensures forall rule :: EmitsExcept(n, left - {v}, ctx, rule, alive) <==>
              EmitsExcept(n, left, ctx, rule, alive) || Emits(n.cases[v], Added(ctx, CaseField(n.mask, v)), rule, alive)
  {
  }

  lemma CaseNoClash(t0: Table, t: Table, n: Node, left: set<Bits>, v: Bits, ctx: seq<Field>, alive: set<FlowId>)
    requires n.LoadNode? && v in left && left <= n.cases.Keys
    requires DistinctKeys(n, ctx, alive) && NoClash(t0, n, ctx, alive)
    requires forall rule :: Holds(t, rule) <==> Holds(t0, rule) || EmitsExcept(n, left, ctx, rule, alive)
    ensures var ctx' := Added(ctx, CaseField(n.mask, v));
            DistinctKeys(n.cases[v], ctx', alive) && NoClash(t, n.cases[v], ctx', alive)
  {
    var ctx' := Added(ctx, CaseField(n.mask, v));
    assert forall rule :: Emits(n.cases[v], ctx', rule, alive) ==> Emits(n, ctx, rule, alive);
    assert forall rule :: EmitsExcept(n, left, ctx, rule, alive) ==> Emits(n, ctx, rule, alive);
    forall a | Emits(n.cases[v], ctx', a, alive) && KeyOf(a) in t ensures Holds(t, a) {
      var b := RuleAt(t, KeyOf(a));
      assert Holds(t, b) && KeyOf(b) == KeyOf(a);
      if Holds(t0, b) {
        assert KeyOf(a) in t0;
      }
    }
  }

  lemma BarrierStep(t0: Table, t1: Table, n: Node, ctx: seq<Field>, alive: set<FlowId>)
    requires n.TestNode? && DistinctKeys(n, ctx, alive) && NoClash(t0, n, ctx, alive)
    requires AddsRules(t0, t1, n.negative, ctx, alive)
    ensures var ctx' := Added(ctx, n.need);
            var barrier := Rule(n.prio, Elements(ctx'), ToController);
            && NoClash(t1, n, ctx, alive)
            && DistinctKeys(n.positive, ctx', alive) && NoClash(Install(t1, barrier), n.positive, ctx', alive)
  {
    var ctx' := Added(ctx, n.need);
    var barrier := Rule(n.prio, Elements(ctx'), ToController);
    StillNoClash(t0, t1, n.negative, ctx, n, ctx, n, ctx, alive);
    assert Emits(n, ctx, barrier, alive);
    forall a | Emits(n.positive, ctx', a, alive) && KeyOf(a) in Install(t1, barrier)
      ensures Holds(Install(t1, barrier), a)
    {
      assert Emits(n, ctx, a, alive);
    }
  }

  // ---------- PriorityUpdater ----------

  datatype Scope = Scope(positive: nat, negative: nat)

  /** Every test of n has its two counts recorded. */
  ghost predicate Scoped(n: Node, depth: map<int, Scope>) {
    match n
    case Unexplored => true
    case FlowNode(_, _) => true
    case TestNode(_, positive, negative, id, _) =>
      && id in depth && depth[id] == Scope(Count(positive), Count(negative))
      && Scoped(positive, depth) && Scoped(negative, depth)
    case LoadNode(_, cases) => forall v :: v in cases ==> Scoped(cases[v], depth)
  }

  lemma {:induction false} ScopedFrame(n: Node, depth: map<int, Scope>, depth': map<int, Scope>)
    requires Scoped(n, depth) && forall i :: i in depth ==> i in depth' && depth'[i] == depth[i]
    ensures Scoped(n, depth')
  {
    match n
    case Unexplored =>
    case FlowNode(_, _) =>
    case TestNode(_, positive, negative, _, _) =>
      ScopedFrame(positive, depth, depth');
      ScopedFrame(negative, depth, depth');
    case LoadNode(_, cases) =>
      forall v | v in cases { ScopedFrame(cases[v], depth, depth'); }
  }

  class DepthCounter {
    var depth: map<int, Scope>

    constructor ()
      ensures depth == map[]
    {
      depth := map[];
    }

    ghost predicate Extends(oldDepth: map<int, Scope>)
      reads this
    {
      forall i :: i in oldDepth ==> i in depth && depth[i] == oldDepth[i]
    }

    method Visit(n: Node) returns (count: nat)
      requires UniqueIds(n) && forall i :: HasId(n, i) ==> i !in depth
      modifies this
      ensures count == Count(n) && Scoped(n, depth) && Extends(old(depth))
      ensures forall i :: i in depth <==> i in old(depth) || HasId(n, i)
      decreases n, 1
    {
      match n
      case Unexplored =>
        count := 1;
      case FlowNode(_, _) =>
        count := 1;
      case TestNode(_, positive, negative, id, _) =>
        assert forall i :: HasId(positive, i) || HasId(negative, i) || i == id ==> HasId(n, i);
        var pos := Visit(positive);
        ghost var mid := depth;
        var neg := Visit(negative);
        ghost var last := depth;
        if id !in depth {
          depth := depth[id := Scope(pos, neg)];
        }
        ScopedFrame(positive, mid, depth);
        ScopedFrame(negative, last, depth);
        count := pos + neg + 1;
      case LoadNode(_, _) =>
        count := VisitCases(n);
    }

    method VisitCases(n: Node) returns (count: nat)
      requires n.LoadNode? && UniqueIds(n) && forall i :: HasId(n, i) ==> i !in depth
      modifies this
      ensures count == Count(n) && Scoped(n, depth) && Extends(old(depth))
      ensures forall i :: i in depth <==> i in old(depth) || HasId(n, i)
      decreases n, 0
    {
      count := 0;
      var left := n.cases.Keys;
      ghost var seen: set<nat> := {};
      while left != {}
        invariant left <= n.cases.Keys && Extends(old(depth))
        invariant ScopedExcept(n, left, depth)
        invariant forall i :: i in depth <==> i in old(depth) || HasIdExcept(n, left, i)
        invariant count == MaxOf(seen) && seen == CountsExcept(n, left)
        decreases |left|
      {
        var v :| v in left;
        ghost var before := depth;
        CaseIds(n, left, v);
        var c := Visit(n.cases[v]);
        ScopedStep(n, left, v, before, depth);
        CountsStep(n, left, v);
        if c > count { count := c; }
        MaxStep(seen, c);
        seen := seen + {c};
        left := left - {v};
      }
      assert CountsExcept(n, {}) == set v | v in n.cases :: Count(n.cases[v]);
    }
  }

  ghost predicate ScopedExcept(n: Node, left: set<Bits>, depth: map<int, Scope>)
    requires n.LoadNode?
  {
    forall v :: v in n.cases && v !in left ==> Scoped(n.cases[v], depth)
  }

  ghost predicate HasIdExcept(n: Node, left: set<Bits>, i: int)
    requires n.LoadNode?
  {
    exists v :: v in n.cases && v !in left && HasId(n.cases[v], i)
  }

  ghost function CountsExcept(n: Node, left: set<Bits>): set<nat>
    requires n.LoadNode?
  {
    set v | v in n.cases && v !in left :: Count(n.cases[v])
  }

  lemma CaseIds(n: Node, left: set<Bits>, v: Bits)
    requires n.LoadNode? && UniqueIds(n) && v in left && left <= n.cases.Keys
    ensures UniqueIds(n.cases[v])
    ensures forall i :: HasId(n.cases[v], i) ==> HasId(n, i) && !HasIdExcept(n, left, i)
    ensures forall i :: HasIdExcept(n, left - {v}, i) <==> HasIdExcept(n, left, i) || HasId(n.cases[v], i)
  {
  }

  lemma ScopedStep(n: Node, left: set<Bits>, v: Bits, before: map<int, Scope>, depth: map<int, Scope>)
    requires n.LoadNode? && ScopedExcept(n, left, before) && v in n.cases && Scoped(n.cases[v], depth)
    requires forall i :: i in before ==> i in depth && depth[i] == before[i]
    ensures ScopedExcept(n, left - {v}, depth)
  {
    forall w | w in n.cases && w !in left { ScopedFrame(n.cases[w], before, depth); }
  }

  lemma CountsStep(n: Node, left: set<Bits>, v: Bits)
    requires n.LoadNode? && v in left && left <= n.cases.Keys
    ensures CountsExcept(n, left - {v}) == CountsExcept(n, left) + {Count(n.cases[v])}
  {
  }

  lemma MaxStep(s: set<nat>, x: nat)
    ensures MaxOf(s + {x}) == if x > MaxOf(s) then x else MaxOf(s)
  {
    var m := MaxOf(s + {x});
    assert x in s + {x};
    if s != {} {
      assert MaxOf(s) in s + {x};
    }
  }

  class PriorityAssigner {
    const depth: map<int, Scope>
    var from: real
    var to: real

    constructor (depth: map<int, Scope>, from: nat, to: nat)
      ensures this.depth == depth && this.from == from as real && this.to == to as real
    {
      this.depth := depth;
      this.from, this.to := from as real, to as real;
    }

    /** Gives n the priorities of Rebalanced over the current range, and restores the range. */
    method Visit(n: Node) returns (n': Node)
      requires NonEmptyLoads(n) && Scoped(n, depth) && 0.0 <= from <= to
      modifies this
      ensures from == old(from) && to == old(to)
      ensures n' == Rebalanced(n, from, to)
      decreases n, 1
    {
      match n
      case Unexplored =>
        n' := n;
      case FlowNode(flow, _) =>
        Split(from, to, 1, 1);
        n' := FlowNode(flow, Round(Average(from, to, 1, 1)));
      case TestNode(need, positive, negative, id, _) =>
        var oldFrom, oldTo := from, to;
        var d := depth[id];
        CountPositive(positive);
        Split(from, to, d.negative, d.positive);
        var thisPrio := Average(from, to, d.negative, d.positive);
        to := thisPrio;
        var negative' := Visit(negative);
        to := oldTo;
        from := thisPrio;
        var positive' := Visit(positive);
        from := oldFrom;
        n' := TestNode(need, positive', negative', id, Round(thisPrio));
      case LoadNode(_, _) =>
        n' := VisitCases(n);
    }

    method VisitCases(n: Node) returns (n': Node)
      requires n.LoadNode? && NonEmptyLoads(n) && Scoped(n, depth) && 0.0 <= from <= to
      modifies this
      ensures from == old(from) && to == old(to)
      ensures n' == Rebalanced(n, from, to)
      decreases n, 0
    {
      var cases := n.cases;
      var left := n.cases.Keys;
      while left != {}
        invariant left <= n.cases.Keys == cases.Keys && from == old(from) && to == old(to)
        invariant forall v :: v in n.cases ==>
                  cases[v] == if v in left then n.cases[v] else Rebalanced(n.cases[v], from, to)
        decreases |left|
      {
        var v :| v in left;
        var c := Visit(n.cases[v]);
        cases := cases[v := c];
        left := left - {v};
      }
      assert cases == map v | v in n.cases :: Rebalanced(n.cases[v], from, to);
      n' := LoadNode(n.mask, cases);
    }
  }
}
