/** Rebalancing without commit: rules installed before keep their old priorities. When the table is still
    that of the tree, and when the switch still forwards as the tree says. */
module StaleTables {
  import opened Oxm
  import opened FieldSets
  import P = Policies
  import opened Tracing
  import opened TraceTrees
  import opened Grafting
  import opened Priorities
  import opened Caching
  import opened FlowTables
  import opened Controllers
  import opened Retries

  // ---------- when rebalancing moves nothing ----------

  /** Every test and every living flow already has the priority that rebalancing would give it. */
  ghost predicate Balanced(n: Node, from: real, to: real, alive: set<FlowId>)
    requires NonEmptyLoads(n) && 0.0 <= from <= to
  {
    match n
    case Unexplored => true
    case FlowNode(flow, prio) => flow in alive ==> prio == Round(Average(from, to, 1, 1))
    case TestNode(_, positive, negative, _, prio) =>
      CountPositive(positive);
      var p := Average(from, to, Count(negative), Count(positive));
      Split(from, to, Count(negative), Count(positive));
      prio == Round(p) && Balanced(negative, from, p, alive) && Balanced(positive, p, to, alive)
    case LoadNode(_, cases) => forall v :: v in cases ==> Balanced(cases[v], from, to, alive)
  }

  /** No test and no living flow has changed its priority. */
  predicate SamePrios(a: Node, b: Node, alive: set<FlowId>)
    requires SameButPrios(a, b)
  {
    match a
    case Unexplored => true
    case FlowNode(flow, prio) => flow in alive ==> b.prio == prio
    case TestNode(_, positive, negative, _, prio) =>
      b.prio == prio && SamePrios(positive, b.positive, alive) && SamePrios(negative, b.negative, alive)
    case LoadNode(_, cases) => forall v :: v in cases ==> SamePrios(cases[v], b.cases[v], alive)
  }

  /** Negative subtree <= test <= positive subtree. */
  predicate WeaklyOrdered(n: Node, l: int, r: int) {
    match n
    case Unexplored => true
    case FlowNode(_, prio) => l <= prio <= r
    case TestNode(_, positive, negative, _, prio) =>
      l <= prio <= r && WeaklyOrdered(negative, l, prio) && WeaklyOrdered(positive, prio, r)
    case LoadNode(_, cases) => forall v :: v in cases ==> WeaklyOrdered(cases[v], l, r)
  }

  lemma RoundMonotone(x: real, y: real)
    requires x <= y
    ensures Round(x) <= Round(y)
  {
  }

  /** In any range, rebalancing orders all priorities weakly, and moves nothing exactly if the tree is balanced. */
  lemma {:induction false} RebalancedMoves(n: Node, from: real, to: real, alive: set<FlowId>)
    requires NonEmptyLoads(n) && 0.0 <= from <= to
    ensures var n' := Rebalanced(n, from, to);
            && SameButPrios(n, n') && WeaklyOrdered(n', Round(from), Round(to))
            && (SamePrios(n, n', alive) <==> Balanced(n, from, to, alive))
  {
    hide Average, Round;
    RebalancedSame(n, from, to);
    match n
    case Unexplored =>
    case FlowNode(_, _) =>
      Split(from, to, 1, 1);
      RoundMonotone(from, Average(from, to, 1, 1));
      RoundMonotone(Average(from, to, 1, 1), to);
    case TestNode(_, positive, negative, _, _) =>
      CountPositive(positive);
      var p := Average(from, to, Count(negative), Count(positive));
      Split(from, to, Count(negative), Count(positive));
      RoundMonotone(from, p);
      RoundMonotone(p, to);
      RebalancedMoves(negative, from, p, alive);
      RebalancedMoves(positive, p, to, alive);
    case LoadNode(_, cases) =>
      forall v | v in cases { RebalancedMoves(cases[v], from, to, alive); }
  }

  lemma {:induction false} SamePriosEmit(a: Node, b: Node, ctx: seq<Field>, rule: Rule, alive: set<FlowId>)
    requires SameButPrios(a, b) && SamePrios(a, b, alive)
    ensures Emits(a, ctx, rule, alive) <==> Emits(b, ctx, rule, alive)
  {
    hide Added;
    match a
    case Unexplored =>
    case FlowNode(_, _) =>
    case TestNode(need, positive, negative, _, _) =>
      SamePriosEmit(positive, b.positive, Added(ctx, need), rule, alive);
      SamePriosEmit(negative, b.negative, ctx, rule, alive);
    case LoadNode(mask, cases) =>
      forall v | v in cases
        ensures Emits(cases[v], Added(ctx, CaseField(mask, v)), rule, alive) <==>
                Emits(b.cases[v], Added(ctx, CaseField(mask, v)), rule, alive)
      {
        SamePriosEmit(cases[v], b.cases[v], Added(ctx, CaseField(mask, v)), rule, alive);
      }
  }

  lemma UnseenIsNew(ctx: seq<Field>, f: Field)
    requires Unseen(ctx, f)
    ensures f !in Elements(ctx)
  {
  }

  /** A barrier rule asks for more than the context. */
  lemma {:induction false} BarrierAdds(n: Node, ctx: seq<Field>, rule: Rule, alive: set<FlowId>)
    requires WellMasked(n, ctx) && Emits(n, ctx, rule, alive) && rule.action.ToController?
    ensures rule.pattern != Elements(ctx)
  {
    hide Added, Unseen;
    match n
    case Unexplored =>
    case FlowNode(_, _) =>
    case TestNode(need, positive, negative, _, _) =>
      AddedUnseen(ctx, need);
      UnseenIsNew(ctx, need);
      if Emits(negative, ctx, rule, alive) {
        BarrierAdds(negative, ctx, rule, alive);
      } else if Emits(positive, ctx + [need], rule, alive) {
        EmittedPattern(positive, ctx + [need], rule, alive);
        assert need in rule.pattern;
      } else {
        assert need in rule.pattern;
      }
    case LoadNode(mask, cases) =>
      var v :| v in cases && Emits(cases[v], Added(ctx, CaseField(mask, v)), rule, alive);
      AddedUnseen(ctx, CaseField(mask, v));
      UnseenIsNew(ctx, CaseField(mask, v));
      EmittedPattern(cases[v], ctx + [CaseField(mask, v)], rule, alive);
      assert CaseField(mask, v) in rule.pattern;
  }

  lemma {:induction false} EmittedWeakly(n: Node, ctx: seq<Field>, l: int, r: int, rule: Rule, alive: set<FlowId>)
    requires WeaklyOrdered(n, l, r) && Emits(n, ctx, rule, alive)
    ensures l <= rule.prio <= r
  {
    hide Added;
    match n
    case Unexplored =>
    case FlowNode(_, _) =>
    case TestNode(need, positive, negative, _, prio) =>
      if Emits(negative, ctx, rule, alive) {
        EmittedWeakly(negative, ctx, l, prio, rule, alive);
      } else if Emits(positive, Added(ctx, need), rule, alive) {
        EmittedWeakly(positive, Added(ctx, need), prio, r, rule, alive);
      }
    case LoadNode(mask, cases) =>
      var v :| v in cases && Emits(cases[v], Added(ctx, CaseField(mask, v)), rule, alive);
      EmittedWeakly(cases[v], Added(ctx, CaseField(mask, v)), l, r, rule, alive);
  }

  /** What a test emits is split by priority; ties aside, if it is only weakly ordered. */
  lemma TestSplit(n: Node, ctx: seq<Field>, l: int, r: int, rule: Rule, alive: set<FlowId>)
    requires n.TestNode? && WeaklyOrdered(n, l, r) && WellMasked(n, ctx) && Emits(n, ctx, rule, alive)
    ensures rule.prio > n.prio ==> Emits(n.positive, ctx + [n.need], rule, alive)
    ensures rule.prio < n.prio ==> Emits(n.negative, ctx, rule, alive)
    ensures rule.pattern == Elements(ctx + [n.need]) && rule.action.ToController? && rule.prio != n.prio ==>
            Emits(n.negative, ctx, rule, alive)
  {
    AddedUnseen(ctx, n.need);
    hide Added, Unseen;
    if Emits(n.positive, ctx + [n.need], rule, alive) {
      EmittedWeakly(n.positive, ctx + [n.need], n.prio, r, rule, alive);
      if rule.action.ToController? {
        BarrierAdds(n.positive, ctx + [n.need], rule, alive);
      }
    } else if Emits(n.negative, ctx, rule, alive) {
      EmittedWeakly(n.negative, ctx, l, n.prio, rule, alive);
    }
  }

  /** What a load emits is split by the value asked for. */
  lemma LoadSplit(n: Node, ctx: seq<Field>, v: Bits, rule: Rule, alive: set<FlowId>)
    requires n.LoadNode? && v in n.cases && WellMasked(n, ctx) && !Conflict(Elements(ctx), Elements(ctx))
    ensures var f := CaseField(n.mask, v);
            Emits(n.cases[v], ctx + [f], rule, alive) <==> Emits(n, ctx, rule, alive) && f in rule.pattern
  {
    hide Added, Unseen;
    var f := CaseField(n.mask, v);
    AddedUnseen(ctx, f);
    if Emits(n.cases[v], ctx + [f], rule, alive) {
      EmittedPattern(n.cases[v], ctx + [f], rule, alive);
    }
    if Emits(n, ctx, rule, alive) && f in rule.pattern {
      var w :| w in n.cases && Emits(n.cases[w], Added(ctx, CaseField(n.mask, w)), rule, alive);
      var g := CaseField(n.mask, w);
      AddedUnseen(ctx, g);
      EmittedPattern(n.cases[w], ctx + [g], rule, alive);
      NoSelfConflict(n, ctx, rule, alive);
      assert v * n.mask.bits == v && w * n.mask.bits == w;
      assert g in rule.pattern && f.mask == g.mask && f.t == g.t;
    }
  }

  /** All rules of a are rules of b. */
  ghost predicate RulesWithin(a: Node, b: Node, ctx: seq<Field>, alive: set<FlowId>) {
    forall rule :: Emits(a, ctx, rule, alive) ==> Emits(b, ctx, rule, alive)
  }

  /** The negative rules of a, and its barrier, unless the tests agree, come from the negative side of b. */
  lemma NegativeWithin(a: Node, b: Node, ctx: seq<Field>, l: int, r: int, l': int, r': int, alive: set<FlowId>)
    requires a.TestNode? && SameButPrios(a, b) && PrioOrdered(a, l, r) && WeaklyOrdered(b, l', r')
    requires WellMasked(a, ctx) && WellMasked(b, ctx) && RulesWithin(a, b, ctx, alive)
    ensures a.prio <= b.prio && RulesWithin(a.negative, b.negative, ctx, alive)
    ensures a.prio != b.prio ==> Emits(b.negative, ctx, Rule(a.prio, Elements(ctx + [a.need]), ToController), alive)
  {
    hide WellMasked, PrioOrdered, WeaklyOrdered;
    var barrier := Rule(a.prio, Elements(ctx + [a.need]), ToController);
    OwnBarrier(a, ctx, l, r, alive);
    TestSplit(b, ctx, l', r', barrier, alive);
    if a.prio != b.prio {
      NegativeBelow(b, ctx, l', r', barrier, alive);
    }
    forall rule | Emits(a.negative, ctx, rule, alive) ensures Emits(b.negative, ctx, rule, alive) {
      NegativeEmits(a, ctx, l, r, rule, alive);
      TestSplit(b, ctx, l', r', rule, alive);
    }
  }

  lemma OwnBarrier(n: Node, ctx: seq<Field>, l: int, r: int, alive: set<FlowId>)
    requires n.TestNode? && WellMasked(n, ctx)
    ensures Emits(n, ctx, Rule(n.prio, Elements(ctx + [n.need]), ToController), alive)
  {
    AddedUnseen(ctx, n.need);
  }

  lemma NegativeBelow(n: Node, ctx: seq<Field>, l: int, r: int, rule: Rule, alive: set<FlowId>)
    requires n.TestNode? && WeaklyOrdered(n, l, r) && Emits(n.negative, ctx, rule, alive)
    ensures rule.prio <= n.prio
  {
    EmittedWeakly(n.negative, ctx, l, n.prio, rule, alive);
  }

  lemma NegativeEmits(n: Node, ctx: seq<Field>, l: int, r: int, rule: Rule, alive: set<FlowId>)
    requires n.TestNode? && PrioOrdered(n, l, r) && Emits(n.negative, ctx, rule, alive)
    ensures Emits(n, ctx, rule, alive) && rule.prio < n.prio
  {
    EmittedPrio(n.negative, ctx, l, n.prio, rule, alive);
  }

  lemma PositiveEmits(n: Node, ctx: seq<Field>, l: int, r: int, rule: Rule, alive: set<FlowId>)
    requires n.TestNode? && PrioOrdered(n, l, r) && WellMasked(n, ctx) && Emits(n.positive, ctx + [n.need], rule, alive)
    ensures Emits(n, ctx, rule, alive) && rule.prio > n.prio
  {
    AddedUnseen(ctx, n.need);
    hide Added, Unseen;
    EmittedPrio(n.positive, ctx + [n.need], n.prio, r, rule, alive);
  }

  /** If all rules of a strictly ordered tree are rules of a weakly ordered one of the same shape, both have
      the same priorities at tests and living flows. */
  lemma {:induction false} RulesFixPrios(a: Node, b: Node, ctx: seq<Field>, l: int, r: int, l': int, r': int,
                                         alive: set<FlowId>)
    requires SameButPrios(a, b) && PrioOrdered(a, l, r) && WeaklyOrdered(b, l', r')
    requires WellMasked(a, ctx) && WellMasked(b, ctx) && !Conflict(Elements(ctx), Elements(ctx))
    requires RulesWithin(a, b, ctx, alive)
    ensures SamePrios(a, b, alive)
  {
    hide Unseen, Conflict;
    match a
    case Unexplored =>
    case FlowNode(flow, prio) =>
      if flow in alive {
        assert Emits(a, ctx, Rule(prio, Elements(ctx), Forward(flow)), alive);
      }
    case TestNode(need, positive, negative, _, prio) =>
      NegativeWithin(a, b, ctx, l, r, l', r', alive);
      RulesFixPrios(negative, b.negative, ctx, l, prio, l', b.prio, alive);
      if prio != b.prio {
        SamePriosEmit(negative, b.negative, ctx, Rule(prio, Elements(ctx + [need]), ToController), alive);
        NegativeEmits(a, ctx, l, r, Rule(prio, Elements(ctx + [need]), ToController), alive);
      }
      forall rule | Emits(positive, ctx + [need], rule, alive) ensures Emits(b.positive, ctx + [need], rule, alive) {
        PositiveEmits(a, ctx, l, r, rule, alive);
        TestSplit(b, ctx, l', r', rule, alive);
      }
      UnseenNoConflict(ctx, need);
      RulesFixPrios(positive, b.positive, ctx + [need], prio, r, b.prio, r', alive);
    case LoadNode(mask, cases) =>
      forall v | v in cases ensures SamePrios(cases[v], b.cases[v], alive) {
        var f := CaseField(mask, v);
        forall rule | Emits(cases[v], ctx + [f], rule, alive) ensures Emits(b.cases[v], ctx + [f], rule, alive) {
          LoadSplit(a, ctx, v, rule, alive);
          LoadSplit(b, ctx, v, rule, alive);
        }
        UnseenNoConflict(ctx, f);
        RulesFixPrios(cases[v], b.cases[v], ctx + [f], l, r, l', r', alive);
      }
  }

  /** A complete table is still that of the tree after rebalancing without commit, in any range, exactly
      if the tree was balanced before. */
  lemma UpdateExact(policy: P.Policy, c: Controller)
    requires Sound(policy, c) && TableIs(c.table, c.root, c.flows.Keys)
    ensures TableIs(c.table, Updated(c).root, c.flows.Keys) <==>
            Balanced(c.root, c.left as real, c.right as real, c.flows.Keys)
    ensures CanRebalance(c) && Balanced(c.root, c.left as real, c.right as real, c.flows.Keys) ==>
            Sound(policy, Updated(c))
  {
    var c', alive := Updated(c), c.flows.Keys;
    RebalancedMoves(c.root, c.left as real, c.right as real, alive);
    UpdatedCaches(policy, c);
    hide Emits, Lookup, Rebalanced, SamePrios, SameButPrios, RulesWithin, HasFlow, HasId, Balanced, WeaklyOrdered,
         Round;
    SameTableRules(c.table, c.root, c'.root, alive);
    assert Elements([]) == {} && !Conflict({}, {});
    SameRulesExact(c.root, c'.root, c.left, c.right, Round(c.left as real), Round(c.right as real), alive);
    if CanRebalance(c) && SamePrios(c.root, c'.root, alive) {
      CommittedSound(policy, c, c');
    }
  }

  lemma SameTableRules(t: Table, a: Node, b: Node, alive: set<FlowId>)
    requires TableIs(t, a, alive)
    ensures TableIs(t, b, alive) <==> RulesWithin(a, b, [], alive) && RulesWithin(b, a, [], alive)
  {
    hide Emits, Holds;
    if RulesWithin(a, b, [], alive) && RulesWithin(b, a, [], alive) {
      forall rule ensures Holds(t, rule) <==> Emits(b, [], rule, alive) {
        assert Holds(t, rule) <==> Emits(a, [], rule, alive);
      }
    }
    if TableIs(t, b, alive) {
      forall rule ensures Emits(a, [], rule, alive) <==> Emits(b, [], rule, alive) {
        assert Holds(t, rule) <==> Emits(a, [], rule, alive);
      }
    }
  }

  lemma SameRulesExact(a: Node, b: Node, l: int, r: int, l': int, r': int, alive: set<FlowId>)
    requires SameButPrios(a, b) && PrioOrdered(a, l, r) && WeaklyOrdered(b, l', r') && WellMasked(a, [])
             && WellMasked(b, [])
    ensures RulesWithin(a, b, [], alive) && RulesWithin(b, a, [], alive) <==> SamePrios(a, b, alive)
  {
    hide Emits;
    if SamePrios(a, b, alive) {
      forall rule ensures Emits(a, [], rule, alive) <==> Emits(b, [], rule, alive) {
        SamePriosEmit(a, b, [], rule, alive);
      }
    }
    if RulesWithin(a, b, [], alive) {
      RulesFixPrios(a, b, [], l, r, l', r', alive);
    }
  }
}
