/** The switch between rebalancing and commit: its table mixes rules of old and new priorities. It still
    forwards as the tree says exactly as long as barriers keep out of each flow rule the packets that
    belong elsewhere. */
module StaleSwitches {
  import opened Wrappers
  import opened Oxm
  import opened FieldSets
  import P = Policies
  import opened Tracing
  import opened TraceTrees
  import opened Grafting
  import opened Priorities
  import opened Caching
  import opened FlowTables
  import opened Paths
  import opened Controllers
  import opened Retries
  import opened StaleTables

  // ---------- leaves, and packets that pass them by ----------

  /** The flow f has a leaf whose match is the given pattern. */
  ghost predicate Leaf(n: Node, ctx: seq<Field>, pattern: set<Field>, f: FlowId) {
    match n
    case Unexplored => false
    case FlowNode(flow, _) => flow == f && pattern == Elements(ctx)
    case TestNode(need, positive, negative, _, _) =>
      Leaf(negative, ctx, pattern, f) || Leaf(positive, Added(ctx, need), pattern, f)
    case LoadNode(mask, cases) => exists v :: v in cases && Leaf(cases[v], Added(ctx, CaseField(mask, v)), pattern, f)
  }

  /** Such a leaf lies on the negative side of a test whose barrier rule has the given match. */
  ghost predicate Under(n: Node, ctx: seq<Field>, pattern: set<Field>, f: FlowId, barrier: set<Field>) {
    match n
    case Unexplored => false
    case FlowNode(_, _) => false
    case TestNode(need, positive, negative, _, _) =>
      || (barrier == Elements(Added(ctx, need)) && Leaf(negative, ctx, pattern, f))
      || Under(negative, ctx, pattern, f, barrier) || Under(positive, Added(ctx, need), pattern, f, barrier)
    case LoadNode(mask, cases) => exists v ::
      v in cases && Under(cases[v], Added(ctx, CaseField(mask, v)), pattern, f, barrier)
  }

  /** The packet passes such a test. */
  ghost predicate Beside(n: Node, ctx: seq<Field>, pattern: set<Field>, f: FlowId, q: Packet) {
    exists barrier :: Under(n, ctx, pattern, f, barrier) && HitsAll(q, barrier)
  }

  lemma {:induction false} LeafIsRule(n: Node, ctx: seq<Field>, pattern: set<Field>, f: FlowId, alive: set<FlowId>)
    requires f in alive
    ensures Leaf(n, ctx, pattern, f) <==> exists prio :: Emits(n, ctx, Rule(prio, pattern, Forward(f)), alive)
  {
    hide Added;
    match n
    case Unexplored =>
    case FlowNode(flow, prio) =>
      if Leaf(n, ctx, pattern, f) { assert Emits(n, ctx, Rule(prio, pattern, Forward(f)), alive); }
    case TestNode(need, positive, negative, _, _) =>
      LeafIsRule(negative, ctx, pattern, f, alive);
      LeafIsRule(positive, Added(ctx, need), pattern, f, alive);
      if Leaf(negative, ctx, pattern, f) {
        var prio :| Emits(negative, ctx, Rule(prio, pattern, Forward(f)), alive);
        assert Emits(n, ctx, Rule(prio, pattern, Forward(f)), alive);
      } else if Leaf(positive, Added(ctx, need), pattern, f) {
        var prio :| Emits(positive, Added(ctx, need), Rule(prio, pattern, Forward(f)), alive);
        assert Emits(n, ctx, Rule(prio, pattern, Forward(f)), alive);
      }
    case LoadNode(mask, cases) =>
      forall v | v in cases { LeafIsRule(cases[v], Added(ctx, CaseField(mask, v)), pattern, f, alive); }
      if Leaf(n, ctx, pattern, f) {
        var v :| v in cases && Leaf(cases[v], Added(ctx, CaseField(mask, v)), pattern, f);
        var prio :| Emits(cases[v], Added(ctx, CaseField(mask, v)), Rule(prio, pattern, Forward(f)), alive);
        assert Emits(n, ctx, Rule(prio, pattern, Forward(f)), alive);
      }
  }

  lemma {:induction false} LeafPattern(n: Node, ctx: seq<Field>, pattern: set<Field>, f: FlowId)
    requires WellMasked(n, ctx) && Leaf(n, ctx, pattern, f)
    ensures Elements(ctx) <= pattern && HasFlow(n, f)
  {
    LeafIsRule(n, ctx, pattern, f, {f});
    var prio :| Emits(n, ctx, Rule(prio, pattern, Forward(f)), {f});
    EmittedPattern(n, ctx, Rule(prio, pattern, Forward(f)), {f});
    EmittedFlow(n, ctx, Rule(prio, pattern, Forward(f)), {f});
  }

  lemma {:induction false} EmittedFlow(n: Node, ctx: seq<Field>, rule: Rule, alive: set<FlowId>)
    requires Emits(n, ctx, rule, alive) && rule.action.Forward?
    ensures HasFlow(n, rule.action.flow)
  {
    hide Added;
    match n
    case Unexplored =>
    case FlowNode(_, _) =>
    case TestNode(need, positive, negative, _, _) =>
      if Emits(negative, ctx, rule, alive) {
        EmittedFlow(negative, ctx, rule, alive);
      } else {
        EmittedFlow(positive, Added(ctx, need), rule, alive);
      }
    case LoadNode(mask, cases) =>
      var v :| v in cases && Emits(cases[v], Added(ctx, CaseField(mask, v)), rule, alive);
      EmittedFlow(cases[v], Added(ctx, CaseField(mask, v)), rule, alive);
  }

  /** Rebalancing moves no leaf. */
  lemma {:induction false} SameLeaf(a: Node, b: Node, ctx: seq<Field>, pattern: set<Field>, f: FlowId)
    requires SameButPrios(a, b)
    ensures Leaf(a, ctx, pattern, f) <==> Leaf(b, ctx, pattern, f)
  {
    hide Added;
    match a
    case Unexplored =>
    case FlowNode(_, _) =>
    case TestNode(need, positive, negative, _, _) =>
      SameLeaf(negative, b.negative, ctx, pattern, f);
      SameLeaf(positive, b.positive, Added(ctx, need), pattern, f);
    case LoadNode(mask, cases) =>
      forall v | v in cases { SameLeaf(cases[v], b.cases[v], Added(ctx, CaseField(mask, v)), pattern, f); }
      assert forall v :: v in cases <==> v in b.cases;
  }

  /** A packet that matches a leaf reaches it, or passes a test on whose negative side it lies. */
  lemma {:induction false} LeafOrBeside(n: Node, ctx: seq<Field>, pattern: set<Field>, f: FlowId, q: Packet,
                                        alive: set<FlowId>)
    requires WellMasked(n, ctx) && Leaf(n, ctx, pattern, f) && f in alive && HitsAll(q, pattern)
    requires Lookup(n, q, alive) != OutOfRange
    ensures Lookup(n, q, alive) == Hit(f) || Beside(n, ctx, pattern, f, q)
  {
    hide Added, Unseen;
    match n
    case Unexplored =>
    case FlowNode(_, _) =>
    case TestNode(need, positive, negative, _, _) =>
      AddedUnseen(ctx, need);
      if Leaf(negative, ctx, pattern, f) {
        LeafPattern(negative, ctx, pattern, f);
        if Hits(q, need) {
          assert HitsAll(q, Elements(ctx + [need]));
          assert Under(n, ctx, pattern, f, Elements(ctx + [need]));
        } else {
          LeafOrBeside(negative, ctx, pattern, f, q, alive);
          if barrier :| Under(negative, ctx, pattern, f, barrier) && HitsAll(q, barrier) {
            assert Under(n, ctx, pattern, f, barrier);
          }
        }
      } else {
        LeafPattern(positive, ctx + [need], pattern, f);
        assert need in pattern;
        LeafOrBeside(positive, ctx + [need], pattern, f, q, alive);
        if barrier :| Under(positive, ctx + [need], pattern, f, barrier) && HitsAll(q, barrier) {
          assert Under(n, ctx, pattern, f, barrier);
        }
      }
    case LoadNode(mask, cases) =>
      var v :| v in cases && Leaf(cases[v], Added(ctx, CaseField(mask, v)), pattern, f);
      AddedUnseen(ctx, CaseField(mask, v));
      LeafPattern(cases[v], ctx + [CaseField(mask, v)], pattern, f);
      assert CaseField(mask, v) in pattern && v * mask.bits == v;
      assert LoadBits(q, mask).value == v;
      LeafOrBeside(cases[v], ctx + [CaseField(mask, v)], pattern, f, q, alive);
      if barrier :| Under(cases[v], ctx + [CaseField(mask, v)], pattern, f, barrier) && HitsAll(q, barrier) {
        assert Under(n, ctx, pattern, f, barrier);
      }
  }

  lemma {:induction false} UnderHas(n: Node, ctx: seq<Field>, pattern: set<Field>, f: FlowId, barrier: set<Field>)
    requires WellMasked(n, ctx) && Under(n, ctx, pattern, f, barrier)
    ensures HasFlow(n, f) && Elements(ctx) <= barrier
  {
    hide Added, Unseen;
    match n
    case TestNode(need, positive, negative, _, _) =>
      AddedUnseen(ctx, need);
      if Under(negative, ctx, pattern, f, barrier) {
        UnderHas(negative, ctx, pattern, f, barrier);
      } else if Under(positive, ctx + [need], pattern, f, barrier) {
        UnderHas(positive, ctx + [need], pattern, f, barrier);
      } else {
        LeafPattern(negative, ctx, pattern, f);
      }
    case LoadNode(mask, cases) =>
      var v :| v in cases && Under(cases[v], Added(ctx, CaseField(mask, v)), pattern, f, barrier);
      AddedUnseen(ctx, CaseField(mask, v));
      UnderHas(cases[v], ctx + [CaseField(mask, v)], pattern, f, barrier);
  }

  /** A packet that passes such a test does not reach the flow. */
  lemma {:induction false} BesideMisses(n: Node, ctx: seq<Field>, pattern: set<Field>, f: FlowId, barrier: set<Field>,
                                        q: Packet, alive: set<FlowId>)
    requires WellMasked(n, ctx) && UniqueFlows(n) && Under(n, ctx, pattern, f, barrier) && HitsAll(q, barrier)
    ensures Lookup(n, q, alive) != Hit(f)
  {
    hide Added, Unseen;
    if n.TestNode? {
      AddedUnseen(ctx, n.need);
      assert n.need in Elements(ctx + [n.need]);
    }
    if Lookup(n, q, alive) == Hit(f) {
      match n
      case TestNode(need, positive, negative, _, _) =>
        if Hits(q, need) { LookupHas(positive, q, alive); } else { LookupHas(negative, q, alive); }
        if Under(negative, ctx, pattern, f, barrier) {
          UnderHas(negative, ctx, pattern, f, barrier);
          BesideMisses(negative, ctx, pattern, f, barrier, q, alive);
        } else if Under(positive, ctx + [need], pattern, f, barrier) {
          UnderHas(positive, ctx + [need], pattern, f, barrier);
          BesideMisses(positive, ctx + [need], pattern, f, barrier, q, alive);
        } else {
          LeafPattern(negative, ctx, pattern, f);
        }
      case LoadNode(mask, cases) =>
        var v :| v in cases && Under(cases[v], Added(ctx, CaseField(mask, v)), pattern, f, barrier);
        AddedUnseen(ctx, CaseField(mask, v));
        UnderHas(cases[v], ctx + [CaseField(mask, v)], pattern, f, barrier);
        LookupHas(cases[LoadBits(q, mask).value], q, alive);
        BesideMisses(cases[v], ctx + [CaseField(mask, v)], pattern, f, barrier, q, alive);
    }
  }

  // ---------- when the switch forwards as the tree says ----------

  /** Each flow rule of the table has its leaf in the tree; its priority may be an old one. */
  ghost predicate Placed(c: Controller) {
    forall k :: k in c.table && c.table[k].Forward? ==>
      c.table[k].flow in c.flows && Leaf(c.root, [], k.pattern, c.table[k].flow)
  }

  /** What is left of a table when some of its flow rules have idled out. */
  ghost predicate Idled(t: Table, t': Table) {
    && (forall k :: k in t' ==> k in t && t'[k] == t[k])
    && (forall k :: k in t && t[k].ToController? ==> k in t')
  }

  /** Whatever flow rules idle out, a flow rule wins only packets for which lookup finds its flow. */
  ghost predicate ForwardsAsTree(c: Controller) {
    forall t: Table, q: Packet, k ::
      Idled(c.table, t) && Wins(t, q, k, HitsAll) && t[k].Forward? && Lookup(c.root, q, c.flows.Keys) != OutOfRange ==>
      Lookup(c.root, q, c.flows.Keys) == Hit(t[k].flow)
  }

  /** Some barrier that the packet matches stands at p or above. */
  ghost predicate Stopped(t: Table, q: Packet, p: int) {
    exists b :: b in t && t[b].ToController? && HitsAll(q, b.pattern) && b.prio >= p
  }

  /** The packets that match the flow rule k and pass a test on whose negative side its leaf lies are
      stopped by barriers. */
  ghost predicate Guards(c: Controller, k: Key)
    requires k in c.table && c.table[k].Forward?
  {
    forall q: Packet ::
      HitsAll(q, k.pattern) && Beside(c.root, [], k.pattern, c.table[k].flow, q)
        && Lookup(c.root, q, c.flows.Keys) != OutOfRange ==>
      Stopped(c.table, q, k.prio)
  }

  ghost predicate Shaped(n: Node) {
    WellMasked(n, []) && UniqueFlows(n)
  }

  ghost predicate Guarding(c: Controller) {
    forall k :: k in c.table && c.table[k].Forward? ==> Guards(c, k)
  }

  /** The table with k as its one flow rule. */
  function Alone(t: Table, k: Key): Table {
    map j | j in t && (t[j].ToController? || j == k) :: t[j]
  }

  /** The switch forwards as the tree says exactly if barriers keep out of each flow rule the packets that
      do not belong to its flow. */
  ghost predicate KeepsOut(c: Controller, k: Key)
    requires k in c.table && c.table[k].Forward?
  {
    forall q: Packet :: HitsAll(q, k.pattern) && Elsewhere(c, c.table[k].flow, q) ==> Stopped(c.table, q, k.prio)
  }

  /** Lookup has an answer for the packet, and not this flow. */
  ghost predicate Elsewhere(c: Controller, f: FlowId, q: Packet) {
    Lookup(c.root, q, c.flows.Keys) != OutOfRange && Lookup(c.root, q, c.flows.Keys) != Hit(f)
  }

  lemma ForwardsExact(c: Controller)
    ensures ForwardsAsTree(c) <==> forall k :: k in c.table && c.table[k].Forward? ==> KeepsOut(c, k)
  {
    hide HitsAll, Lookup;
    if ForwardsAsTree(c) {
      forall k, q: Packet | k in c.table && c.table[k].Forward? && HitsAll(q, k.pattern)
        && Elsewhere(c, c.table[k].flow, q)
        ensures Stopped(c.table, q, k.prio)
      {
        assert Idled(c.table, Alone(c.table, k)) && !Wins(Alone(c.table, k), q, k, HitsAll);
      }
    } else {
      var t: Table, q: Packet, k :|
        && Idled(c.table, t) && Wins(t, q, k, HitsAll) && t[k].Forward? && Lookup(c.root, q, c.flows.Keys) != OutOfRange
        && Lookup(c.root, q, c.flows.Keys) != Hit(t[k].flow);
      assert Elsewhere(c, c.table[k].flow, q) && !Stopped(c.table, q, k.prio);
    }
  }

  /** What belongs elsewhere passes a test on whose negative side the rule's leaf lies. */
  lemma ElsewhereIsBeside(c: Controller, k: Key, q: Packet)
    requires Shaped(c.root) && Placed(c) && k in c.table && c.table[k].Forward? && HitsAll(q, k.pattern)
    ensures Elsewhere(c, c.table[k].flow, q) <==>
            Beside(c.root, [], k.pattern, c.table[k].flow, q) && Lookup(c.root, q, c.flows.Keys) != OutOfRange
  {
    hide Leaf, Under, HitsAll, Lookup, UniqueFlows, WellMasked;
    var f := c.table[k].flow;
    if barrier :| Under(c.root, [], k.pattern, f, barrier) && HitsAll(q, barrier) {
      BesideMisses(c.root, [], k.pattern, f, barrier, q, c.flows.Keys);
    }
    if Elsewhere(c, f, q) {
      LeafOrBeside(c.root, [], k.pattern, f, q, c.flows.Keys);
    }
  }

  /** With rules of old and new priorities side by side, the switch forwards as the tree says exactly if
      every flow rule is guarded. */
  lemma StaleExact(c: Controller)
    requires Shaped(c.root) && Placed(c)
    ensures ForwardsAsTree(c) <==> Guarding(c)
  {
    hide Leaf, Beside, HitsAll, Lookup, Shaped, Placed, Elsewhere, Stopped;
    ForwardsExact(c);
    forall k | k in c.table && c.table[k].Forward? ensures KeepsOut(c, k) <==> Guards(c, k) {
      forall q: Packet | HitsAll(q, k.pattern)
        ensures Elsewhere(c, c.table[k].flow, q) <==>
                Beside(c.root, [], k.pattern, c.table[k].flow, q) && Lookup(c.root, q, c.flows.Keys) != OutOfRange
      {
        ElsewhereIsBeside(c, k, q);
      }
    }
  }

  lemma GuardedWinner(c: Controller, q: Packet, k: Key)
    requires Shaped(c.root) && Placed(c) && Wins(c.table, q, k, HitsAll) && c.table[k].Forward? && Guards(c, k)
    requires Lookup(c.root, q, c.flows.Keys) != OutOfRange
    ensures Lookup(c.root, q, c.flows.Keys) == Hit(c.table[k].flow)
  {
    hide Leaf, Beside, HitsAll, Lookup, Shaped;
    ElsewhereIsBeside(c, k, q);
    assert !Stopped(c.table, q, k.prio);
  }

  // ---------- from priorities alone ----------

  /** No two of the fields contradict each other. */
  predicate Overlap(a: set<Field>, b: set<Field>) {
    forall f, g :: f in a && g in b && f.t == g.t ==> Compatible(f, g)
  }

  lemma HitsOverlap(a: set<Field>, b: set<Field>, q: Packet)
    requires HitsAll(q, a) && HitsAll(q, b)
    ensures Overlap(a, b)
  {
    forall f, g | f in a && g in b && f.t == g.t ensures Compatible(f, g) {
      assert Hits(q, f) && Hits(q, g);
      var v, m := q[f.t], f.mask * g.mask;
      assert f.value * m == (v * f.mask) * m == v * m && g.value * m == (v * g.mask) * m == v * m;
    }
  }

  /** The flow rule stands below the barrier of every test on whose negative side its leaf lies, as far
      as the two overlap; that is, they are ordered as in the tree. */
  ghost predicate OrderedAsTree(c: Controller, k: Key)
    requires k in c.table && c.table[k].Forward?
  {
    forall barrier :: Under(c.root, [], k.pattern, c.table[k].flow, barrier) && Overlap(k.pattern, barrier) ==>
      exists p: nat :: Key(p, barrier) in c.table && c.table[Key(p, barrier)].ToController? && p >= k.prio
  }

  lemma OrderedGuards(c: Controller, k: Key)
    requires k in c.table && c.table[k].Forward? && OrderedAsTree(c, k)
    ensures Guards(c, k)
  {
    hide Under, HitsAll, Lookup, Overlap;
    forall q: Packet | HitsAll(q, k.pattern) && Beside(c.root, [], k.pattern, c.table[k].flow, q)
      ensures Stopped(c.table, q, k.prio)
    {
      var barrier :| Under(c.root, [], k.pattern, c.table[k].flow, barrier) && HitsAll(q, barrier);
      HitsOverlap(k.pattern, barrier, q);
      var p: nat :| Key(p, barrier) in c.table && c.table[Key(p, barrier)].ToController? && p >= k.prio;
      assert HitsAll(q, Key(p, barrier).pattern);
    }
  }

  // ---------- what a push changes ----------

  /** c' is c after a trace has been grafted and its rules pushed, for a flow of c'. */
  ghost predicate PushedTo(c: Controller, c': Controller, es: seq<Event>, fin: Option<FlowId>) {
    var g := Graft(c.root, es, fin, c.left, c.right, [], c.nextId);
    && c.flows.Keys <= c'.flows.Keys && (fin.Some? ==> fin.value in c'.flows)
    && (forall f :: HasFlow(c.root, f) ==> (f in c.flows <==> f in c'.flows))
    && c'.root == g.node && c'.table == InstallAll(c.table, Pushed(g))
  }

  lemma LeafStays(c: Controller, c': Controller, es: seq<Event>, fin: Option<FlowId>, pattern: set<Field>, f: FlowId)
    requires PushedTo(c, c', es, fin) && Replaceable(c.root, es, fin, c'.flows.Keys)
    requires f in c'.flows && Leaf(c.root, [], pattern, f)
    ensures Leaf(c'.root, [], pattern, f)
  {
    hide Graft, Emits, Leaf, Replaceable;
    LeafIsRule(c.root, [], pattern, f, c'.flows.Keys);
    LeafIsRule(c'.root, [], pattern, f, c'.flows.Keys);
    var prio :| Emits(c.root, [], Rule(prio, pattern, Forward(f)), c'.flows.Keys);
    GraftEmits(c.root, es, fin, c.left, c.right, [], c.nextId, Rule(prio, pattern, Forward(f)), c'.flows.Keys);
  }

  /** t is what the table has become when the switch has refused some of the rules pushed. */
  ghost predicate Refusing(before: Table, after: Table, t: Table) {
    forall k :: k in t ==> (k in before && t[k] == before[k]) || (k in after && t[k] == after[k])
  }

  /** Wherever the trace goes that takes no other living flow's leaf, and whatever rules are refused. */
  lemma PushPlaced(c: Controller, c': Controller, es: seq<Event>, fin: Option<FlowId>, t: Table)
    requires Placed(c) && PushedTo(c, c', es, fin) && Replaceable(c.root, es, fin, c'.flows.Keys)
    requires Refusing(c.table, c'.table, t)
    ensures Placed(c'.(table := t))
  {
    hide Graft, Emits, Leaf, Replaceable, InstallAll;
    var g := Graft(c.root, es, fin, c.left, c.right, [], c.nextId);
    forall k | k in t && t[k].Forward? ensures t[k].flow in c'.flows && Leaf(c'.root, [], k.pattern, t[k].flow) {
      if k in c.table && c.table[k] == t[k] {
        LeafStays(c, c', es, fin, k.pattern, c.table[k].flow);
      } else {
        var rule := RuleAt(c'.table, k);
        InstalledFrom(c.table, Pushed(g), k);
        GraftEmits(c.root, es, fin, c.left, c.right, [], c.nextId, rule, c'.flows.Keys);
        EmittedAlive(c'.root, [], rule, c'.flows.Keys);
        LeafIsRule(c'.root, [], k.pattern, rule.action.flow, c'.flows.Keys);
      }
    }
  }

  /** Barriers keep the packets that are answered by the given flow out of the flow rule k. */
  ghost predicate Spares(c: Controller, k: Key, flow: FlowId) {
    forall q: Packet :: HitsAll(q, k.pattern) && Lookup(c.root, q, c.flows.Keys) == Hit(flow) ==>
      Stopped(c.table, q, k.prio)
  }

  /** The new flow rule gets its own packets only, and the old flow rules get none of them; this matters
      where the new rule has taken the place of a barrier. */
  ghost predicate FitsIn(c: Controller, rule: Rule)
    requires rule.action.Forward? && Holds(c.table, rule)
  {
    && KeepsOut(c, KeyOf(rule))
    && forall k :: k in c.table && c.table[k].Forward? && c.table[k] != rule.action ==> Spares(c, k, rule.action.flow)
  }

  lemma InstalledHeld(c: Controller, c': Controller, es: seq<Event>, fin: Option<FlowId>)
    requires PushedTo(c, c', es, fin) && Graft(c.root, es, fin, c.left, c.right, [], c.nextId).installed.Some?
    ensures var g := Graft(c.root, es, fin, c.left, c.right, [], c.nextId);
            fin.Some? && g.installed.value.action == Forward(fin.value) && Holds(c'.table, g.installed.value)
  {
    hide Graft, InstallAll;
    PushedActions(c.root, es, fin, c.left, c.right, [], c.nextId);
    var g := Graft(c.root, es, fin, c.left, c.right, [], c.nextId);
    InstallAllAppend(c.table, g.barriers, g.installed.value);
  }

  lemma OldElsewhere(c: Controller, c': Controller, es: seq<Event>, fin: Option<FlowId>, f: FlowId, q: Packet)
    requires PushedTo(c, c', es, fin) && Elsewhere(c', f, q)
    requires Graft(c.root, es, fin, c.left, c.right, [], c.nextId).installed.Some? && fin.Some? ==>
               Lookup(c'.root, q, c'.flows.Keys) != Hit(fin.value)
    ensures Elsewhere(c, f, q)
  {
    hide Graft, InstallAll, Lookup;
    LookupFrame(c.root, q, c.flows.Keys, c'.flows.Keys);
    if Lookup(c.root, q, c'.flows.Keys) != Miss {
      GraftTakesOver(c.root, es, fin, c.left, c.right, [], c.nextId, q, c'.flows.Keys);
    }
  }

  lemma PushedKey(c: Controller, c': Controller, es: seq<Event>, fin: Option<FlowId>, k: Key)
    requires PushedTo(c, c', es, fin) && k in c'.table
    ensures var g := Graft(c.root, es, fin, c.left, c.right, [], c.nextId);
            && (c'.table[k].Forward? ==>
                (k in c.table && c.table[k] == c'.table[k]) || (g.installed.Some? && k == KeyOf(g.installed.value)))
  {
    hide Graft, InstallAll;
    PushedActions(c.root, es, fin, c.left, c.right, [], c.nextId);
    InstalledFrom(c.table, Pushed(Graft(c.root, es, fin, c.left, c.right, [], c.nextId)), k);
  }

  lemma BarrierStays(c: Controller, c': Controller, es: seq<Event>, fin: Option<FlowId>, b: Key)
    requires PushedTo(c, c', es, fin) && b in c.table && c.table[b].ToController?
    ensures var g := Graft(c.root, es, fin, c.left, c.right, [], c.nextId);
            (b in c'.table && c'.table[b].ToController?) || (g.installed.Some? && b == KeyOf(g.installed.value))
  {
    hide Graft, InstallAll;
    PushedActions(c.root, es, fin, c.left, c.right, [], c.nextId);
    var g := Graft(c.root, es, fin, c.left, c.right, [], c.nextId);
    if !(g.installed.Some? && b == KeyOf(g.installed.value)) {
      InstalledOver(c.table, Pushed(g), b, ToController);
    }
  }

  lemma StillStopped(c: Controller, c': Controller, es: seq<Event>, fin: Option<FlowId>, k: Key, q: Packet)
    requires ForwardsAsTree(c) && PushedTo(c, c', es, fin)
    requires k in c'.table && c'.table[k].Forward? && HitsAll(q, k.pattern) && Elsewhere(c', c'.table[k].flow, q)
    requires var g := Graft(c.root, es, fin, c.left, c.right, [], c.nextId);
             g.installed.Some? ==>
               g.installed.value.action.Forward? && Holds(c'.table, g.installed.value) && FitsIn(c', g.installed.value)
    ensures Stopped(c'.table, q, k.prio)
  {
    hide Graft, InstallAll, Lookup, HitsAll, ForwardsAsTree, HasFlow;
    var g := Graft(c.root, es, fin, c.left, c.right, [], c.nextId);
    if g.installed.Some? { InstalledHeld(c, c', es, fin); }
    PushedKey(c, c', es, fin, k);
    if g.installed.Some? && k == KeyOf(g.installed.value) {
      assert KeepsOut(c', k);
    } else if g.installed.Some? && Lookup(c'.root, q, c'.flows.Keys) == Hit(fin.value) {
      assert Spares(c', k, fin.value);
    } else {
      ForwardsExact(c);
      OldElsewhere(c, c', es, fin, c'.table[k].flow, q);
      assert KeepsOut(c, k);
      var b :| b in c.table && c.table[b].ToController? && HitsAll(q, b.pattern) && b.prio >= k.prio;
      BarrierStays(c, c', es, fin, b);
      if g.installed.Some? && b == KeyOf(g.installed.value) {
        assert Elsewhere(c', fin.value, q) && KeepsOut(c', b);
      }
    }
  }

  /** A push keeps the switch forwarding as the tree says exactly if the flow rule that it installs fits in. */
  lemma PushExact(c: Controller, c': Controller, es: seq<Event>, fin: Option<FlowId>)
    requires ForwardsAsTree(c) && PushedTo(c, c', es, fin)
    ensures var g := Graft(c.root, es, fin, c.left, c.right, [], c.nextId);
            g.installed.Some? ==> g.installed.value.action.Forward? && Holds(c'.table, g.installed.value)
    ensures var g := Graft(c.root, es, fin, c.left, c.right, [], c.nextId);
            ForwardsAsTree(c') <==> (g.installed.Some? ==> FitsIn(c', g.installed.value))
  {
    hide Graft, InstallAll, Lookup, HitsAll, ForwardsAsTree, HasFlow;
    var g := Graft(c.root, es, fin, c.left, c.right, [], c.nextId);
    ForwardsExact(c);
    ForwardsExact(c');
    if g.installed.Some? { InstalledHeld(c, c', es, fin); }
    if ForwardsAsTree(c') && g.installed.Some? {
      assert KeepsOut(c', KeyOf(g.installed.value));
      forall k | k in c'.table && c'.table[k].Forward? && c'.table[k] != g.installed.value.action
        ensures Spares(c', k, fin.value)
      {
        assert KeepsOut(c', k);
      }
    }
    if g.installed.Some? ==> FitsIn(c', g.installed.value) {
      forall k, q: Packet | k in c'.table && c'.table[k].Forward? && HitsAll(q, k.pattern)
        && Elsewhere(c', c'.table[k].flow, q)
        ensures Stopped(c'.table, q, k.prio)
      {
        StillStopped(c, c', es, fin, k, q);
      }
    }
  }
  // ---------- the packet-in path on a switch in order ----------

  lemma SoundForwards(policy: P.Policy, c: Controller)
    requires Sound(policy, c)
    ensures ForwardsAsTree(c)
  {
    hide Agrees, Lookup, HitsAll, Emits, PrioOrdered, WellMasked, OneField, UniqueIds, UniqueFlows, NonEmptyLoads,
         SeparateTypes;
    forall t: Table, q: Packet, k |
      Idled(c.table, t) && Wins(t, q, k, HitsAll) && t[k].Forward? && Lookup(c.root, q, c.flows.Keys) != OutOfRange
      ensures Lookup(c.root, q, c.flows.Keys) == Hit(t[k].flow)
    {
      forall rule | Emits(c.root, [], rule, c.flows.Keys) && rule.action.ToController? ensures Holds(t, rule) {
        assert Holds(c.table, rule);
      }
      forall rule | Holds(t, rule) ensures Emits(c.root, [], rule, c.flows.Keys) {
        assert Holds(c.table, rule);
      }
      Dispatch(t, c.root, c.left, c.right, q, c.flows.Keys);
    }
  }

  /** The switch after the first attempt and rebalancing, before the second attempt. */
  ghost function Rebalancing(policy: P.Policy, c: Controller, pkt: Packet): Controller
    requires Caches(policy, c)
  {
    Updated(MissedC(policy, c, pkt))
  }

  ghost function SecondGraft(policy: P.Policy, c: Controller, pkt: Packet): Grafted
    requires Caches(policy, c)
  {
    var (last, mods) := LeftBehind(policy, c, pkt);
    GraftFrom(policy, Rebalancing(policy, c, pkt), last, mods, StartFlow(c, pkt))
  }

  /** A barrier of the tree before rebalancing, or of a test that the second attempt adds, that the packet
      matches stands at p or above, and not in the place of the new rule. */
  ghost predicate Shielded(policy: P.Policy, c: Controller, pkt: Packet, q: Packet, p: int)
    requires Caches(policy, c)
  {
    var c1, g := MissedC(policy, c, pkt), SecondGraft(policy, c, pkt);
    exists b: Rule ::
      && b.action.ToController? && (b in g.barriers || Emits(c1.root, [], b, c1.flows.Keys))
      && HitsAll(q, b.pattern) && b.prio >= p && (g.installed.Some? ==> KeyOf(b) != KeyOf(g.installed.value))
  }

  /** A rule of another flow that the second attempt leaves in the table. */
  predicate OldRule(t: Table, g: Grafted, k: Key) {
    && k in t && t[k].Forward? && (forall rule :: rule in Pushed(g) ==> KeyOf(rule) != k)
    && (g.installed.Some? ==> t[k] != g.installed.value.action)
  }

  /** Barriers shield the flow rule that the second attempt installs from the packets that belong elsewhere,
      and the old flow rules from the packets that now belong to it. */
  ghost predicate InOrder(policy: P.Policy, c: Controller, pkt: Packet)
    requires Caches(policy, c)
  {
    var c1, g, flow := MissedC(policy, c, pkt), SecondGraft(policy, c, pkt), StartFlow(c, pkt);
    g.installed.Some? ==>
      && (forall q: Packet ::
            var found := Lookup(g.node, q, c1.flows.Keys);
            HitsAll(q, g.installed.value.pattern) && found != OutOfRange && found != Hit(flow) ==>
            Shielded(policy, c, pkt, q, g.installed.value.prio))
      && (forall q: Packet, k: Key ::
            OldRule(c1.table, g, k) && HitsAll(q, k.pattern) && Lookup(g.node, q, c1.flows.Keys) == Hit(flow) ==>
            Shielded(policy, c, pkt, q, k.prio))
  }

  lemma SecondPush(policy: P.Policy, c: Controller, pkt: Packet)
    requires Sound(policy, c) && Missed(policy, c, pkt).1 == Exceeded
    ensures var c1, c2, c', g := MissedC(policy, c, pkt), Rebalancing(policy, c, pkt), Processed(policy, c, pkt).0,
            SecondGraft(policy, c, pkt);
            && Sound(policy, c1) && c2.table == c1.table && c2.flows == c1.flows && c'.flows.Keys == c1.flows.Keys
            && ForwardsAsTree(c2) && c'.root == g.node && c'.table == InstallAll(c1.table, Pushed(g))
            && var tr := TraceFrom(policy, LeftBehind(policy, c, pkt).0, LeftBehind(policy, c, pkt).1);
               PushedTo(c2, c', tr.events, Ending(tr.outcome, StartFlow(c, pkt)))
  {
    hide Graft, Trace, InstallAll, Lookup, Missed, Halted, Taken, Agrees, HitsAll, Emits, PrioOrdered, WellMasked,
         OneField, UniqueIds, UniqueFlows, NonEmptyLoads, SeparateTypes, HasFlow, HasId, Rebalanced, P.Run;
    var c1, c2 := MissedC(policy, c, pkt), Rebalancing(policy, c, pkt);
    var (last, mods) := LeftBehind(policy, c, pkt);
    MissedSound(policy, c, pkt);
    SoundForwards(policy, c1);
    UpdatedCaches(policy, c1);
    ExceededFlow(policy, c, pkt);
    AttemptPushes(policy, c2, last, mods, StartFlow(c, pkt));
  }

  /** The barriers of a table after a push. */
  lemma BarrierAfter(t: Table, g: Grafted, b: Key)
    requires forall rule :: rule in g.barriers ==> rule.action == ToController
    requires g.installed.Some? ==> g.installed.value.action.Forward?
    ensures var t' := InstallAll(t, Pushed(g));
            b in t' && t'[b].ToController? <==>
            && (g.installed.Some? ==> b != KeyOf(g.installed.value))
            && ((b in t && t[b].ToController?) || Rule(b.prio, b.pattern, ToController) in g.barriers)
  {
    hide InstallAll;
    var t', rule := InstallAll(t, Pushed(g)), Rule(b.prio, b.pattern, ToController);
    assert KeyOf(rule) == b;
    if g.installed.Some? {
      InstallAllAppend(t, g.barriers, g.installed.value);
    }
    if b in t' && t'[b].ToController? {
      InstalledFrom(t, Pushed(g), b);
    } else if (g.installed.Some? ==> b != KeyOf(g.installed.value))
      && ((b in t && t[b].ToController?) || rule in g.barriers) {
      assert rule in g.barriers ==> rule in Pushed(g);
      InstalledOver(t, Pushed(g), b, ToController);
    }
  }

  lemma SecondActions(policy: P.Policy, c: Controller, pkt: Packet)
    requires Caches(policy, c)
    ensures var g := SecondGraft(policy, c, pkt);
            && (forall b :: b in g.barriers ==> b.action == ToController)
            && (g.installed.Some? ==> g.installed.value.action == Forward(StartFlow(c, pkt)))
  {
    hide Graft, Trace, Missed, Halted, Taken, Rebalanced;
    var (last, mods) := LeftBehind(policy, c, pkt);
    var c2, tr := Rebalancing(policy, c, pkt), TraceFrom(policy, last, mods);
    PushedActions(c2.root, tr.events, Ending(tr.outcome, StartFlow(c, pkt)), c2.left, c2.right, [], c2.nextId);
  }

  lemma SecondTable(policy: P.Policy, c: Controller, pkt: Packet)
    requires Sound(policy, c) && Missed(policy, c, pkt).1 == Exceeded
    ensures var c1, g := MissedC(policy, c, pkt), SecondGraft(policy, c, pkt);
            && Processed(policy, c, pkt).0.table == InstallAll(c1.table, Pushed(g))
            && (forall b :: b in g.barriers ==> b.action == ToController)
               && (g.installed.Some? ==> g.installed.value.action.Forward?)
            && forall b: Rule :: b.action.ToController? ==>
               (Holds(c1.table, b) <==> Emits(c1.root, [], b, c1.flows.Keys))
  {
    hide Missed, Processed, MissedC, LeftBehind, Rebalancing, SecondGraft, InstallAll, Emits, Caches,
         PrioOrdered, ForwardsAsTree, PushedTo, Graft;
    SecondPush(policy, c, pkt);
    SecondActions(policy, c, pkt);
  }

  lemma StoppedAfter(t: Table, g: Grafted, q: Packet, p: int)
    requires forall rule :: rule in g.barriers ==> rule.action == ToController
    requires g.installed.Some? ==> g.installed.value.action.Forward?
    ensures Stopped(InstallAll(t, Pushed(g)), q, p) <==>
            exists b: Rule ::
              && b.action.ToController? && (b in g.barriers || Holds(t, b))
              && HitsAll(q, b.pattern) && b.prio >= p && (g.installed.Some? ==> KeyOf(b) != KeyOf(g.installed.value))
  {
    hide InstallAll, HitsAll, Pushed;
    var t' := InstallAll(t, Pushed(g));
    if b :| b in t' && t'[b].ToController? && HitsAll(q, b.pattern) && b.prio >= p {
      BarrierAfter(t, g, b);
      assert KeyOf(Rule(b.prio, b.pattern, ToController)) == b;
    }
    if b: Rule :|
      && b.action.ToController? && (b in g.barriers || Holds(t, b))
      && HitsAll(q, b.pattern) && b.prio >= p && (g.installed.Some? ==> KeyOf(b) != KeyOf(g.installed.value))
    {
      BarrierAfter(t, g, KeyOf(b));
      assert b == Rule(KeyOf(b).prio, KeyOf(b).pattern, ToController);
    }
  }

  lemma ShieldedIsStopped(policy: P.Policy, c: Controller, pkt: Packet, q: Packet, p: int)
    requires Sound(policy, c) && Missed(policy, c, pkt).1 == Exceeded
    ensures Stopped(Processed(policy, c, pkt).0.table, q, p) <==> Shielded(policy, c, pkt, q, p)
  {
    hide Missed, Processed, MissedC, SecondGraft, InstallAll, HitsAll, Emits, Holds, Pushed, Stopped, PrioOrdered;
    SecondTable(policy, c, pkt);
    hide Sound;
    StoppedAfter(MissedC(policy, c, pkt).table, SecondGraft(policy, c, pkt), q, p);
  }

  /** On a switch in order, a packet that makes the controller rebalance leaves the switch forwarding as the
      tree says exactly if the second attempt's rule is shielded by the barriers of the tree as it was before
      rebalancing. */
  lemma PacketInExact(policy: P.Policy, c: Controller, pkt: Packet)
    requires Sound(policy, c) && Missed(policy, c, pkt).1 == Exceeded
    ensures ForwardsAsTree(Processed(policy, c, pkt).0) <==> InOrder(policy, c, pkt)
  {
    hide Missed, Processed, MissedC, LeftBehind, Rebalancing, SecondGraft, InstallAll, HitsAll, Emits, Caches,
         PrioOrdered, ForwardsAsTree, PushedTo, Graft, Shielded, Stopped, Trace, Lookup;
    SecondPush(policy, c, pkt);
    SecondActions(policy, c, pkt);
    forall q: Packet, p: int
      ensures Stopped(Processed(policy, c, pkt).0.table, q, p) <==> Shielded(policy, c, pkt, q, p)
    {
      ShieldedIsStopped(policy, c, pkt, q, p);
    }
    var c1, c2, c', g := MissedC(policy, c, pkt), Rebalancing(policy, c, pkt), Processed(policy, c, pkt).0,
      SecondGraft(policy, c, pkt);
    var tr := TraceFrom(policy, LeftBehind(policy, c, pkt).0, LeftBehind(policy, c, pkt).1);
    SecondIsGraft(policy, c, pkt);
    PushExact(c2, c', tr.events, Ending(tr.outcome, StartFlow(c, pkt)));
    if g.installed.Some? {
      forall k
        ensures OldRule(c1.table, g, k) <==>
                k in c'.table && c'.table[k].Forward? && c'.table[k] != g.installed.value.action
      {
        OldRuleStays(c1.table, g, k);
      }
    }
  }

  lemma SecondIsGraft(policy: P.Policy, c: Controller, pkt: Packet)
    requires Caches(policy, c)
    ensures var tr, c2 := TraceFrom(policy, LeftBehind(policy, c, pkt).0, LeftBehind(policy, c, pkt).1),
            Rebalancing(policy, c, pkt);
            SecondGraft(policy, c, pkt) ==
            Graft(c2.root, tr.events, Ending(tr.outcome, StartFlow(c, pkt)), c2.left, c2.right, [], c2.nextId)
  {
    hide Graft, Trace, Missed, Halted, Taken, Rebalanced;
  }

  lemma OldRuleStays(t: Table, g: Grafted, k: Key)
    requires g.installed.Some? && g.installed.value.action.Forward?
             && forall b :: b in g.barriers ==> b.action == ToController
    ensures var t' := InstallAll(t, Pushed(g));
            OldRule(t, g, k) <==> k in t' && t'[k].Forward? && t'[k] != g.installed.value.action
  {
    hide InstallAll;
    var t' := InstallAll(t, Pushed(g));
    InstallAllAppend(t, g.barriers, g.installed.value);
    if k in t' && t'[k].Forward? && t'[k] != g.installed.value.action {
      InstalledFrom(t, Pushed(g), k);
      if b :| b in g.barriers && KeyOf(b) == k {
        InstalledOver(t, g.barriers, k, ToController);
      }
    }
    if OldRule(t, g, k) {
      InstalledOver(t, Pushed(g), k, t[k]);
    }
  }

  // ---------- runs ----------

  /** A second attempt for a flow that waits for its leaf, on a packet that no living flow answers, which
      repeats the modifications of the first. */
  ghost predicate IsRetry(policy: P.Policy, c: Controller, pkt: Packet, mods: Entries, flow: FlowId) {
    && flow in c.flows && !HasFlow(c.root, flow) && !Lookup(c.root, pkt, c.flows.Keys).Hit?
    && Repeats(P.Run(policy, pkt, map[]), mods)
  }

  /** The table holds rules of the tree only. */
  ghost predicate OfTree(t: Table, n: Node, alive: set<FlowId>) {
    forall rule :: Holds(t, rule) ==> Emits(n, [], rule, alive)
  }

  /** The steps of the controller, with rebalancing in any range and without commit. A switch that checks for
      overlaps may refuse any of the rules pushed or committed. */
  ghost predicate TableStep(policy: P.Policy, c: Controller, c': Controller) {
    Caches(policy, c) ==>
      || (exists pkt :: Pushing(c, Missed(policy, c, pkt).0, c'))
      || (exists pkt, mods, flow ::
          IsRetry(policy, c, pkt, mods, flow) && Pushing(c, Attempted(policy, c, pkt, mods, flow).0, c'))
      || (exists f :: c' == Expired(c, f))
      || (exists k :: k in c.table && c.table[k].Forward? && c' == IdledOut(c, k))
      || c' == Updated(c)
      || (c' == c.(table := c'.table) && OfTree(c'.table, c.root, c.flows.Keys))
  }

  ghost predicate Pushing(c: Controller, next: Controller, c': Controller) {
    c' == next.(table := c'.table) && Refusing(c.table, next.table, c'.table)
  }

  /** The packet-in path consists of such steps, unless the packet that a failed attempt has modified
      belongs to another flow, or is modified otherwise by the second attempt. */
  lemma ProcessedSteps(policy: P.Policy, c: Controller, pkt: Packet)
    requires Caches(policy, c)
    ensures var (c1, status), (last, mods) := Missed(policy, c, pkt), LeftBehind(policy, c, pkt);
            && TableStep(policy, c, c1)
            && (status != Exceeded ==> Processed(policy, c, pkt).0 == c1)
            && (status == Exceeded ==>
                  var c2 := Updated(MissedC(policy, c, pkt));
                  && TableStep(policy, c1, c2)
                  && (!Lookup(c2.root, last, c2.flows.Keys).Hit? && Repeats(P.Run(policy, last, map[]), mods) ==>
                        TableStep(policy, c2, Processed(policy, c, pkt).0)))
  {
    hide Missed, Attempted, Caches, Lookup, HasFlow, Halted, Rebalanced;
    assert Pushing(c, Missed(policy, c, pkt).0, Missed(policy, c, pkt).0);
    if Missed(policy, c, pkt).1 == Exceeded {
      ExceededFlow(policy, c, pkt);
      var (last, mods) := LeftBehind(policy, c, pkt);
      var c2, flow := Updated(MissedC(policy, c, pkt)), StartFlow(c, pkt);
      assert Processed(policy, c, pkt) == Attempted(policy, c2, last, mods, flow);
      if !Lookup(c2.root, last, c2.flows.Keys).Hit? && Repeats(P.Run(policy, last, map[]), mods) {
        assert IsRetry(policy, c2, last, mods, flow)
               && Pushing(c2, Processed(policy, c, pkt).0, Processed(policy, c, pkt).0);
      }
    }
  }

  lemma AttemptPushes(policy: P.Policy, c: Controller, pkt: Packet, mods: Entries, flow: FlowId)
    requires flow in c.flows
    ensures var tr, c' := TraceFrom(policy, pkt, mods), Attempted(policy, c, pkt, mods, flow).0;
            && PushedTo(c, c', tr.events, Ending(tr.outcome, flow))
            && (!Lookup(c.root, pkt, c.flows.Keys).Hit? ==>
                  Replaceable(c.root, tr.events, Ending(tr.outcome, flow), c'.flows.Keys))
  {
    hide Graft, Trace, InstallAll, Lookup, HasFlow;
    var tr := TraceFrom(policy, pkt, mods);
    AttemptFits(policy, pkt, mods);
    TraceFits(policy, pkt);
    if !Lookup(c.root, pkt, c.flows.Keys).Hit? {
      OwnLeaf(c.root, tr.events, Ending(tr.outcome, flow), pkt, c.flows.Keys);
    }
    var c' := Attempted(policy, c, pkt, mods, flow).0;
    assert c'.flows.Keys == c.flows.Keys;
  }

  lemma MissPushes(policy: P.Policy, c: Controller, pkt: Packet)
    requires Caches(policy, c) && Lookup(c.root, pkt, c.flows.Keys) != OutOfRange
    ensures var tr, c' := TraceOf(policy, pkt), Missed(policy, c, pkt).0;
            && PushedTo(c, c', tr.events, Ending(tr.outcome, StartFlow(c, pkt)))
            && Replaceable(c.root, tr.events, Ending(tr.outcome, StartFlow(c, pkt)), c'.flows.Keys)
  {
    hide Graft, Trace, InstallAll, Lookup, Agrees, WellMasked, HasFlow;
    var tr := TraceOf(policy, pkt);
    var fin := Ending(tr.outcome, StartFlow(c, pkt));
    TraceFits(policy, pkt);
    StartedCaches(policy, c, pkt);
    MissedShape(policy, c, pkt);
    OwnLeaf(c.root, tr.events, fin, pkt, Started(c, pkt).flows.Keys);
  }

  lemma StepPlaced(policy: P.Policy, c: Controller, c': Controller)
    requires Caches(policy, c) && Placed(c) && TableStep(policy, c, c')
    ensures Caches(policy, c') && Placed(c')
  {
    hide Caches, Missed, Attempted, Lookup, Leaf, IsRetry, Emits, Rebalanced, PushedTo, HasFlow, OfTree;
    if pkt :| Pushing(c, Missed(policy, c, pkt).0, c') {
      MissedCaches(policy, c, pkt);
      MissedIsAttempt(policy, c, pkt);
      TableIsFree(policy, Missed(policy, c, pkt).0, c'.table);
      if Lookup(c.root, pkt, c.flows.Keys) != OutOfRange {
        MissPushes(policy, c, pkt);
        PushPlaced(c, Missed(policy, c, pkt).0, TraceOf(policy, pkt).events,
                   Ending(TraceOf(policy, pkt).outcome, StartFlow(c, pkt)), c'.table);
      }
    } else if pkt, mods, flow :|
      IsRetry(policy, c, pkt, mods, flow) && Pushing(c, Attempted(policy, c, pkt, mods, flow).0, c')
    {
      RetryPlaced(policy, c, pkt, mods, flow, c'.table);
    } else if f :| c' == Expired(c, f) {
      ExpiredCaches(policy, c, f);
    } else {
      OtherPlaced(policy, c, c');
    }
  }

  lemma TableIsFree(policy: P.Policy, c: Controller, t: Table)
    requires Caches(policy, c)
    ensures Caches(policy, c.(table := t))
  {
  }

  lemma RetryPlaced(policy: P.Policy, c: Controller, pkt: Packet, mods: Entries, flow: FlowId, t: Table)
    requires Caches(policy, c) && Placed(c) && IsRetry(policy, c, pkt, mods, flow)
    requires Refusing(c.table, Attempted(policy, c, pkt, mods, flow).0.table, t)
    ensures var c' := Attempted(policy, c, pkt, mods, flow).0.(table := t); Caches(policy, c') && Placed(c')
  {
    hide Caches, Attempted, Lookup, HasFlow, Repeats, PushedTo, Placed;
    AttemptExact(policy, c, pkt, mods, flow);
    TableIsFree(policy, Attempted(policy, c, pkt, mods, flow).0, t);
    AttemptPushes(policy, c, pkt, mods, flow);
    PushPlaced(c, Attempted(policy, c, pkt, mods, flow).0, TraceFrom(policy, pkt, mods).events,
               Ending(TraceFrom(policy, pkt, mods).outcome, flow), t);
  }

  lemma OtherPlaced(policy: P.Policy, c: Controller, c': Controller)
    requires Caches(policy, c) && Placed(c)
    requires
      || (exists k :: k in c.table && c.table[k].Forward? && c' == IdledOut(c, k)) || c' == Updated(c)
      || (c' == c.(table := c'.table) && OfTree(c'.table, c.root, c.flows.Keys))
    ensures Caches(policy, c') && Placed(c')
  {
    hide Lookup, Leaf, Emits, Rebalanced, HasFlow, Agrees, WellMasked, UniqueFlows, UniqueIds, OneField,
         NonEmptyLoads, SeparateTypes, SameButPrios, HasId;
    if c' == Updated(c) {
      UpdatedCaches(policy, c);
      forall k | k in c.table && c.table[k].Forward? ensures Leaf(c'.root, [], k.pattern, c.table[k].flow) {
        SameLeaf(c.root, c'.root, [], k.pattern, c.table[k].flow);
      }
    } else if c' == c.(table := c'.table) && OfTree(c'.table, c.root, c.flows.Keys) {
      RulesPlaced(c');
    }
  }

  lemma RulesPlaced(c: Controller)
    requires OfTree(c.table, c.root, c.flows.Keys)
    ensures Placed(c)
  {
    hide Leaf, Emits;
    forall k | k in c.table && c.table[k].Forward?
      ensures c.table[k].flow in c.flows && Leaf(c.root, [], k.pattern, c.table[k].flow)
    {
      var rule := RuleAt(c.table, k);
      assert Holds(c.table, rule);
      EmittedAlive(c.root, [], rule, c.flows.Keys);
      LeafIsRule(c.root, [], k.pattern, rule.action.flow, c.flows.Keys);
    }
  }

  ghost predicate IsTableRun(policy: P.Policy, run: seq<Controller>) {
    && run != [] && Init(run[0]) && run[0].left <= run[0].right
    && forall i :: 0 <= i < |run| - 1 ==> TableStep(policy, run[i], run[i + 1])
  }

  lemma {:induction false} RunPlaced(policy: P.Policy, run: seq<Controller>)
    requires IsTableRun(policy, run)
    ensures Caches(policy, run[|run| - 1]) && Placed(run[|run| - 1])
    decreases |run|
  {
    if |run| == 1 {
      InitSound(policy, run[0]);
    } else {
      RunPlaced(policy, run[..|run| - 1]);
      assert TableStep(policy, run[|run| - 2], run[|run| - 1]);
      StepPlaced(policy, run[|run| - 2], run[|run| - 1]);
    }
  }

  /** At any point of any run in which rebalancing may stand alone, the switch forwards as the tree says,
      whatever flow rules idle out, exactly if the flow rules of its table are guarded. */
  lemma RunExact(policy: P.Policy, run: seq<Controller>)
    requires IsTableRun(policy, run)
    ensures var c := run[|run| - 1]; ForwardsAsTree(c) <==> Guarding(c)
  {
    RunPlaced(policy, run);
    StaleExact(run[|run| - 1]);
  }

  /** A packet that a guarded flow rule wins gets what the policy decides, exactly if it has the fields that
      the tree asks for, and that the policy modifies or touches without asking for a bit. */
  lemma GuardedFollowsPolicy(policy: P.Policy, run: seq<Controller>, q: Packet, k: Key)
    requires IsTableRun(policy, run)
    requires var c := run[|run| - 1];
             k in c.table && c.table[k].Forward? && Wins(c.table, q, k, HitsAll) && Guards(c, k)
    ensures var c, out := run[|run| - 1], P.Run(policy, q, map[]);
            && c.table[k].flow in c.flows
            && ((out.Returned? && c.flows[c.table[k].flow] == FlowRecord(out.decision, out.mods))
                <==> Lookup(c.root, q, c.flows.Keys) != OutOfRange && UntracedBound(policy, q))
  {
    hide Agrees, WellMasked, UntracedBound, P.Run, Leaf, Under;
    RunPlaced(policy, run);
    var c, out := run[|run| - 1], P.Run(policy, q, map[]);
    if Lookup(c.root, q, c.flows.Keys) != OutOfRange {
      GuardedWinner(c, q, k);
      HitIsRight(policy, c, q);
    } else if out.Returned? {
      Opening(q);
      LookupSound(c.root, policy, TState(q, map[]), q, map[], c.flows);
    }
  }
}
