/** The Maple controller over whole runs: packet misses, expiring flows, rules idling out, rebalancing
    with commit. The state pairs the trace tree with the flow table of one switch. */
module Controllers {
  import opened Wrappers
  import opened Oxm
  import opened FieldSets
  import P = Policies
  import opened Tracing
  import opened TraceTrees
  import opened FlowTables
  import opened Grafting
  import opened Priorities
  import opened Caching

  // ---------- steps ----------

  datatype Controller = Controller(root: Node, left: nat, right: nat, nextId: nat,
                                   flows: map<FlowId, FlowRecord>, nextFlow: FlowId, table: Table)

  predicate Init(c: Controller) {
    c.root == Unexplored && c.nextId >= 1 && c.flows == map[] && c.table == map[]
  }

  datatype MissStatus = Installed(flow: FlowId) | Threw | Exceeded

  function StartFlow(c: Controller, pkt: Packet): FlowId {
    var found := Lookup(c.root, pkt, c.flows.Keys);
    if found.Hit? then found.flow else c.nextFlow
  }

  /** The controller with the flow that is to handle pkt: the one found in the tree, or a new one. */
  function Started(c: Controller, pkt: Packet): Controller {
    if Lookup(c.root, pkt, c.flows.Keys).Hit? then c
    else c.(flows := c.flows[c.nextFlow := FlowRecord(P.Undefined, map[])], nextFlow := c.nextFlow + 1)
  }

  function TraceOf(policy: P.Policy, pkt: Packet): TraceResult {
    Trace(policy, TState(pkt, map[]), map[])
  }

  function GraftOf(policy: P.Policy, c: Controller, pkt: Packet): Grafted {
    var tr := TraceOf(policy, pkt);
    Graft(c.root, tr.events, Ending(tr.outcome, StartFlow(c, pkt)), c.left, c.right, [], c.nextId)
  }

  function Pushed(g: Grafted): seq<Rule> {
    g.barriers + if g.installed.Some? then [g.installed.value] else []
  }

  /** A packet miss: look the packet up, run the policy on it through the tracer, install the flow. */
  function Missed(policy: P.Policy, c: Controller, pkt: Packet): (Controller, MissStatus) {
    if Lookup(c.root, pkt, c.flows.Keys) == OutOfRange then (c, Threw)
    else
      var c1, flow := Started(c, pkt), StartFlow(c, pkt);
      var tr, g := TraceOf(policy, pkt), GraftOf(policy, c, pkt);
      var c2 := c1.(root := g.node, nextId := g.nextId, table := InstallAll(c.table, Pushed(g)));
      if g.status != Done then (c2, Exceeded)
      else if tr.outcome.OutOfRange? then (c2, Threw)
      else (c2.(flows := c2.flows[flow := FlowRecord(tr.outcome.decision, tr.outcome.mods)]), Installed(flow))
  }

  /** A hard timeout: the switch has removed the flow's rules, and the controller forgets the flow. */
  function Expired(c: Controller, f: FlowId): Controller {
    c.(flows := c.flows - {f}, table := map k | k in c.table && c.table[k] != Forward(f) :: c.table[k])
  }

  /** An idle timeout: the switch has removed one forwarding rule; the flow lives on. */
  function IdledOut(c: Controller, k: Key): Controller
    requires k in c.table && c.table[k].Forward?
  {
    c.(table := c.table - {k})
  }

  /** The table after commit. */
  ghost predicate Committed(c: Controller, c': Controller) {
    c' == c.(table := c'.table) && TableIs(c'.table, c.root, c.flows.Keys)
  }

  ghost predicate CanRebalance(c: Controller) {
    NonEmptyLoads(c.root) && c.right - c.left >= 2 * Count(c.root)
  }

  ghost function Updated(c: Controller): Controller
    requires NonEmptyLoads(c.root) && c.left <= c.right
  {
    c.(root := Rebalanced(c.root, c.left as real, c.right as real))
  }

  /** The steps that leave priorities alone. */
  ghost predicate Grows(policy: P.Policy, c: Controller, c': Controller) {
    || (exists pkt :: c' == Missed(policy, c, pkt).0)
    || (exists f :: c' == Expired(c, f))
    || (exists k :: k in c.table && c.table[k].Forward? && c' == IdledOut(c, k))
    || Committed(c, c')
  }

  ghost predicate Next(policy: P.Policy, c: Controller, c': Controller) {
    Grows(policy, c, c') || (CanRebalance(c) && Committed(Updated(c), c'))
  }

  // ---------- the invariant ----------

  /** Every rule that any packet's trace asks for has one field per type. */
  ghost predicate SeparateTypes(policy: P.Policy) {
    forall pkt: Packet :: Separate([], TraceOf(policy, pkt).events, TraceOf(policy, pkt).outcome.Returned?)
  }

  /** What holds of the tree whatever the priorities and the table are. */
  ghost predicate Caches(policy: P.Policy, c: Controller) {
    && c.left <= c.right && WellMasked(c.root, [])
    && UniqueIds(c.root) && NonEmptyLoads(c.root) && IdsBelow(c.root, c.nextId) && UniqueFlows(c.root)
    && (forall f: FlowId :: HasFlow(c.root, f) || f in c.flows ==> f < c.nextFlow)
    && Agrees(c.root, policy, map[], map[], c.flows)
    && (SeparateTypes(policy) ==> OneField(c.root, []))
  }

  /** Besides, priorities are nested and the table holds rules of the tree. */
  ghost predicate Sound(policy: P.Policy, c: Controller) {
    Caches(policy, c) && PrioOrdered(c.root, c.left, c.right) && TableSafe(c.table, c.root, c.flows.Keys)
  }

  lemma InitSound(policy: P.Policy, c: Controller)
    requires Init(c) && c.left <= c.right
    ensures Sound(policy, c) && TableIs(c.table, c.root, c.flows.Keys)
  {
    UnexploredAgrees(policy, map[], map[], c.flows);
  }

  lemma {:induction false} EmitsFrame(n: Node, ctx: seq<Field>, rule: Rule, alive: set<FlowId>, alive': set<FlowId>)
    requires forall f :: HasFlow(n, f) ==> (f in alive <==> f in alive')
    ensures Emits(n, ctx, rule, alive) <==> Emits(n, ctx, rule, alive')
  {
    match n
    case Unexplored =>
    case FlowNode(flow, _) => assert HasFlow(n, flow);
    case TestNode(need, positive, negative, _, _) =>
      EmitsFrame(positive, Added(ctx, need), rule, alive, alive');
      EmitsFrame(negative, ctx, rule, alive, alive');
    case LoadNode(mask, cases) =>
      forall v | v in cases
        ensures Emits(cases[v], Added(ctx, CaseField(mask, v)), rule, alive) <==>
                Emits(cases[v], Added(ctx, CaseField(mask, v)), rule, alive')
      {
        assert forall f :: HasFlow(cases[v], f) ==> HasFlow(n, f);
        EmitsFrame(cases[v], Added(ctx, CaseField(mask, v)), rule, alive, alive');
      }
  }

  /** A dead flow's rules are no longer rules of the tree. */
  lemma {:induction false} EmitsWithout(n: Node, ctx: seq<Field>, rule: Rule, alive: set<FlowId>, f: FlowId)
    ensures Emits(n, ctx, rule, alive - {f}) <==> Emits(n, ctx, rule, alive) && rule.action != Forward(f)
  {
    match n
    case Unexplored =>
    case FlowNode(_, _) =>
    case TestNode(need, positive, negative, _, _) =>
      EmitsWithout(positive, Added(ctx, need), rule, alive, f);
      EmitsWithout(negative, ctx, rule, alive, f);
    case LoadNode(mask, cases) =>
      forall v | v in cases { EmitsWithout(cases[v], Added(ctx, CaseField(mask, v)), rule, alive, f); }
  }

  lemma {:induction false} LookupFrame(n: Node, q: Packet, alive: set<FlowId>, alive': set<FlowId>)
    requires forall f :: HasFlow(n, f) ==> (f in alive <==> f in alive')
    ensures Lookup(n, q, alive) == Lookup(n, q, alive')
  {
    match n
    case Unexplored =>
    case FlowNode(flow, _) => assert HasFlow(n, flow);
    case TestNode(_, positive, negative, _, _) =>
      LookupFrame(positive, q, alive, alive');
      LookupFrame(negative, q, alive, alive');
    case LoadNode(mask, cases) =>
      if mask.t in q && LoadBits(q, mask).value in cases {
        var child := cases[LoadBits(q, mask).value];
        assert forall f :: HasFlow(child, f) ==> HasFlow(n, f);
        LookupFrame(child, q, alive, alive');
      }
  }

  lemma {:induction false} LookupWithout(n: Node, q: Packet, alive: set<FlowId>, f: FlowId)
    ensures Lookup(n, q, alive - {f}) == if Lookup(n, q, alive) == Hit(f) then Miss else Lookup(n, q, alive)
  {
    match n
    case Unexplored =>
    case FlowNode(_, _) =>
    case TestNode(_, positive, negative, _, _) =>
      LookupWithout(positive, q, alive, f);
      LookupWithout(negative, q, alive, f);
    case LoadNode(mask, cases) =>
      if mask.t in q && LoadBits(q, mask).value in cases {
        LookupWithout(cases[LoadBits(q, mask).value], q, alive, f);
      }
  }

  /** What a hard timeout takes: the flow's record and rules, and the answers that named it. The next packet
      that had one gets a new flow. */
  lemma ExpiredExact(c: Controller, f: FlowId, q: Packet)
    ensures var c' := Expired(c, f);
            && f !in c'.flows
            && (forall g | g != f :: g in c'.flows <==> g in c.flows)
            && (forall g | g in c'.flows :: g in c.flows && c'.flows[g] == c.flows[g])
            && (forall k :: k in c'.table <==> k in c.table && c.table[k] != Forward(f))
            && (forall k | k in c'.table :: c'.table[k] == c.table[k])
            && (c'.root, c'.left, c'.right, c'.nextId, c'.nextFlow) == (c.root, c.left, c.right, c.nextId, c.nextFlow)
            && var was, now := Lookup(c.root, q, c.flows.Keys), Lookup(c'.root, q, c'.flows.Keys);
               && (was == Hit(f) ==> now == Miss && StartFlow(c', q) == c.nextFlow)
               && (was != Hit(f) ==> now == was)
  {
    assert Expired(c, f).flows.Keys == c.flows.Keys - {f};
    LookupWithout(c.root, q, c.flows.Keys, f);
  }

  lemma StartedCaches(policy: P.Policy, c: Controller, pkt: Packet)
    requires Caches(policy, c)
    ensures var c1 := Started(c, pkt);
            && Caches(policy, c1) && StartFlow(c, pkt) in c1.flows
            && Lookup(c1.root, pkt, c1.flows.Keys) == Lookup(c.root, pkt, c.flows.Keys)
  {
    hide WellMasked, UniqueIds, OneField, Agrees, NonEmptyLoads, HasFlow, SeparateTypes;
    var c1 := Started(c, pkt);
    AgreesFrame(c.root, policy, map[], map[], c.flows, c1.flows);
    LookupFrame(c.root, pkt, c.flows.Keys, c1.flows.Keys);
  }

  /** Which flow handles a packet, and what a miss leaves alone: the flow is the one that lookup finds, or else a
      new one; the record of every other flow stays as it was, and so does all when lookup throws. */
  lemma MissFlows(policy: P.Policy, c: Controller, pkt: Packet)
    requires Caches(policy, c)
    ensures var (c', status) := Missed(policy, c, pkt);
            match Lookup(c.root, pkt, c.flows.Keys)
            case OutOfRange => c' == c && status == Threw
            case Hit(f) =>
              && f in c.flows && c'.flows.Keys == c.flows.Keys && c'.nextFlow == c.nextFlow
              && (status.Installed? ==> status.flow == f)
              && forall g | g in c.flows && g != f :: c'.flows[g] == c.flows[g]
            case Miss =>
              && c.nextFlow !in c.flows && c'.flows.Keys == c.flows.Keys + {c.nextFlow} && c'.nextFlow == c.nextFlow + 1
              && (status.Installed? ==> status.flow == c.nextFlow)
              && forall g | g in c.flows :: c'.flows[g] == c.flows[g]
  {
    hide Graft, Trace, Agrees, WellMasked, UniqueIds, OneField, NonEmptyLoads, InstallAll, SeparateTypes;
    StartedCaches(policy, c, pkt);
  }

  lemma StartedSound(policy: P.Policy, c: Controller, pkt: Packet)
    requires Sound(policy, c)
    ensures var c1 := Started(c, pkt);
            && Sound(policy, c1)
               && (TableIs(c.table, c.root, c.flows.Keys) ==> TableIs(c1.table, c1.root, c1.flows.Keys))
  {
    hide PrioOrdered, Emits, HasFlow, Agrees, WellMasked, UniqueIds, OneField, NonEmptyLoads, SeparateTypes;
    StartedCaches(policy, c, pkt);
    var c1 := Started(c, pkt);
    forall rule ensures Emits(c.root, [], rule, c.flows.Keys) <==> Emits(c.root, [], rule, c1.flows.Keys) {
      EmitsFrame(c.root, [], rule, c.flows.Keys, c1.flows.Keys);
    }
  }

  lemma Opening(pkt: Packet)
    ensures Coherent(TState(pkt, map[])) && Untouched(TState(pkt, map[]), pkt)
  {
  }

  /** Pushing a grafted trace's rules into a table of the old tree's rules gives one of the new tree's. */
  lemma PushedTable(t: Table, n: Node, es: seq<Event>, fin: Option<FlowId>, l: nat, r: nat, id: nat, alive: set<FlowId>)
    requires PrioOrdered(n, l, r) && WellMasked(n, []) && NonRedundant([], es)
    requires Replaceable(n, es, fin, alive) && (fin.Some? ==> fin.value in alive)
    requires TableSafe(t, n, alive)
    ensures var g := Graft(n, es, fin, l, r, [], id);
            var t' := InstallAll(t, Pushed(g));
            TableSafe(t', g.node, alive) && (TableIs(t, n, alive) ==> TableIs(t', g.node, alive))
  {
    hide Graft, Replaceable, PrioOrdered, WellMasked, NonRedundant, Emits, Elements;
    var g := Graft(n, es, fin, l, r, [], id);
    GraftKeepsPrios(n, es, fin, l, r, [], id);
    GraftKeepsMasks(n, es, fin, l, r, [], id);
    forall rule
      ensures Emits(g.node, [], rule, alive) <==> Emits(n, [], rule, alive) || rule in Pushed(g)
    {
      GraftEmits(n, es, fin, l, r, [], id, rule, alive);
    }
    forall a, b | Emits(g.node, [], a, alive) && Emits(g.node, [], b, alive) && KeyOf(a) == KeyOf(b) ensures a == b {
      KeysAreUnique(g.node, l, r, a, b, alive);
    }
    forall a | a in Pushed(g) && KeyOf(a) in t ensures Holds(t, a) {
      assert Holds(t, RuleAt(t, KeyOf(a)));
      assert KeyOf(RuleAt(t, KeyOf(a))) == KeyOf(a);
    }
    forall rule ensures Holds(InstallAll(t, Pushed(g)), rule) <==> Holds(t, rule) || rule in Pushed(g) {
      InstallAllHolds(t, Pushed(g), rule);
    }
  }

  /** The tree invariants that do not mention the policy's answers. */
  ghost predicate TreeOk(n: Node, l: int, r: int, id: nat) {
    PrioOrdered(n, l, r) && WellMasked(n, []) && UniqueIds(n) && NonEmptyLoads(n) && IdsBelow(n, id)
  }

  lemma GraftKeepsTree(n: Node, es: seq<Event>, fin: Option<FlowId>, l: nat, r: nat, id: nat)
    requires WellMasked(n, []) && UniqueIds(n) && NonEmptyLoads(n) && IdsBelow(n, id) && NonRedundant([], es)
    ensures var g := Graft(n, es, fin, l, r, [], id);
            && WellMasked(g.node, []) && UniqueIds(g.node) && NonEmptyLoads(g.node) && IdsBelow(g.node, g.nextId)
            && (PrioOrdered(n, l, r) ==> PrioOrdered(g.node, l, r))
            && (OneField(n, []) && Separate([], es, fin.Some?) ==> OneField(g.node, []))
  {
    if PrioOrdered(n, l, r) { GraftKeepsPrios(n, es, fin, l, r, [], id); }
    GraftKeepsMasks(n, es, fin, l, r, [], id);
    GraftKeepsIds(n, es, fin, l, r, [], id);
    if OneField(n, []) && Separate([], es, fin.Some?) { GraftKeepsOneField(n, es, fin, l, r, [], id); }
  }

  lemma TraceFits(policy: P.Policy, pkt: Packet)
    ensures var tr := TraceOf(policy, pkt);
            && tr.outcome == P.Run(policy, pkt, map[])
            && NonRedundant([], tr.events)
            && (forall e :: e in tr.events ==> EventHolds(pkt, e))
  {
    var s := TState(pkt, map[]);
    Opening(pkt);
    TraceTransparent(policy, s, map[]);
    TraceNonRedundant(policy, s, map[], []);
    TraceIsOriginal(policy, s, map[], pkt);
  }

  /** A policy that only asks for whole fields asks for rules with one field per type. */
  lemma ExactIsSeparate(policy: P.Policy)
    requires P.Exact(policy)
    ensures SeparateTypes(policy)
  {
    forall pkt: Packet ensures Separate([], TraceOf(policy, pkt).events, TraceOf(policy, pkt).outcome.Returned?) {
      ExactIsExclusive(policy, TState(pkt, map[]), map[], []);
      ExclusiveIsSeparate([], TraceOf(policy, pkt).events, TraceOf(policy, pkt).outcome.Returned?);
    }
  }

  /** The records after the miss, were the policy's outcome always recorded. */
  function RecordedFlows(c: Controller, pkt: Packet, out: P.Outcome): map<FlowId, FlowRecord> {
    var flows := Started(c, pkt).flows;
    if out.Returned? then flows[StartFlow(c, pkt) := FlowRecord(out.decision, out.mods)] else flows
  }

  lemma RecordedAgrees(policy: P.Policy, c: Controller, pkt: Packet)
    requires Caches(policy, c) && Lookup(c.root, pkt, c.flows.Keys) != OutOfRange
    ensures var flows := RecordedFlows(c, pkt, P.Run(policy, pkt, map[]));
            && Agrees(c.root, policy, map[], map[], flows)
            && (forall f :: HasFlow(c.root, f) && f in Started(c, pkt).flows ==> flows[f] == Started(c, pkt).flows[f])
  {
    hide Agrees, Lookup, Emits, PrioOrdered, WellMasked, OneField, TableSafe;
    var out := P.Run(policy, pkt, map[]);
    Opening(pkt);
    if out.Returned? { LookupSound(c.root, policy, TState(pkt, map[]), pkt, map[], c.flows); }
    AgreesFrame(c.root, policy, map[], map[], c.flows, RecordedFlows(c, pkt, out));
  }

  lemma MissedAgrees(policy: P.Policy, c: Controller, pkt: Packet)
    requires Caches(policy, c) && Lookup(c.root, pkt, c.flows.Keys) != OutOfRange
    ensures var c' := Missed(policy, c, pkt).0;
            && Agrees(c'.root, policy, map[], map[], c'.flows)
            && GraftOf(policy, c, pkt).status != InconsistentTrace
            && (forall f: FlowId :: HasFlow(c'.root, f) ==> f < c'.nextFlow)
  {
    hide Agrees, Graft, Trace, Lookup, Emits, TableSafe, PrioOrdered, WellMasked, OneField, InstallAll;
    var tr, g, flow := TraceOf(policy, pkt), GraftOf(policy, c, pkt), StartFlow(c, pkt);
    var fin := Ending(tr.outcome, flow);
    var flows := RecordedFlows(c, pkt, tr.outcome);
    TraceFits(policy, pkt);
    Opening(pkt);
    RecordedAgrees(policy, c, pkt);
    GraftAgrees(c.root, policy, TState(pkt, map[]), map[], flows, flow, c.left, c.right, [], c.nextId);
    var c' := Missed(policy, c, pkt).0;
    forall f: FlowId | HasFlow(g.node, f)
      ensures f < c'.nextFlow && (f in c'.flows ==> f in flows && flows[f] == c'.flows[f])
    {
      GraftFlows(c.root, tr.events, fin, c.left, c.right, [], c.nextId, f);
    }
    AgreesFrame(g.node, policy, map[], map[], flows, c'.flows);
  }

  lemma MissedFlows(policy: P.Policy, c: Controller, pkt: Packet)
    requires Caches(policy, c) && Lookup(c.root, pkt, c.flows.Keys) != OutOfRange
    ensures UniqueFlows(GraftOf(policy, c, pkt).node)
  {
    hide Graft, Trace, Lookup, Agrees, WellMasked, OneField, UniqueIds, NonEmptyLoads, HasFlow, HasId, UniqueFlows,
         EndsAt, SeparateTypes;
    var tr := TraceOf(policy, pkt);
    var fin := Ending(tr.outcome, StartFlow(c, pkt));
    TraceFits(policy, pkt);
    MissedAgrees(policy, c, pkt);
    if Lookup(c.root, pkt, c.flows.Keys).Hit? && fin.Some? {
      OwnEnd(c.root, tr.events, fin, c.left, c.right, [], c.nextId, pkt, c.flows.Keys);
    }
    GraftKeepsFlows(c.root, tr.events, fin, c.left, c.right, [], c.nextId);
  }

  lemma MissedCaches(policy: P.Policy, c: Controller, pkt: Packet)
    requires Caches(policy, c)
    ensures Caches(policy, Missed(policy, c, pkt).0)
  {
    hide Graft, Trace, Lookup, InstallAll, Agrees, WellMasked, Separate, OneField, UniqueIds, NonEmptyLoads, HasFlow,
         HasId, UniqueFlows;
    if Lookup(c.root, pkt, c.flows.Keys) != OutOfRange {
      var tr := TraceOf(policy, pkt);
      StartedCaches(policy, c, pkt);
      TraceFits(policy, pkt);
      GraftKeepsTree(c.root, tr.events, Ending(tr.outcome, StartFlow(c, pkt)), c.left, c.right, c.nextId);
      MissedAgrees(policy, c, pkt);
      MissedShape(policy, c, pkt);
      MissedFlows(policy, c, pkt);
      assert SeparateTypes(policy) ==> Separate([], tr.events, tr.outcome.Returned?);
    }
  }

  /** A miss keeps the invariant, and keeps a complete table complete: the rules pushed one by one are
      those that compiling the whole tree would emit, also when the run is cut short. */
  lemma MissedSound(policy: P.Policy, c: Controller, pkt: Packet)
    requires Sound(policy, c)
    ensures var c' := Missed(policy, c, pkt).0;
            && Sound(policy, c')
            && (TableIs(c.table, c.root, c.flows.Keys) ==> TableIs(c'.table, c'.root, c'.flows.Keys))
  {
    hide Graft, Trace, Lookup, InstallAll, Agrees, Emits, PrioOrdered, WellMasked, Separate, OneField, UniqueIds,
         NonEmptyLoads, HasFlow, HasId, UniqueFlows;
    MissedCaches(policy, c, pkt);
    if Lookup(c.root, pkt, c.flows.Keys) != OutOfRange {
      var c1, es := Started(c, pkt), TraceOf(policy, pkt).events;
      var fin := Ending(TraceOf(policy, pkt).outcome, StartFlow(c, pkt));
      StartedCaches(policy, c, pkt);
      StartedSound(policy, c, pkt);
      TraceFits(policy, pkt);
      OwnLeaf(c.root, es, fin, pkt, c1.flows.Keys);
      PushedTable(c.table, c.root, es, fin, c.left, c.right, c.nextId, c1.flows.Keys);
      GraftKeepsTree(c.root, es, fin, c.left, c.right, c.nextId);
      MissedShape(policy, c, pkt);
    }
  }

  lemma MissedShape(policy: P.Policy, c: Controller, pkt: Packet)
    requires Lookup(c.root, pkt, c.flows.Keys) != OutOfRange
    requires StartFlow(c, pkt) in Started(c, pkt).flows
    ensures var c', c1, g := Missed(policy, c, pkt).0, Started(c, pkt), GraftOf(policy, c, pkt);
            && c'.root == g.node && c'.nextId == g.nextId && c'.table == InstallAll(c.table, Pushed(g))
            && c'.flows.Keys == c1.flows.Keys && c'.nextFlow == c1.nextFlow && c'.left == c.left && c'.right == c.right
  {
    hide Graft, Trace, Lookup, InstallAll;
    var c' := Missed(policy, c, pkt).0;
    assert c'.flows.Keys == Started(c, pkt).flows.Keys;
  }

  /** What a miss answers: a flow with the policy's decision and modifications, found by lookup from then
      on; or that the policy throws on this packet; or that priorities ran out, only for a new flow. */
  lemma MissAnswers(policy: P.Policy, c: Controller, pkt: Packet)
    requires Caches(policy, c)
    ensures var (c', status) := Missed(policy, c, pkt);
            var out := P.Run(policy, pkt, map[]);
            match status
            case Installed(flow) =>
              && out.Returned? && flow in c'.flows && c'.flows[flow] == FlowRecord(out.decision, out.mods)
              && Lookup(c'.root, pkt, c'.flows.Keys) == Hit(flow)
            case Threw => out.OutOfRange?
            case Exceeded => Lookup(c.root, pkt, c.flows.Keys) == Miss
  {
    hide Graft, Trace, Lookup, InstallAll, Agrees, Emits, PrioOrdered, WellMasked;
    TraceFits(policy, pkt);
    Opening(pkt);
    if Lookup(c.root, pkt, c.flows.Keys) == OutOfRange {
      if P.Run(policy, pkt, map[]).Returned? { LookupSound(c.root, policy, TState(pkt, map[]), pkt, map[], c.flows); }
    } else {
      var fin := Ending(TraceOf(policy, pkt).outcome, StartFlow(c, pkt));
      StartedCaches(policy, c, pkt);
      MissedShape(policy, c, pkt);
      if Missed(policy, c, pkt).1.Installed? {
        GraftCaches(c.root, TraceOf(policy, pkt).events, fin, c.left, c.right, [], c.nextId, pkt,
                    Started(c, pkt).flows.Keys);
      } else if Lookup(c.root, pkt, c.flows.Keys).Hit? {
        HitNeverExceeds(c.root, TraceOf(policy, pkt).events, fin, c.left, c.right, [], c.nextId, pkt, c.flows.Keys);
        MissedAgrees(policy, c, pkt);
      }
    }
  }

  /** A miss never changes an answer that the tree already gave for any packet. */
  lemma MissKeepsAnswers(policy: P.Policy, c: Controller, pkt: Packet, q: Packet)
    requires Caches(policy, c) && Lookup(c.root, q, c.flows.Keys) != Miss
    ensures var c' := Missed(policy, c, pkt).0;
            Lookup(c'.root, q, c'.flows.Keys) == Lookup(c.root, q, c.flows.Keys)
  {
    if Lookup(c.root, pkt, c.flows.Keys) != OutOfRange {
      var es, alive := TraceOf(policy, pkt).events, Started(c, pkt).flows.Keys;
      var fin := Ending(TraceOf(policy, pkt).outcome, StartFlow(c, pkt));
      TraceFits(policy, pkt);
      StartedCaches(policy, c, pkt);
      MissedShape(policy, c, pkt);
      OwnLeaf(c.root, es, fin, pkt, alive);
      LookupFrame(c.root, q, c.flows.Keys, alive);
      GraftKeepsAnswers(c.root, es, fin, c.left, c.right, [], c.nextId, q, alive);
    }
  }

  lemma ExpiredCaches(policy: P.Policy, c: Controller, f: FlowId)
    requires Caches(policy, c)
    ensures Caches(policy, Expired(c, f))
  {
    hide WellMasked, UniqueIds, OneField, Agrees, NonEmptyLoads, SeparateTypes, HasId;
    AgreesFrame(c.root, policy, map[], map[], c.flows, Expired(c, f).flows);
  }

  lemma ExpiredSound(policy: P.Policy, c: Controller, f: FlowId)
    requires Sound(policy, c)
    ensures var c' := Expired(c, f);
            && Sound(policy, c')
            && (TableIs(c.table, c.root, c.flows.Keys) ==> TableIs(c'.table, c'.root, c'.flows.Keys))
  {
    var c' := Expired(c, f);
    assert c'.flows.Keys == c.flows.Keys - {f};
    ExpiredCaches(policy, c, f);
    hide Caches;
    forall rule
      ensures Holds(c'.table, rule) <==> Holds(c.table, rule) && rule.action != Forward(f)
      ensures Emits(c.root, [], rule, c'.flows.Keys) <==>
              Emits(c.root, [], rule, c.flows.Keys) && rule.action != Forward(f)
    {
      EmitsWithout(c.root, [], rule, c.flows.Keys, f);
    }
  }

  /** Rebalancing changes no lookup, and keeps whatever does not depend on priorities, in any range. */
  lemma UpdatedCaches(policy: P.Policy, c: Controller)
    requires Caches(policy, c)
    ensures var c' := Updated(c);
            && Caches(policy, c') && SameButPrios(c.root, c'.root)
            && forall q :: Lookup(c'.root, q, c.flows.Keys) == Lookup(c.root, q, c.flows.Keys)
  {
    hide Agrees, Lookup, Rebalanced, WellMasked, OneField, HasFlow, HasId, UniqueIds, SeparateTypes, SameButPrios;
    var root := Updated(c).root;
    RebalancedSame(c.root, c.left as real, c.right as real);
    SameInvariants(c.root, root, []);
    SameIds(c.root, root);
    SameAgrees(c.root, root, policy, map[], map[], c.flows);
    forall q ensures Lookup(root, q, c.flows.Keys) == Lookup(c.root, q, c.flows.Keys) {
      SameLookup(c.root, root, q, c.flows.Keys);
    }
  }

  /** In a range of twice the count it nests all priorities again and gives every unexplored leaf room;
      the table follows with commit. */
  lemma UpdatedTree(policy: P.Policy, c: Controller)
    requires Caches(policy, c) && CanRebalance(c)
    ensures var c' := Updated(c);
            && TreeOk(c'.root, c.left, c.right, c.nextId) && Roomy(c'.root, c.left, c.right) && Caches(policy, c')
            && forall q :: Lookup(c'.root, q, c.flows.Keys) == Lookup(c.root, q, c.flows.Keys)
  {
    hide Agrees, Lookup, Rebalanced, WellMasked, OneField, PrioOrdered, HasFlow, HasId, UniqueIds, SeparateTypes;
    var from, to := c.left as real, c.right as real;
    CountPositive(c.root);
    RebalancedOrdered(c.root, from, to);
    assert Round(from) == c.left && Round(to) == c.right;
    UpdatedCaches(policy, c);
  }

  lemma IdledOutSound(policy: P.Policy, c: Controller, k: Key)
    requires Sound(policy, c) && k in c.table && c.table[k].Forward?
    ensures Sound(policy, IdledOut(c, k))
  {
    var c' := IdledOut(c, k);
    assert forall rule :: Holds(c'.table, rule) ==> Holds(c.table, rule);
    assert forall rule :: Holds(c.table, rule) && rule.action.ToController? ==> Holds(c'.table, rule);
  }

  lemma CommittedSound(policy: P.Policy, c: Controller, c': Controller)
    requires Sound(policy, c)
    requires Committed(c, c') || (CanRebalance(c) && Committed(Updated(c), c'))
    ensures Sound(policy, c')
  {
    hide Agrees, Emits, Lookup, Rebalanced, WellMasked, OneField, HasFlow, HasId, UniqueIds, SeparateTypes, PrioOrdered;
    assert TableSafe(c'.table, c'.root, c'.flows.Keys);
    if CanRebalance(c) && Committed(Updated(c), c') { UpdatedTree(policy, c); }
  }

  lemma NextSound(policy: P.Policy, c: Controller, c': Controller)
    requires Sound(policy, c) && Next(policy, c, c')
    ensures Sound(policy, c')
  {
    if pkt :| c' == Missed(policy, c, pkt).0 {
      MissedSound(policy, c, pkt);
    } else if f :| c' == Expired(c, f) {
      ExpiredSound(policy, c, f);
    } else if k :| k in c.table && c.table[k].Forward? && c' == IdledOut(c, k) {
      IdledOutSound(policy, c, k);
    } else {
      CommittedSound(policy, c, c');
    }
  }

  ghost predicate IsRun(policy: P.Policy, run: seq<Controller>) {
    && run != [] && Init(run[0]) && run[0].left <= run[0].right
    && forall i :: 0 <= i < |run| - 1 ==> Next(policy, run[i], run[i + 1])
  }

  lemma {:induction false} RunSound(policy: P.Policy, run: seq<Controller>)
    requires IsRun(policy, run)
    ensures Sound(policy, run[|run| - 1])
    decreases |run|
  {
    if |run| == 1 {
      InitSound(policy, run[0]);
    } else {
      var before := run[..|run| - 1];
      RunSound(policy, before);
      assert Next(policy, run[|run| - 2], run[|run| - 1]);
      NextSound(policy, run[|run| - 2], run[|run| - 1]);
    }
  }

  /** Cache soundness, exactly. A flow that lookup finds for q is what the policy decides for q if and
      only if every field that the policy modifies on its way, or touches without asking for a bit of it,
      is one that q has. */
  lemma HitIsRight(policy: P.Policy, c: Controller, q: Packet)
    requires Caches(policy, c) && Lookup(c.root, q, c.flows.Keys).Hit?
    ensures var out, flow := P.Run(policy, q, map[]), Lookup(c.root, q, c.flows.Keys).flow;
            (out.Returned? && c.flows[flow] == FlowRecord(out.decision, out.mods)) <==> UntracedBound(policy, q)
  {
    Opening(q);
    HitExact(c.root, policy, TState(q, map[]), q, map[], c.flows);
    if UntracedBound(policy, q) {
      LookupSound(c.root, policy, TState(q, map[]), q, map[], c.flows);
    }
  }

  /** The end-to-end theorem. At any point of any run, a packet that the switch forwards by a flow rule
      gets the decision and the modifications that the policy itself has for that packet, exactly if it
      has every field that the tree asks for on its way, and that the policy modifies or touches without
      asking for a bit. This is so under the conjunctive reading of matches, and under the reading that
      fields() gives them for every policy whose rules have one field per type. */
  lemma SwitchFollowsPolicy(policy: P.Policy, run: seq<Controller>, q: Packet, k: Key)
    requires IsRun(policy, run)
    requires var c := run[|run| - 1];
             && k in c.table && c.table[k].Forward?
             && (Wins(c.table, q, k, HitsAll) || (SeparateTypes(policy) && Wins(c.table, q, k, HitsSome)))
    ensures var c, out := run[|run| - 1], P.Run(policy, q, map[]);
            && c.table[k].flow in c.flows
            && ((out.Returned? && c.flows[c.table[k].flow] == FlowRecord(out.decision, out.mods))
                <==> Lookup(c.root, q, c.flows.Keys) != OutOfRange && UntracedBound(policy, q))
  {
    RunSound(policy, run);
    var c, out := run[|run| - 1], P.Run(policy, q, map[]);
    hide PrioOrdered, WellMasked, Agrees, UntracedBound, OneField, P.Run, SeparateTypes;
    assert Holds(c.table, RuleAt(c.table, k));
    EmittedAlive(c.root, [], RuleAt(c.table, k), c.flows.Keys);
    if SeparateTypes(policy) { ReadingsAgree(c.table, c.root, q, c.flows.Keys, k); }
    if Lookup(c.root, q, c.flows.Keys) != OutOfRange {
      Dispatch(c.table, c.root, c.left, c.right, q, c.flows.Keys);
      HitIsRight(policy, c, q);
    } else if out.Returned? {
      Opening(q);
      LookupSound(c.root, policy, TState(q, map[]), q, map[], c.flows);
    }
  }

  lemma {:induction false} EmittedAlive(n: Node, ctx: seq<Field>, rule: Rule, alive: set<FlowId>)
    requires Emits(n, ctx, rule, alive)
    ensures rule.action.Forward? ==> rule.action.flow in alive
  {
    match n
    case Unexplored =>
    case FlowNode(_, _) =>
    case TestNode(need, positive, negative, _, _) =>
      if Emits(negative, ctx, rule, alive) {
        EmittedAlive(negative, ctx, rule, alive);
      } else if Emits(positive, Added(ctx, need), rule, alive) {
        EmittedAlive(positive, Added(ctx, need), rule, alive);
      }
    case LoadNode(mask, cases) =>
      var v :| v in cases && Emits(cases[v], Added(ctx, CaseField(mask, v)), rule, alive);
      EmittedAlive(cases[v], Added(ctx, CaseField(mask, v)), rule, alive);
  }

  /** Incremental equals batch over whole runs: without idle timeouts the table is at every point what
      compiling the whole tree gives. */
  lemma {:induction false} RunComplete(policy: P.Policy, run: seq<Controller>)
    requires IsRun(policy, run)
    requires forall i :: 0 <= i < |run| - 1 ==>
               !exists k :: k in run[i].table && run[i].table[k].Forward? && run[i + 1] == IdledOut(run[i], k)
    ensures var c := run[|run| - 1]; TableIs(c.table, c.root, c.flows.Keys)
    decreases |run|
  {
    if |run| == 1 {
      InitSound(policy, run[0]);
    } else {
      var c, c' := run[|run| - 2], run[|run| - 1];
      var before := run[..|run| - 1];
      forall i | 0 <= i < |before| - 1
        ensures !exists k ::
                k in before[i].table && before[i].table[k].Forward? && before[i + 1] == IdledOut(before[i], k)
      {
        assert before[i] == run[i] && before[i + 1] == run[i + 1];
      }
      RunComplete(policy, before);
      RunSound(policy, before);
      assert Next(policy, c, c');
      if pkt :| c' == Missed(policy, c, pkt).0 {
        MissedSound(policy, c, pkt);
      } else if f :| c' == Expired(c, f) {
        ExpiredSound(policy, c, f);
      }
    }
  }

  // ---------- capacity over runs ----------

  lemma GrowsHalved(policy: P.Policy, c: Controller, c': Controller)
    requires Halved(c.root, c.left, c.right) && Grows(policy, c, c')
    ensures Halved(c'.root, c.left, c.right) && c'.left == c.left && c'.right == c.right
  {
    hide Graft, Halved, Trace, InstallAll, Emits, Lookup;
    if pkt :| c' == Missed(policy, c, pkt).0 {
      if Lookup(c.root, pkt, c.flows.Keys) != OutOfRange {
        GraftKeepsHalved(c.root, TraceOf(policy, pkt).events, Ending(TraceOf(policy, pkt).outcome, StartFlow(c, pkt)),
                         c.left, c.right, [], c.nextId);
      }
    }
  }

  /** A run without rebalancing. */
  ghost predicate IsGrowth(policy: P.Policy, run: seq<Controller>) {
    && run != [] && Init(run[0]) && run[0].left <= run[0].right
    && forall i :: 0 <= i < |run| - 1 ==> Grows(policy, run[i], run[i + 1])
  }

  lemma {:induction false} RunHalved(policy: P.Policy, run: seq<Controller>)
    requires IsGrowth(policy, run)
    ensures var c := run[|run| - 1]; Halved(c.root, c.left, c.right) && c.left == run[0].left && c.right == run[0].right
    decreases |run|
  {
    if |run| > 1 {
      hide Halved, Grows, Caches, Init;
      RunHalved(policy, run[..|run| - 1]);
      assert Grows(policy, run[|run| - 2], run[|run| - 1]);
      GrowsHalved(policy, run[|run| - 2], run[|run| - 1]);
    }
  }

  /** At any point of any run without rebalancing, a range of 2^(d+1) has priorities for every packet on
      which the policy makes d new tests. */
  lemma RunCapacity(policy: P.Policy, run: seq<Controller>, pkt: Packet)
    requires IsGrowth(policy, run)
    requires run[0].right - run[0].left >= Pow2(TestCount(TraceOf(policy, pkt).events) + 1)
    ensures Missed(policy, run[|run| - 1], pkt).1 != Exceeded
  {
    hide Graft, Trace, InstallAll, Lookup, Halved, Caches, Pow2, TestCount, Grows;
    var c, es := run[|run| - 1], TraceOf(policy, pkt).events;
    assert forall i :: 0 <= i < |run| - 1 ==> Grows(policy, run[i], run[i + 1]) ==> Next(policy, run[i], run[i + 1]);
    RunSound(policy, run);
    RunHalved(policy, run);
    if Lookup(c.root, pkt, c.flows.Keys) != OutOfRange {
      MissedAgrees(policy, c, pkt);
      Capacity(c.root, es, Ending(TraceOf(policy, pkt).outcome, StartFlow(c, pkt)), c.left, c.right, [], c.nextId);
    }
  }
}
