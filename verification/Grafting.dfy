/** What TracerImpl makes of a trace: the tree with the trace grafted in, the barrier rules pushed on
    the way, and the rule that the installer then pushes. */
module Grafting {
  import opened Wrappers
  import opened Oxm
  import opened FieldSets
  import opened Tracing
  import opened TraceTrees

  datatype Status = Done | PriorityExceeded | InconsistentTrace

  datatype Grafted = Grafted(node: Node, barriers: seq<Rule>, installed: Option<Rule>, status: Status, nextId: nat)

  function Failed(n: Node, status: Status, id: nat): Grafted {
    Grafted(n, [], None, status, id)
  }

  function Middle(l: nat, r: nat): nat {
    (l + r) / 2
  }

  /** No priority is left strictly between l and r. */
  predicate Exceeded(l: nat, r: nat) {
    Middle(l, r) <= l || Middle(l, r) >= r
  }

  function Finish(n: Node, fin: Option<FlowId>, l: nat, r: nat, ctx: seq<Field>, id: nat): Grafted {
    if fin.None? then Failed(n, Done, id)
    else match n
      case Unexplored =>
        if Exceeded(l, r) then Failed(n, PriorityExceeded, id)
        else
          Grafted(FlowNode(fin.value, Middle(l, r)), [],
                  Some(Rule(Middle(l, r), Elements(ctx), Forward(fin.value))), Done, id)
      case FlowNode(_, prio) =>
        Grafted(FlowNode(fin.value, prio), [], Some(Rule(prio, Elements(ctx), Forward(fin.value))), Done, id)
      case _ => Failed(n, InconsistentTrace, id)
  }

  /** The existing child for a loaded value, or the unexplored one that the map inserts. */
  function Child(n: Node, v: Bits): Node {
    if n.LoadNode? && v in n.cases then n.cases[v] else Unexplored
  }

  function Cases(n: Node): map<Bits, Node> {
    if n.LoadNode? then n.cases else map[]
  }

  /** Grafting the remaining events at node n, reached with priorities (l, r) and match ctx. The trace
      ends with the flow fin, or without one when the policy throws. */
  function Graft(n: Node, es: seq<Event>, fin: Option<FlowId>, l: nat, r: nat, ctx: seq<Field>, id: nat): Grafted
    decreases |es|
  {
    if es == [] then Finish(n, fin, l, r, ctx, id)
    else match es[0]
      case Loaded(f) =>
        if n.Unexplored? || (n.LoadNode? && n.mask == MaskOf(f)) then
          var g := Graft(Child(n, f.value), es[1..], fin, l, r, Added(ctx, f), id);
          g.(node := LoadNode(MaskOf(f), Cases(n)[f.value := g.node]))
        else Failed(n, InconsistentTrace, id)
      case Tested(f, ret) =>
        if n.Unexplored? && Exceeded(l, r) then Failed(n, PriorityExceeded, id)
        else if n.Unexplored? || (n.TestNode? && n.need == f) then
          var t := if n.Unexplored? then TestNode(f, Unexplored, Unexplored, id, Middle(l, r)) else n;
          var pushed := if n.Unexplored? then [Rule(t.prio, Elements(Added(ctx, f)), ToController)] else [];
          var next := if n.Unexplored? then id + 1 else id;
          if ret then
            var g := Graft(t.positive, es[1..], fin, t.prio, r, Added(ctx, f), next);
            g.(node := t.(positive := g.node), barriers := pushed + g.barriers)
          else
            var g := Graft(t.negative, es[1..], fin, l, t.prio, ctx, next);
            g.(node := t.(negative := g.node), barriers := pushed + g.barriers)
        else Failed(n, InconsistentTrace, id)
  }

  // The same, one test at a time

  predicate CanTest(n: Node, f: Field, l: nat, r: nat) {
    (n.Unexplored? && !Exceeded(l, r)) || (n.TestNode? && n.need == f)
  }

  function TestFor(n: Node, f: Field, l: nat, r: nat, id: nat): (t: Node)
    requires CanTest(n, f, l, r)
    ensures t.TestNode? && t.need == f
  {
    if n.Unexplored? then TestNode(f, Unexplored, Unexplored, id, Middle(l, r)) else n
  }

  function NextId(n: Node, id: nat): nat {
    if n.Unexplored? then id + 1 else id
  }

  lemma GraftTested(n: Node, es: seq<Event>, fin: Option<FlowId>, l: nat, r: nat, ctx: seq<Field>, id: nat)
    requires es != [] && es[0].Tested?
    ensures var g, f := Graft(n, es, fin, l, r, ctx, id), es[0].f;
            if CanTest(n, f, l, r) then
              var t := TestFor(n, f, l, r, id);
              if es[0].ret then
                var g1 := Graft(t.positive, es[1..], fin, t.prio, r, Added(ctx, f), NextId(n, id));
                g.node == t.(positive := g1.node) && g.status == g1.status
              else
                var g1 := Graft(t.negative, es[1..], fin, l, t.prio, ctx, NextId(n, id));
                g.node == t.(negative := g1.node) && g.status == g1.status
            else g.node == n && (g.status == InconsistentTrace <==> !n.Unexplored?)
  {
  }

  // ---------- invariants that grafting keeps ----------

  lemma {:induction false} GraftKeepsPrios(n: Node, es: seq<Event>, fin: Option<FlowId>, l: nat, r: nat,
                                           ctx: seq<Field>, id: nat)
    requires PrioOrdered(n, l, r)
    ensures PrioOrdered(Graft(n, es, fin, l, r, ctx, id).node, l, r)
    decreases |es|
  {
    if es != [] {
      match es[0]
      case Loaded(f) =>
        GraftKeepsPrios(Child(n, f.value), es[1..], fin, l, r, Added(ctx, f), id);
      case Tested(f, ret) =>
        if n.Unexplored? && !Exceeded(l, r) {
          GraftKeepsPrios(Unexplored, es[1..], fin, Middle(l, r), r, Added(ctx, f), id + 1);
          GraftKeepsPrios(Unexplored, es[1..], fin, l, Middle(l, r), ctx, id + 1);
        } else if n.TestNode? {
          GraftKeepsPrios(n.positive, es[1..], fin, n.prio, r, Added(ctx, f), id);
          GraftKeepsPrios(n.negative, es[1..], fin, l, n.prio, ctx, id);
        }
    }
  }

  lemma {:induction false} GraftKeepsMasks(n: Node, es: seq<Event>, fin: Option<FlowId>, l: nat, r: nat,
                                           ctx: seq<Field>, id: nat)
    requires WellMasked(n, ctx) && NonRedundant(ctx, es)
    ensures WellMasked(Graft(n, es, fin, l, r, ctx, id).node, ctx)
    decreases |es|
  {
    if es != [] {
      AddedUnseen(ctx, es[0].f);
      match es[0]
      case Loaded(f) =>
        assert CaseField(MaskOf(f), f.value) == f by { assert f.value * f.mask == f.value; }
        if n.Unexplored? || (n.LoadNode? && n.mask == MaskOf(f)) {
          GraftKeepsMasks(Child(n, f.value), es[1..], fin, l, r, ctx + [f], id);
        }
      case Tested(f, ret) =>
        if n.Unexplored? && !Exceeded(l, r) {
          if ret { GraftKeepsMasks(Unexplored, es[1..], fin, Middle(l, r), r, ctx + [f], id + 1); }
          else { GraftKeepsMasks(Unexplored, es[1..], fin, l, Middle(l, r), ctx, id + 1); }
        } else if n.TestNode? && n.need == f {
          if ret { GraftKeepsMasks(n.positive, es[1..], fin, n.prio, r, ctx + [f], id); }
          else { GraftKeepsMasks(n.negative, es[1..], fin, l, n.prio, ctx, id); }
        }
    }
  }

  lemma {:induction false} GraftKeepsOneField(n: Node, es: seq<Event>, fin: Option<FlowId>, l: nat, r: nat,
                                              ctx: seq<Field>, id: nat)
    requires OneField(n, ctx) && NonRedundant(ctx, es) && Separate(ctx, es, fin.Some?)
    ensures OneField(Graft(n, es, fin, l, r, ctx, id).node, ctx)
    decreases |es|
  {
    if es != [] {
      AddedUnseen(ctx, es[0].f);
      match es[0]
      case Loaded(f) =>
        assert CaseField(MaskOf(f), f.value) == f by { assert f.value * f.mask == f.value; }
        if n.Unexplored? || (n.LoadNode? && n.mask == MaskOf(f)) {
          GraftKeepsOneField(Child(n, f.value), es[1..], fin, l, r, ctx + [f], id);
        }
      case Tested(f, ret) =>
        if n.Unexplored? && !Exceeded(l, r) {
          if ret { GraftKeepsOneField(Unexplored, es[1..], fin, Middle(l, r), r, ctx + [f], id + 1); }
          else { GraftKeepsOneField(Unexplored, es[1..], fin, l, Middle(l, r), ctx, id + 1); }
        } else if n.TestNode? && n.need == f {
          if ret { GraftKeepsOneField(n.positive, es[1..], fin, n.prio, r, ctx + [f], id); }
          else { GraftKeepsOneField(n.negative, es[1..], fin, l, n.prio, ctx, id); }
        }
    }
  }

  /** n' has the ids of n and besides only ids from low up to, not including, high. */
  ghost predicate NewIds(n: Node, n': Node, low: int, high: int) {
    && (forall i :: HasId(n, i) ==> HasId(n', i))
    && (forall i :: HasId(n', i) ==> HasId(n, i) || low <= i < high)
  }

  /** Test ids stay unique: new ones come from the counter, which all old ones are below. */
  lemma {:induction false} GraftKeepsIds(n: Node, es: seq<Event>, fin: Option<FlowId>, l: nat, r: nat,
                                         ctx: seq<Field>, id: nat)
    requires UniqueIds(n) && NonEmptyLoads(n) && IdsBelow(n, id)
    ensures var g := Graft(n, es, fin, l, r, ctx, id);
            g.nextId >= id && UniqueIds(g.node) && NonEmptyLoads(g.node) && NewIds(n, g.node, id, g.nextId)
    decreases |es|
  {
    if es != [] {
      match es[0]
      case Loaded(f) =>
        if n.Unexplored? || (n.LoadNode? && n.mask == MaskOf(f)) {
          var child := Child(n, f.value);
          assert IdsBelow(child, id) by {
            assert forall i :: HasId(child, i) ==> HasId(n, i);
          }
          GraftKeepsIds(child, es[1..], fin, l, r, Added(ctx, f), id);
          LoadKeepsIds(n, MaskOf(f), f.value, Graft(child, es[1..], fin, l, r, Added(ctx, f), id), id);
        }
      case Tested(f, ret) =>
        if n.Unexplored? && !Exceeded(l, r) {
          if ret { GraftKeepsIds(Unexplored, es[1..], fin, Middle(l, r), r, Added(ctx, f), id + 1); }
          else { GraftKeepsIds(Unexplored, es[1..], fin, l, Middle(l, r), ctx, id + 1); }
        } else if n.TestNode? && n.need == f {
          assert IdsBelow(n.positive, id) && IdsBelow(n.negative, id) by {
            assert forall i :: HasId(n.positive, i) || HasId(n.negative, i) ==> HasId(n, i);
          }
          if ret {
            GraftKeepsIds(n.positive, es[1..], fin, n.prio, r, Added(ctx, f), id);
            TestKeepsIds(n, ret, Graft(n.positive, es[1..], fin, n.prio, r, Added(ctx, f), id), id);
          } else {
            GraftKeepsIds(n.negative, es[1..], fin, l, n.prio, ctx, id);
            TestKeepsIds(n, ret, Graft(n.negative, es[1..], fin, l, n.prio, ctx, id), id);
          }
        }
    }
  }

  lemma TestKeepsIds(n: Node, ret: bool, g: Grafted, id: nat)
    requires n.TestNode? && UniqueIds(n) && NonEmptyLoads(n) && IdsBelow(n, id)
    requires UniqueIds(g.node) && NonEmptyLoads(g.node)
    requires NewIds(if ret then n.positive else n.negative, g.node, id, g.nextId)
    ensures var n' := if ret then n.(positive := g.node) else n.(negative := g.node);
            UniqueIds(n') && NonEmptyLoads(n') && NewIds(n, n', id, g.nextId)
  {
    var n' := if ret then n.(positive := g.node) else n.(negative := g.node);
    assert HasId(n, n.id);
    assert forall i :: HasId(n.positive, i) ==> HasId(n, i);
    assert forall i :: HasId(n.negative, i) ==> HasId(n, i);
    assert forall i :: HasId(n, i) <==> i == n.id || HasId(n.positive, i) || HasId(n.negative, i);
    assert forall i :: HasId(n', i) <==> i == n.id || HasId(n'.positive, i) || HasId(n'.negative, i);
  }

  lemma LoadKeepsIds(n: Node, mask: Mask, v: Bits, g: Grafted, id: nat)
    requires n.Unexplored? || n.LoadNode?
    requires UniqueIds(n) && NonEmptyLoads(n) && IdsBelow(n, id)
    requires UniqueIds(g.node) && NonEmptyLoads(g.node) && NewIds(Child(n, v), g.node, id, g.nextId)
    ensures var n' := LoadNode(mask, Cases(n)[v := g.node]);
            UniqueIds(n') && NonEmptyLoads(n') && NewIds(n, n', id, g.nextId)
  {
    var n' := LoadNode(mask, Cases(n)[v := g.node]);
    assert v in n'.cases;
    forall w, u, i | w in n'.cases && u in n'.cases && w != u && HasId(n'.cases[w], i)
      ensures !HasId(n'.cases[u], i)
    {
      assert w != v ==> HasId(n, i);
      assert u != v && HasId(n'.cases[u], i) ==> HasId(n, i);
    }
    forall i | HasId(n, i) ensures HasId(n', i) {
      var w :| w in n.cases && HasId(n.cases[w], i);
      assert HasId(n'.cases[w], i);
    }
  }

  lemma {:induction false} GraftFlows(n: Node, es: seq<Event>, fin: Option<FlowId>, l: nat, r: nat, ctx: seq<Field>,
                                      id: nat, f: FlowId)
    requires HasFlow(Graft(n, es, fin, l, r, ctx, id).node, f)
    ensures HasFlow(n, f) || (fin == Some(f) && Graft(n, es, fin, l, r, ctx, id).status == Done)
    decreases |es|
  {
    if es != [] {
      match es[0]
      case Loaded(e) =>
        if n.Unexplored? || (n.LoadNode? && n.mask == MaskOf(e)) {
          if HasFlow(Graft(Child(n, e.value), es[1..], fin, l, r, Added(ctx, e), id).node, f) {
            GraftFlows(Child(n, e.value), es[1..], fin, l, r, Added(ctx, e), id, f);
          }
        }
      case Tested(e, ret) =>
        if n.Unexplored? && !Exceeded(l, r) {
          if ret { GraftFlows(Unexplored, es[1..], fin, Middle(l, r), r, Added(ctx, e), id + 1, f); }
          else { GraftFlows(Unexplored, es[1..], fin, l, Middle(l, r), ctx, id + 1, f); }
        } else if n.TestNode? && n.need == e {
          if ret && HasFlow(Graft(n.positive, es[1..], fin, n.prio, r, Added(ctx, e), id).node, f) {
            GraftFlows(n.positive, es[1..], fin, n.prio, r, Added(ctx, e), id, f);
          } else if !ret && HasFlow(Graft(n.negative, es[1..], fin, l, n.prio, ctx, id).node, f) {
            GraftFlows(n.negative, es[1..], fin, l, n.prio, ctx, id, f);
          }
        }
    }
  }

  /** The trace ends at the leaf of flow f. */
  predicate EndsAt(n: Node, es: seq<Event>, f: FlowId)
    decreases |es|
  {
    if es == [] then n.FlowNode? && n.flow == f
    else match es[0]
      case Loaded(e) => n.LoadNode? && n.mask == MaskOf(e) && e.value in n.cases && EndsAt(n.cases[e.value], es[1..], f)
      case Tested(e, ret) => n.TestNode? && n.need == e && EndsAt(if ret then n.positive else n.negative, es[1..], f)
  }

  lemma {:induction false} EndsAtHas(n: Node, es: seq<Event>, f: FlowId)
    requires EndsAt(n, es, f)
    ensures HasFlow(n, f)
    decreases |es|
  {
    if es != [] {
      match es[0]
      case Loaded(e) => EndsAtHas(n.cases[e.value], es[1..], f);
      case Tested(_, ret) => EndsAtHas(if ret then n.positive else n.negative, es[1..], f);
    }
  }

  /** A trace of q that can be finished ends at the flow that lookup finds for q. */
  lemma {:induction false} OwnEnd(n: Node, es: seq<Event>, fin: Option<FlowId>, l: nat, r: nat, ctx: seq<Field>,
                                  id: nat, q: Packet, alive: set<FlowId>)
    requires forall e :: e in es ==> EventHolds(q, e)
    requires Lookup(n, q, alive).Hit? && fin.Some? && Graft(n, es, fin, l, r, ctx, id).status != InconsistentTrace
    ensures EndsAt(n, es, Lookup(n, q, alive).flow)
    decreases |es|
  {
    if es != [] {
      assert EventHolds(q, es[0]);
      match es[0]
      case Loaded(e) => OwnEnd(Child(n, e.value), es[1..], fin, l, r, Added(ctx, e), id, q, alive);
      case Tested(e, ret) =>
        GraftTested(n, es, fin, l, r, ctx, id);
        if ret { OwnEnd(n.positive, es[1..], fin, n.prio, r, Added(ctx, e), id, q, alive); }
        else { OwnEnd(n.negative, es[1..], fin, l, n.prio, ctx, id, q, alive); }
    }
  }

  /** Flows stay at one leaf each: the flow of the trace is new to the tree, or its leaf is where it ends. */
  lemma {:induction false} GraftKeepsFlows(n: Node, es: seq<Event>, fin: Option<FlowId>, l: nat, r: nat,
                                           ctx: seq<Field>, id: nat)
    requires UniqueFlows(n) && (fin.Some? && HasFlow(n, fin.value) ==> EndsAt(n, es, fin.value))
    ensures UniqueFlows(Graft(n, es, fin, l, r, ctx, id).node)
    decreases |es|
  {
    if es != [] {
      match es[0]
      case Loaded(e) =>
        if n.Unexplored? || (n.LoadNode? && n.mask == MaskOf(e)) {
          var child, g := Child(n, e.value), Graft(Child(n, e.value), es[1..], fin, l, r, Added(ctx, e), id);
          GraftKeepsFlows(child, es[1..], fin, l, r, Added(ctx, e), id);
          forall f: FlowId | HasFlow(g.node, f) ensures HasFlow(child, f) || fin == Some(f) {
            GraftFlows(child, es[1..], fin, l, r, Added(ctx, e), id, f);
          }
          LoadKeepsFlows(n, MaskOf(e), e.value, g.node, fin, es);
        }
      case Tested(e, ret) =>
        if CanTest(n, e, l, r) {
          var t := TestFor(n, e, l, r, id);
          var branch, ctx' := if ret then t.positive else t.negative, if ret then Added(ctx, e) else ctx;
          var l', r' := if ret then t.prio else l, if ret then r else t.prio;
          var g := Graft(branch, es[1..], fin, l', r', ctx', NextId(n, id));
          GraftTested(n, es, fin, l, r, ctx, id);
          GraftKeepsFlows(branch, es[1..], fin, l', r', ctx', NextId(n, id));
          forall f: FlowId | HasFlow(g.node, f) ensures HasFlow(branch, f) || fin == Some(f) {
            GraftFlows(branch, es[1..], fin, l', r', ctx', NextId(n, id), f);
          }
          if fin.Some? && HasFlow(n, fin.value) {
            EndsAtHas(branch, es[1..], fin.value);
          }
        } else {
          GraftTested(n, es, fin, l, r, ctx, id);
        }
    }
  }

  lemma LoadKeepsFlows(n: Node, mask: Mask, v: Bits, child: Node, fin: Option<FlowId>, es: seq<Event>)
    requires n.Unexplored? || n.LoadNode?
    requires UniqueFlows(n) && UniqueFlows(child) && es != [] && es[0].Loaded? && es[0].f.value == v
    requires fin.Some? && HasFlow(n, fin.value) ==> EndsAt(n, es, fin.value)
    requires forall f: FlowId :: HasFlow(child, f) ==> HasFlow(Child(n, v), f) || fin == Some(f)
    ensures UniqueFlows(LoadNode(mask, Cases(n)[v := child]))
  {
    var cases := Cases(n)[v := child];
    if fin.Some? && HasFlow(n, fin.value) {
      EndsAtHas(n.cases[v], es[1..], fin.value);
    }
    assert n.LoadNode? ==> forall w, f :: w in n.cases && HasFlow(n.cases[w], f) ==> HasFlow(n, f);
    forall w, f | w in cases && w != v && HasFlow(child, f) ensures !HasFlow(cases[w], f) {
      assert cases[w] == n.cases[w];
    }
  }

  // ---------- lookups and emitted rules ----------

  /** The trace does not end at a live flow other than its own. */
  predicate Replaceable(n: Node, es: seq<Event>, fin: Option<FlowId>, alive: set<FlowId>)
    decreases |es|
  {
    if es == [] then fin.Some? && n.FlowNode? ==> n.flow == fin.value || n.flow !in alive
    else match es[0]
      case Loaded(f) =>
        n.LoadNode? && n.mask == MaskOf(f) ==> Replaceable(Child(n, f.value), es[1..], fin, alive)
      case Tested(f, ret) =>
        n.TestNode? && n.need == f ==> Replaceable(if ret then n.positive else n.negative, es[1..], fin, alive)
  }

  /** The flow that lookup finds for q sits where a trace of q ends. */
  lemma {:induction false} OwnLeaf(n: Node, es: seq<Event>, fin: Option<FlowId>, q: Packet, alive: set<FlowId>)
    requires forall e :: e in es ==> EventHolds(q, e)
    requires Lookup(n, q, alive).Hit? && fin.Some? ==> fin.value == Lookup(n, q, alive).flow
    ensures Replaceable(n, es, fin, alive)
    decreases |es|
  {
    if es != [] {
      match es[0]
      case Loaded(f) =>
        if n.LoadNode? && n.mask == MaskOf(f) {
          assert EventHolds(q, es[0]);
          OwnLeaf(Child(n, f.value), es[1..], fin, q, alive);
        }
      case Tested(f, ret) =>
        if n.TestNode? && n.need == f {
          assert EventHolds(q, es[0]);
          OwnLeaf(if ret then n.positive else n.negative, es[1..], fin, q, alive);
        }
    }
  }

  /** After the trace of q has been grafted, q is answered from the tree. */
  lemma {:induction false} GraftCaches(n: Node, es: seq<Event>, fin: Option<FlowId>, l: nat, r: nat, ctx: seq<Field>,
                                       id: nat, q: Packet, alive: set<FlowId>)
    requires forall e :: e in es ==> EventHolds(q, e)
    requires fin.Some? && fin.value in alive && Graft(n, es, fin, l, r, ctx, id).status == Done
    ensures Lookup(Graft(n, es, fin, l, r, ctx, id).node, q, alive) == Hit(fin.value)
    decreases |es|
  {
    if es != [] {
      assert EventHolds(q, es[0]);
      match es[0]
      case Loaded(f) =>
        GraftCaches(Child(n, f.value), es[1..], fin, l, r, Added(ctx, f), id, q, alive);
      case Tested(f, ret) =>
        if n.Unexplored? {
          if ret { GraftCaches(Unexplored, es[1..], fin, Middle(l, r), r, Added(ctx, f), id + 1, q, alive); }
          else { GraftCaches(Unexplored, es[1..], fin, l, Middle(l, r), ctx, id + 1, q, alive); }
        } else {
          if ret { GraftCaches(n.positive, es[1..], fin, n.prio, r, Added(ctx, f), id, q, alive); }
          else { GraftCaches(n.negative, es[1..], fin, l, n.prio, ctx, id, q, alive); }
        }
    }
  }

  lemma {:induction false} LookupHas(n: Node, q: Packet, alive: set<FlowId>)
    requires Lookup(n, q, alive).Hit?
    ensures HasFlow(n, Lookup(n, q, alive).flow)
  {
    match n
    case FlowNode(_, _) =>
    case TestNode(need, positive, negative, _, _) =>
      if Hits(q, need) { LookupHas(positive, q, alive); } else { LookupHas(negative, q, alive); }
    case LoadNode(mask, cases) => LookupHas(cases[LoadBits(q, mask).value], q, alive);
  }

  /** Only the packets of which the whole trace holds are answered with the flow that it brings. */
  lemma {:induction false} GraftReaches(n: Node, es: seq<Event>, fin: Option<FlowId>, l: nat, r: nat, ctx: seq<Field>,
                                        id: nat, q: Packet, alive: set<FlowId>)
    requires fin.Some? && !HasFlow(n, fin.value)
    requires Lookup(Graft(n, es, fin, l, r, ctx, id).node, q, alive) == Hit(fin.value)
    ensures forall e :: e in es ==> EventHolds(q, e)
    decreases |es|
  {
    if es != [] {
      match es[0]
      case Loaded(f) =>
        if !(n.Unexplored? || (n.LoadNode? && n.mask == MaskOf(f))) {
          LookupHas(n, q, alive);
        } else if LoadBits(q, MaskOf(f)).value == f.value {
          GraftReaches(Child(n, f.value), es[1..], fin, l, r, Added(ctx, f), id, q, alive);
        } else {
          LookupHas(n.cases[LoadBits(q, MaskOf(f)).value], q, alive);
        }
      case Tested(f, ret) =>
        if !CanTest(n, f, l, r) {
          LookupHas(n, q, alive);
        } else {
          var t := TestFor(n, f, l, r, id);
          if ret != Hits(q, f) {
            LookupHas(if ret then t.negative else t.positive, q, alive);
          } else if ret {
            GraftReaches(t.positive, es[1..], fin, t.prio, r, Added(ctx, f), NextId(n, id), q, alive);
          } else {
            GraftReaches(t.negative, es[1..], fin, l, t.prio, ctx, NextId(n, id), q, alive);
          }
        }
    }
  }

  /** Where lookup finds a flow there is nothing left to explore, so no priority is asked for. */
  lemma {:induction false} HitNeverExceeds(n: Node, es: seq<Event>, fin: Option<FlowId>, l: nat, r: nat,
                                           ctx: seq<Field>, id: nat, q: Packet, alive: set<FlowId>)
    requires forall e :: e in es ==> EventHolds(q, e)
    requires Lookup(n, q, alive).Hit?
    ensures Graft(n, es, fin, l, r, ctx, id).status != PriorityExceeded
    decreases |es|
  {
    if es != [] {
      assert EventHolds(q, es[0]);
      match es[0]
      case Loaded(f) =>
        if n.LoadNode? && n.mask == MaskOf(f) {
          HitNeverExceeds(Child(n, f.value), es[1..], fin, l, r, Added(ctx, f), id, q, alive);
        }
      case Tested(f, ret) =>
        if n.TestNode? && n.need == f {
          if ret { HitNeverExceeds(n.positive, es[1..], fin, n.prio, r, Added(ctx, f), id, q, alive); }
          else { HitNeverExceeds(n.negative, es[1..], fin, l, n.prio, ctx, id, q, alive); }
        }
    }
  }

  /** Grafting never changes an answer that the tree already gave. */
  lemma {:induction false} GraftKeepsAnswers(n: Node, es: seq<Event>, fin: Option<FlowId>, l: nat, r: nat,
                                             ctx: seq<Field>, id: nat, q: Packet, alive: set<FlowId>)
    requires Replaceable(n, es, fin, alive) && Lookup(n, q, alive) != Miss
    ensures Lookup(Graft(n, es, fin, l, r, ctx, id).node, q, alive) == Lookup(n, q, alive)
    decreases |es|
  {
    if es != [] {
      match es[0]
      case Loaded(f) =>
        if n.LoadNode? && n.mask == MaskOf(f) && f.t in q && LoadBits(q, n.mask).value == f.value
          && f.value in n.cases {
          GraftKeepsAnswers(n.cases[f.value], es[1..], fin, l, r, Added(ctx, f), id, q, alive);
        }
      case Tested(f, ret) =>
        if n.TestNode? && n.need == f && f.t in q && ret == Hits(q, f) {
          if ret { GraftKeepsAnswers(n.positive, es[1..], fin, n.prio, r, Added(ctx, f), id, q, alive); }
          else { GraftKeepsAnswers(n.negative, es[1..], fin, l, n.prio, ctx, id, q, alive); }
        }
    }
  }

  /** Whatever leaf a trace replaces, the packets that were answered before are answered as before or by the
      installed flow. */
  lemma {:induction false} GraftTakesOver(n: Node, es: seq<Event>, fin: Option<FlowId>, l: nat, r: nat,
                                          ctx: seq<Field>, id: nat, q: Packet, alive: set<FlowId>)
    requires Lookup(n, q, alive) != Miss && (fin.Some? ==> fin.value in alive)
    ensures var g := Graft(n, es, fin, l, r, ctx, id);
            || Lookup(g.node, q, alive) == Lookup(n, q, alive)
            || (fin.Some? && g.installed.Some? && Lookup(g.node, q, alive) == Hit(fin.value))
    decreases |es|
  {
    if es != [] {
      match es[0]
      case Loaded(f) =>
        if n.LoadNode? && n.mask == MaskOf(f) && f.t in q && LoadBits(q, n.mask).value == f.value
          && f.value in n.cases {
          GraftTakesOver(n.cases[f.value], es[1..], fin, l, r, Added(ctx, f), id, q, alive);
        }
      case Tested(f, ret) =>
        if n.TestNode? && n.need == f && f.t in q && ret == Hits(q, f) {
          if ret { GraftTakesOver(n.positive, es[1..], fin, n.prio, r, Added(ctx, f), id, q, alive); }
          else { GraftTakesOver(n.negative, es[1..], fin, l, n.prio, ctx, id, q, alive); }
        }
    }
  }

  /** The barriers pushed are barriers, and the rule installed forwards to the trace's flow. */
  lemma {:induction false} PushedActions(n: Node, es: seq<Event>, fin: Option<FlowId>, l: nat, r: nat, ctx: seq<Field>,
                                         id: nat)
    ensures var g := Graft(n, es, fin, l, r, ctx, id);
            && (forall b :: b in g.barriers ==> b.action == ToController)
            && (g.installed.Some? ==> fin.Some? && g.installed.value.action == Forward(fin.value))
    decreases |es|
  {
    if es != [] {
      match es[0]
      case Loaded(f) =>
        PushedActions(Child(n, f.value), es[1..], fin, l, r, Added(ctx, f), id);
      case Tested(f, ret) =>
        if n.Unexplored? && !Exceeded(l, r) {
          PushedActions(Unexplored, es[1..], fin, Middle(l, r), r, Added(ctx, f), id + 1);
          PushedActions(Unexplored, es[1..], fin, l, Middle(l, r), ctx, id + 1);
        } else if n.TestNode? {
          PushedActions(n.positive, es[1..], fin, n.prio, r, Added(ctx, f), id);
          PushedActions(n.negative, es[1..], fin, l, n.prio, ctx, id);
        }
    }
  }

  ghost predicate Pushes(g: Grafted, rule: Rule) {
    rule in g.barriers || g.installed == Some(rule)
  }

  /** Incremental equals batch: compiling the grafted tree emits what compiling the old tree emitted,
      the barrier rules pushed while tracing, and the rule the installer pushes; nothing else. This
      holds also for a trace cut short. */
  lemma {:induction false} GraftEmits(n: Node, es: seq<Event>, fin: Option<FlowId>, l: nat, r: nat, ctx: seq<Field>,
                                      id: nat, rule: Rule, alive: set<FlowId>)
    requires Replaceable(n, es, fin, alive) && (fin.Some? ==> fin.value in alive)
    ensures var g := Graft(n, es, fin, l, r, ctx, id);
            Emits(g.node, ctx, rule, alive) <==> Emits(n, ctx, rule, alive) || Pushes(g, rule)
    decreases |es|
  {
    if es != [] {
      match es[0]
      case Loaded(f) =>
        if n.Unexplored? || (n.LoadNode? && n.mask == MaskOf(f)) {
          var child := Child(n, f.value);
          var g := Graft(child, es[1..], fin, l, r, Added(ctx, f), id);
          assert Replaceable(child, es[1..], fin, alive) by {
            if n.Unexplored? { UnexploredReplaceable(es[1..], fin, alive); }
          }
          GraftEmits(child, es[1..], fin, l, r, Added(ctx, f), id, rule, alive);
          LoadEmits(n, ctx, f, g.node, rule, alive);
        }
      case Tested(f, ret) =>
        if n.Unexplored? && !Exceeded(l, r) {
          UnexploredReplaceable(es[1..], fin, alive);
          if ret { GraftEmits(Unexplored, es[1..], fin, Middle(l, r), r, Added(ctx, f), id + 1, rule, alive); }
          else { GraftEmits(Unexplored, es[1..], fin, l, Middle(l, r), ctx, id + 1, rule, alive); }
        } else if n.TestNode? && n.need == f {
          if ret { GraftEmits(n.positive, es[1..], fin, n.prio, r, Added(ctx, f), id, rule, alive); }
          else { GraftEmits(n.negative, es[1..], fin, l, n.prio, ctx, id, rule, alive); }
        }
    }
  }

  lemma {:induction false} UnexploredReplaceable(es: seq<Event>, fin: Option<FlowId>, alive: set<FlowId>)
    ensures Replaceable(Unexplored, es, fin, alive)
  {
  }

  lemma LoadEmits(n: Node, ctx: seq<Field>, f: Field, child: Node, rule: Rule, alive: set<FlowId>)
    requires n.Unexplored? || (n.LoadNode? && n.mask == MaskOf(f))
    ensures var n' := LoadNode(MaskOf(f), Cases(n)[f.value := child]);
            Emits(n', ctx, rule, alive) <==>
            || Emits(child, Added(ctx, f), rule, alive)
            || (exists v ::
                v in Cases(n) && v != f.value && Emits(Cases(n)[v], Added(ctx, CaseField(MaskOf(f), v)), rule, alive))
    ensures Emits(n, ctx, rule, alive) <==>
            || Emits(Child(n, f.value), Added(ctx, f), rule, alive)
            || (exists v ::
                v in Cases(n) && v != f.value && Emits(Cases(n)[v], Added(ctx, CaseField(MaskOf(f), v)), rule, alive))
  {
    assert CaseField(MaskOf(f), f.value) == f by { assert f.value * f.mask == f.value; }
    var n' := LoadNode(MaskOf(f), Cases(n)[f.value := child]);
    assert f.value in n'.cases;
  }
}
