/** The trace tree of src/maple/TraceTree.cc: lookup, the rules it stands for, and what grafting a
    trace into it does. */
module TraceTrees {
  import opened Wrappers
  import opened Sequences
  import opened Oxm
  import opened FieldSets
  import opened Tracing

  type FlowId = nat

  datatype Node =
    | Unexplored
    | FlowNode(flow: FlowId, prio: nat)
    | TestNode(need: Field, positive: Node, negative: Node, id: nat, prio: nat)
    | LoadNode(mask: Mask, cases: map<Bits, Node>)

  /** A rule that the backend is asked for. The pattern is the included half of the match. */
  datatype Action = ToController | Forward(flow: FlowId)
  datatype Rule = Rule(prio: nat, pattern: set<Field>, action: Action)

  // ---------- lookup ----------

  datatype LookupResult = OutOfRange | Miss | Hit(flow: FlowId)

  /** A flow node holds a weak pointer: it answers only while its flow is alive. */
  function Lookup(n: Node, q: Packet, alive: set<FlowId>): (found: LookupResult)
    ensures found.Hit? ==> found.flow in alive
  {
    match n
    case Unexplored => Miss
    case FlowNode(flow, _) => if flow in alive then Hit(flow) else Miss
    case TestNode(need, positive, negative, _, _) =>
      if need.t !in q then OutOfRange
      else if Hits(q, need) then Lookup(positive, q, alive) else Lookup(negative, q, alive)
    case LoadNode(mask, cases) =>
      if mask.t !in q then OutOfRange
      else
        var v := LoadBits(q, mask).value;
        if v in cases then Lookup(cases[v], q, alive) else Miss
  }

  // ---------- the rules of a tree ----------

  /** (type == value) & mask */
  function CaseField(mask: Mask, v: Bits): Field {
    Select(mask.t, v, mask)
  }

  /** The rules that compiling n in the context ctx emits. */
  ghost predicate Emits(n: Node, ctx: seq<Field>, rule: Rule, alive: set<FlowId>) {
    match n
    case Unexplored => false
    case FlowNode(flow, prio) => flow in alive && rule == Rule(prio, Elements(ctx), Forward(flow))
    case TestNode(need, positive, negative, _, prio) =>
      || Emits(negative, ctx, rule, alive)
      || rule == Rule(prio, Elements(Added(ctx, need)), ToController)
      || Emits(positive, Added(ctx, need), rule, alive)
    case LoadNode(mask, cases) =>
      exists v :: v in cases && Emits(cases[v], Added(ctx, CaseField(mask, v)), rule, alive)
  }

  // ---------- tree invariants ----------

  /** Priorities: negative subtree < test < positive subtree, strictly inside (l, r). */
  predicate PrioOrdered(n: Node, l: int, r: int) {
    match n
    case Unexplored => true
    case FlowNode(_, prio) => l < prio < r
    case TestNode(_, positive, negative, _, prio) =>
      l < prio < r && PrioOrdered(negative, l, prio) && PrioOrdered(positive, prio, r)
    case LoadNode(_, cases) => forall v :: v in cases ==> PrioOrdered(cases[v], l, r)
  }

  /** Along each path every field traces something new. */
  predicate WellMasked(n: Node, ctx: seq<Field>) {
    match n
    case Unexplored => true
    case FlowNode(_, _) => true
    case TestNode(need, positive, negative, _, _) =>
      Unseen(ctx, need) && WellMasked(negative, ctx) && WellMasked(positive, ctx + [need])
    case LoadNode(mask, cases) =>
      forall v :: v in cases ==>
        v <= mask.bits && Unseen(ctx, CaseField(mask, v)) && WellMasked(cases[v], ctx + [CaseField(mask, v)])
  }

  /** The match of every rule that the tree can emit has one field per type. */
  predicate OneField(n: Node, ctx: seq<Field>) {
    match n
    case Unexplored => true
    case FlowNode(_, _) => OnePerType(Elements(ctx))
    case TestNode(need, positive, negative, _, _) =>
      OnePerType(Elements(ctx + [need])) && OneField(negative, ctx) && OneField(positive, ctx + [need])
    case LoadNode(mask, cases) => forall v :: v in cases ==> OneField(cases[v], ctx + [CaseField(mask, v)])
  }

  predicate NonEmptyLoads(n: Node) {
    match n
    case Unexplored => true
    case FlowNode(_, _) => true
    case TestNode(_, positive, negative, _, _) => NonEmptyLoads(positive) && NonEmptyLoads(negative)
    case LoadNode(_, cases) => cases != map[] && forall v :: v in cases ==> NonEmptyLoads(cases[v])
  }

  ghost predicate HasId(n: Node, i: int) {
    match n
    case Unexplored => false
    case FlowNode(_, _) => false
    case TestNode(_, positive, negative, id, _) => i == id || HasId(positive, i) || HasId(negative, i)
    case LoadNode(_, cases) => exists v :: v in cases && HasId(cases[v], i)
  }

  ghost predicate IdsBelow(n: Node, bound: int) {
    forall i :: HasId(n, i) ==> i < bound
  }

  ghost predicate UniqueIds(n: Node) {
    match n
    case Unexplored => true
    case FlowNode(_, _) => true
    case TestNode(_, positive, negative, id, _) =>
      && !HasId(positive, id) && !HasId(negative, id)
      && (forall i :: HasId(positive, i) ==> !HasId(negative, i))
      && UniqueIds(positive) && UniqueIds(negative)
    case LoadNode(_, cases) =>
      && (forall v :: v in cases ==> UniqueIds(cases[v]))
      && (forall v, w, i :: v in cases && w in cases && v != w && HasId(cases[v], i) ==> !HasId(cases[w], i))
  }

  ghost predicate HasFlow(n: Node, f: FlowId) {
    match n
    case Unexplored => false
    case FlowNode(flow, _) => flow == f
    case TestNode(_, positive, negative, _, _) => HasFlow(positive, f) || HasFlow(negative, f)
    case LoadNode(_, cases) => exists v :: v in cases && HasFlow(cases[v], f)
  }

  /** No flow sits at two leaves. */
  ghost predicate UniqueFlows(n: Node) {
    match n
    case Unexplored => true
    case FlowNode(_, _) => true
    case TestNode(_, positive, negative, _, _) =>
      && (forall f :: HasFlow(positive, f) ==> !HasFlow(negative, f))
      && UniqueFlows(positive) && UniqueFlows(negative)
    case LoadNode(_, cases) =>
      && (forall v :: v in cases ==> UniqueFlows(cases[v]))
      && (forall v, w, f :: v in cases && w in cases && v != w && HasFlow(cases[v], f) ==> !HasFlow(cases[w], f))
  }

  // ---------- adding and erasing along a path ----------

  /** A field that traces something new is appended, and erasing its mask removes it again. */
  lemma AddedUnseen(ctx: seq<Field>, f: Field)
    requires Unseen(ctx, f)
    ensures Added(ctx, f) == ctx + [f]
    ensures Stripped(ctx + [f], MaskOf(f)) == ctx
    ensures Elements(ctx + [f]) == Elements(ctx) + {f}
  {
    AddFromUnseen(ctx, 0, f);
    StripUnseen(ctx, 0, f);
  }

  lemma {:induction false} AddFromUnseen(ctx: seq<Field>, i: nat, f: Field)
    requires i <= |ctx| && Unseen(ctx, f)
    ensures AddFrom(ctx, i, f) == ctx + [f]
    decreases |ctx| - i
  {
    if i < |ctx| {
      assert ctx[i] in ctx;
      AddFromUnseen(ctx, i + 1, f);
    }
  }

  lemma {:induction false} StripUnseen(ctx: seq<Field>, i: nat, f: Field)
    requires i <= |ctx| && Unseen(ctx, f)
    ensures StripFrom(ctx + [f], i, MaskOf(f)) == ctx
    decreases |ctx| - i
  {
    var s, m := ctx + [f], MaskOf(f);
    if i < |ctx| {
      var e := ctx[i];
      assert e in ctx && s[i] == e;
      if e.t == f.t {
        assert e.mask * Complement(m).bits == e.mask && e.value * e.mask == e.value;
        assert Widen(e, Complement(m)) == e;
        assert s[i := e] == s;
      }
      StripUnseen(ctx, i + 1, f);
    } else {
      assert f.mask * Complement(m).bits == {};
      assert Without(s, i) == ctx;
    }
  }

  // ---------- the table order of a tree ----------

  lemma {:induction false} EmittedPrio(n: Node, ctx: seq<Field>, l: int, r: int, rule: Rule, alive: set<FlowId>)
    requires PrioOrdered(n, l, r) && Emits(n, ctx, rule, alive)
    ensures l < rule.prio < r
  {
    match n
    case Unexplored =>
    case FlowNode(_, _) =>
    case TestNode(need, positive, negative, _, prio) =>
      if Emits(negative, ctx, rule, alive) {
        EmittedPrio(negative, ctx, l, prio, rule, alive);
      } else if Emits(positive, Added(ctx, need), rule, alive) {
        EmittedPrio(positive, Added(ctx, need), prio, r, rule, alive);
      }
    case LoadNode(mask, cases) =>
      var v :| v in cases && Emits(cases[v], Added(ctx, CaseField(mask, v)), rule, alive);
      EmittedPrio(cases[v], Added(ctx, CaseField(mask, v)), l, r, rule, alive);
  }

  lemma {:induction false} EmittedPattern(n: Node, ctx: seq<Field>, rule: Rule, alive: set<FlowId>)
    requires WellMasked(n, ctx) && Emits(n, ctx, rule, alive)
    ensures Elements(ctx) <= rule.pattern
  {
    match n
    case Unexplored =>
    case FlowNode(_, _) =>
    case TestNode(need, positive, negative, _, _) =>
      AddedUnseen(ctx, need);
      if Emits(negative, ctx, rule, alive) {
        EmittedPattern(negative, ctx, rule, alive);
      } else if Emits(positive, Added(ctx, need), rule, alive) {
        EmittedPattern(positive, ctx + [need], rule, alive);
      }
    case LoadNode(mask, cases) =>
      var v :| v in cases && Emits(cases[v], Added(ctx, CaseField(mask, v)), rule, alive);
      AddedUnseen(ctx, CaseField(mask, v));
      EmittedPattern(cases[v], ctx + [CaseField(mask, v)], rule, alive);
  }

  /** Two patterns that ask for different values of the same bits. */
  ghost predicate Conflict(a: set<Field>, b: set<Field>) {
    exists f, g :: f in a && g in b && f.t == g.t && f.mask == g.mask && f.value != g.value
  }

  lemma ConflictExcludes(a: set<Field>, b: set<Field>, q: Packet)
    requires Conflict(a, b) && HitsAll(q, a)
    ensures !HitsAll(q, b)
  {
    var f, g :| f in a && g in b && f.t == g.t && f.mask == g.mask && f.value != g.value;
    assert Hits(q, f);
    assert !Hits(q, g);
  }

  /** No two distinct rules of equal priority overlap. */
  lemma {:induction false} NoOverlap(n: Node, ctx: seq<Field>, l: int, r: int, a: Rule, b: Rule, alive: set<FlowId>)
    requires PrioOrdered(n, l, r) && WellMasked(n, ctx)
    requires Emits(n, ctx, a, alive) && Emits(n, ctx, b, alive) && a.prio == b.prio
    ensures a == b || Conflict(a.pattern, b.pattern)
  {
    hide Added, AddFrom, Conflict;
    match n
    case Unexplored =>
    case FlowNode(_, _) =>
    case TestNode(need, positive, negative, _, prio) =>
      AddedUnseen(ctx, need);
      SideOf(n, ctx, l, r, a, alive);
      SideOf(n, ctx, l, r, b, alive);
      if a.prio < prio {
        NoOverlap(negative, ctx, l, prio, a, b, alive);
      } else if a.prio > prio {
        NoOverlap(positive, ctx + [need], prio, r, a, b, alive);
      }
    case LoadNode(mask, cases) =>
      var v :| v in cases && Emits(cases[v], Added(ctx, CaseField(mask, v)), a, alive);
      var w :| w in cases && Emits(cases[w], Added(ctx, CaseField(mask, w)), b, alive);
      AddedUnseen(ctx, CaseField(mask, v));
      if v == w {
        NoOverlap(cases[v], ctx + [CaseField(mask, v)], l, r, a, b, alive);
      } else {
        CasesConflict(n, ctx, v, w, a, b, alive);
      }
  }

  /** The priority of a rule tells the side of the test that it comes from. */
  lemma SideOf(n: Node, ctx: seq<Field>, l: int, r: int, rule: Rule, alive: set<FlowId>)
    requires n.TestNode? && PrioOrdered(n, l, r) && WellMasked(n, ctx) && Emits(n, ctx, rule, alive)
    ensures if rule.prio == n.prio then rule == Rule(n.prio, Elements(Added(ctx, n.need)), ToController)
            else if rule.prio < n.prio then Emits(n.negative, ctx, rule, alive)
            else Emits(n.positive, Added(ctx, n.need), rule, alive)
  {
    hide Added, AddFrom;
    AddedUnseen(ctx, n.need);
    if Emits(n.negative, ctx, rule, alive) {
      EmittedPrio(n.negative, ctx, l, n.prio, rule, alive);
    } else if Emits(n.positive, ctx + [n.need], rule, alive) {
      EmittedPrio(n.positive, ctx + [n.need], n.prio, r, rule, alive);
    }
  }

  lemma CasesConflict(n: Node, ctx: seq<Field>, v: Bits, w: Bits, a: Rule, b: Rule, alive: set<FlowId>)
    requires n.LoadNode? && WellMasked(n, ctx) && v in n.cases && w in n.cases && v != w
    requires Emits(n.cases[v], Added(ctx, CaseField(n.mask, v)), a, alive)
    requires Emits(n.cases[w], Added(ctx, CaseField(n.mask, w)), b, alive)
    ensures Conflict(a.pattern, b.pattern)
  {
    hide Added, AddFrom;
    var f, g := CaseField(n.mask, v), CaseField(n.mask, w);
    AddedUnseen(ctx, f);
    AddedUnseen(ctx, g);
    EmittedPattern(n.cases[v], ctx + [f], a, alive);
    EmittedPattern(n.cases[w], ctx + [g], b, alive);
    assert v * n.mask.bits == v && w * n.mask.bits == w;
    assert f in a.pattern && g in b.pattern && f.value != g.value;
  }

  /** The fields of an emitted pattern never contradict each other. */
  lemma {:induction false} NoSelfConflict(n: Node, ctx: seq<Field>, rule: Rule, alive: set<FlowId>)
    requires WellMasked(n, ctx) && Emits(n, ctx, rule, alive)
    requires !Conflict(Elements(ctx), Elements(ctx))
    ensures !Conflict(rule.pattern, rule.pattern)
  {
    match n
    case Unexplored =>
    case FlowNode(_, _) =>
    case TestNode(need, positive, negative, _, _) =>
      AddedUnseen(ctx, need);
      UnseenNoConflict(ctx, need);
      if Emits(negative, ctx, rule, alive) {
        NoSelfConflict(negative, ctx, rule, alive);
      } else if Emits(positive, ctx + [need], rule, alive) {
        NoSelfConflict(positive, ctx + [need], rule, alive);
      }
    case LoadNode(mask, cases) =>
      var v :| v in cases && Emits(cases[v], Added(ctx, CaseField(mask, v)), rule, alive);
      AddedUnseen(ctx, CaseField(mask, v));
      UnseenNoConflict(ctx, CaseField(mask, v));
      NoSelfConflict(cases[v], ctx + [CaseField(mask, v)], rule, alive);
  }

  lemma UnseenNoConflict(ctx: seq<Field>, f: Field)
    requires Unseen(ctx, f) && !Conflict(Elements(ctx), Elements(ctx))
    ensures !Conflict(Elements(ctx + [f]), Elements(ctx + [f]))
  {
    var s := Elements(ctx + [f]);
    assert forall e :: e in s <==> e in Elements(ctx) || e == f;
  }

  /** Each key (priority, pattern) has one action. */
  lemma KeysAreUnique(n: Node, l: int, r: int, a: Rule, b: Rule, alive: set<FlowId>)
    requires PrioOrdered(n, l, r) && WellMasked(n, [])
    requires Emits(n, [], a, alive) && Emits(n, [], b, alive) && a.prio == b.prio && a.pattern == b.pattern
    ensures a == b
  {
    NoOverlap(n, [], l, r, a, b, alive);
    NoSelfConflict(n, [], a, alive);
  }

  // ---------- compilation preserves meaning ----------

  /** The rule of n that answers for q, found by walking the tree. */
  ghost function Best(n: Node, ctx: seq<Field>, q: Packet, alive: set<FlowId>): Option<Rule> {
    match n
    case Unexplored => None
    case FlowNode(flow, prio) => if flow in alive then Some(Rule(prio, Elements(ctx), Forward(flow))) else None
    case TestNode(need, positive, negative, _, prio) =>
      if Hits(q, need) then
        var best := Best(positive, ctx + [need], q, alive);
        if best.Some? then best else Some(Rule(prio, Elements(ctx + [need]), ToController))
      else Best(negative, ctx, q, alive)
    case LoadNode(mask, cases) =>
      if mask.t in q && LoadBits(q, mask).value in cases
      then
        var v := LoadBits(q, mask).value;
        Best(cases[v], ctx + [CaseField(mask, v)], q, alive)
      else None
  }

  /** Among the emitted rules that match q, Best is the one of strictly highest priority. */
  lemma {:induction false} BestWins(n: Node, ctx: seq<Field>, l: int, r: int, q: Packet, alive: set<FlowId>)
    requires PrioOrdered(n, l, r) && WellMasked(n, ctx) && HitsAll(q, Elements(ctx))
    ensures var best := Best(n, ctx, q, alive);
            && (best.Some? ==> Emits(n, ctx, best.value, alive) && HitsAll(q, best.value.pattern))
            && forall rule :: Emits(n, ctx, rule, alive) && HitsAll(q, rule.pattern) ==>
                 best.Some? && (rule == best.value || rule.prio < best.value.prio)
  {
    hide Added, AddFrom;
    match n
    case Unexplored =>
    case FlowNode(_, _) =>
    case TestNode(need, positive, negative, _, prio) =>
      AddedUnseen(ctx, need);
      BestWins(negative, ctx, l, prio, q, alive);
      if Hits(q, need) {
        BestWins(positive, ctx + [need], prio, r, q, alive);
        var best := Best(n, ctx, q, alive);
        if Best(positive, ctx + [need], q, alive).Some? {
          EmittedPrio(positive, ctx + [need], prio, r, best.value, alive);
        }
        forall rule | Emits(n, ctx, rule, alive) && HitsAll(q, rule.pattern)
          ensures rule == best.value || rule.prio < best.value.prio
        {
          if Emits(negative, ctx, rule, alive) { EmittedPrio(negative, ctx, l, prio, rule, alive); }
        }
      } else {
        forall rule | Emits(n, ctx, rule, alive) && HitsAll(q, rule.pattern)
          ensures Emits(negative, ctx, rule, alive)
        {
          if Emits(positive, ctx + [need], rule, alive) { EmittedPattern(positive, ctx + [need], rule, alive); }
          assert need in rule.pattern || Emits(negative, ctx, rule, alive);
        }
      }
    case LoadNode(mask, cases) =>
      forall v | v in cases { AddedUnseen(ctx, CaseField(mask, v)); }
      forall v, rule | v in cases && Emits(cases[v], ctx + [CaseField(mask, v)], rule, alive)
        && HitsAll(q, rule.pattern)
        ensures mask.t in q && v == LoadBits(q, mask).value
      {
        EmittedPattern(cases[v], ctx + [CaseField(mask, v)], rule, alive);
        assert Hits(q, CaseField(mask, v));
        assert v * mask.bits == v;
      }
      if mask.t in q && LoadBits(q, mask).value in cases {
        var v := LoadBits(q, mask).value;
        assert v * mask.bits == v;
        assert Hits(q, CaseField(mask, v));
        BestWins(cases[v], ctx + [CaseField(mask, v)], l, r, q, alive);
      }
  }

  lemma {:induction false} BestIsLookup(n: Node, ctx: seq<Field>, q: Packet, alive: set<FlowId>)
    requires Lookup(n, q, alive) != OutOfRange
    ensures var best := Best(n, ctx, q, alive);
            match Lookup(n, q, alive)
            case Hit(flow) => best.Some? && best.value.action == Forward(flow)
            case Miss => best.Some? ==> best.value.action == ToController
            case OutOfRange => true
  {
    match n
    case Unexplored =>
    case FlowNode(_, _) =>
    case TestNode(need, positive, negative, _, _) =>
      if Hits(q, need) {
        BestIsLookup(positive, ctx + [need], q, alive);
      } else {
        BestIsLookup(negative, ctx, q, alive);
      }
    case LoadNode(mask, cases) =>
      var v := LoadBits(q, mask).value;
      if v in cases { BestIsLookup(cases[v], ctx + [CaseField(mask, v)], q, alive); }
  }

  /** A forwarding rule that matches q is the one lookup finds, or a barrier rule above it matches too. */
  lemma {:induction false} Guarded(n: Node, ctx: seq<Field>, l: int, r: int, q: Packet, alive: set<FlowId>, rule: Rule)
    requires PrioOrdered(n, l, r) && WellMasked(n, ctx) && HitsAll(q, Elements(ctx))
    requires Lookup(n, q, alive) != OutOfRange
    requires Emits(n, ctx, rule, alive) && HitsAll(q, rule.pattern) && rule.action.Forward?
    ensures Lookup(n, q, alive) == Hit(rule.action.flow) ||
            exists b: Rule ::
              Emits(n, ctx, b, alive) && b.action.ToController? && HitsAll(q, b.pattern) && b.prio > rule.prio
  {
    hide Added, AddFrom;
    match n
    case Unexplored =>
    case FlowNode(_, _) =>
    case TestNode(need, positive, negative, _, prio) =>
      AddedUnseen(ctx, need);
      if Hits(q, need) {
        var b := Rule(prio, Elements(ctx + [need]), ToController);
        assert Emits(n, ctx, b, alive) && HitsAll(q, b.pattern);
        if Emits(negative, ctx, rule, alive) {
          EmittedPrio(negative, ctx, l, prio, rule, alive);
        } else {
          Guarded(positive, ctx + [need], prio, r, q, alive, rule);
        }
      } else {
        if Emits(positive, ctx + [need], rule, alive) {
          EmittedPattern(positive, ctx + [need], rule, alive);
        }
        Guarded(negative, ctx, l, prio, q, alive, rule);
      }
    case LoadNode(mask, cases) =>
      var v :| v in cases && Emits(cases[v], Added(ctx, CaseField(mask, v)), rule, alive);
      var f := CaseField(mask, v);
      AddedUnseen(ctx, f);
      EmittedPattern(cases[v], ctx + [f], rule, alive);
      assert Hits(q, f) && v * mask.bits == v;
      Guarded(cases[v], ctx + [f], l, r, q, alive, rule);
  }

  /** On such a tree every emitted pattern has one field per type. */
  lemma {:induction false} EmittedOnePerType(n: Node, ctx: seq<Field>, rule: Rule, alive: set<FlowId>)
    requires OneField(n, ctx) && WellMasked(n, ctx) && Emits(n, ctx, rule, alive)
    ensures OnePerType(rule.pattern)
  {
    hide Added, AddFrom;
    match n
    case Unexplored =>
    case FlowNode(_, _) =>
    case TestNode(need, positive, negative, _, _) =>
      AddedUnseen(ctx, need);
      if Emits(negative, ctx, rule, alive) {
        EmittedOnePerType(negative, ctx, rule, alive);
      } else if Emits(positive, ctx + [need], rule, alive) {
        EmittedOnePerType(positive, ctx + [need], rule, alive);
      }
    case LoadNode(mask, cases) =>
      var v :| v in cases && Emits(cases[v], Added(ctx, CaseField(mask, v)), rule, alive);
      AddedUnseen(ctx, CaseField(mask, v));
      EmittedOnePerType(cases[v], ctx + [CaseField(mask, v)], rule, alive);
  }
}
