/** The two readings of a match, all fields or one field of each type: for which policies they are the
    same in every table. */
module Readings {
  import opened Wrappers
  import opened Oxm
  import opened FieldSets
  import P = Policies
  import opened Tracing
  import opened TraceTrees
  import opened Grafting
  import opened Priorities
  import opened Caching
  import opened FlowTables
  import opened Controllers

  /** Every match of the table means the same under both readings. */
  ghost predicate Coincide(t: Table) {
    forall q: Packet, k :: k in t ==> (HitsSome(q, k.pattern) <==> HitsAll(q, k.pattern))
  }

  /** Fields of one type fix different bits. */
  predicate Apart(s: set<Field>) {
    && (forall f :: f in s ==> f.mask != {})
    && forall f, g :: f in s && g in s && f.t == g.t && f != g ==> f.mask !! g.mask
  }

  lemma ApartMore(ctx: seq<Field>, f: Field)
    requires Apart(Elements(ctx)) && Unseen(ctx, f)
    ensures Apart(Elements(ctx + [f]))
  {
    assert forall e :: e in Elements(ctx + [f]) <==> e in ctx || e == f;
  }

  /** A rule whose two readings differ. */
  ghost predicate Ambiguous(rule: Rule) {
    Apart(rule.pattern) && !OnePerType(rule.pattern)
  }

  lemma AmbiguousDiffers(rule: Rule)
    requires Ambiguous(rule)
    ensures exists q: Packet :: !(HitsSome(q, rule.pattern) <==> HitsAll(q, rule.pattern))
  {
    AlternativesExact(rule.pattern);
  }

  /** A trace that asks for a rule with two fields of one type gets it, if there are priorities for it. */
  lemma {:induction false} AmbiguousPushed(es: seq<Event>, fin: Option<FlowId>, l: nat, r: nat, ctx: seq<Field>,
                                           id: nat) returns (rule: Rule)
    requires NonRedundant(ctx, es) && !Separate(ctx, es, fin.Some?) && Apart(Elements(ctx))
    requires Graft(Unexplored, es, fin, l, r, ctx, id).status == Done
    ensures rule in Pushed(Graft(Unexplored, es, fin, l, r, ctx, id)) && Ambiguous(rule)
    decreases |es|
  {
    var g := Graft(Unexplored, es, fin, l, r, ctx, id);
    if es == [] {
      rule := g.installed.value;
    } else {
      AddedUnseen(ctx, es[0].f);
      ApartMore(ctx, es[0].f);
      match es[0]
      case Loaded(f) =>
        rule := AmbiguousPushed(es[1..], fin, l, r, ctx + [f], id);
      case Tested(f, ret) =>
        if !OnePerType(Elements(ctx + [f])) {
          rule := g.barriers[0];
        } else if ret {
          rule := AmbiguousPushed(es[1..], fin, Middle(l, r), r, ctx + [f], id + 1);
        } else {
          rule := AmbiguousPushed(es[1..], fin, l, Middle(l, r), ctx, id + 1);
        }
    }
  }

  /** One miss from the start, in a range that takes the trace, makes such a table. */
  lemma OneMissDiffers(policy: P.Policy, c: Controller, pkt: Packet)
    requires Init(c) && c.left <= c.right && GraftOf(policy, c, pkt).status == Done
    requires !Separate([], TraceOf(policy, pkt).events, TraceOf(policy, pkt).outcome.Returned?)
    ensures !Coincide(Missed(policy, c, pkt).0.table)
  {
    hide Graft, Trace, InstallAll, Separate, NonRedundant;
    var tr, g := TraceOf(policy, pkt), GraftOf(policy, c, pkt);
    var fin := Ending(tr.outcome, StartFlow(c, pkt));
    TraceFits(policy, pkt);
    var rule := AmbiguousPushed(tr.events, fin, c.left, c.right, [], c.nextId);
    InitSound(policy, c);
    StartedCaches(policy, c, pkt);
    StartedSound(policy, c, pkt);
    MissedShape(policy, c, pkt);
    PushedHeld(c, tr.events, fin, Started(c, pkt).flows.Keys, rule);
    AmbiguousDiffers(rule);
    assert KeyOf(rule) in Missed(policy, c, pkt).0.table;
  }

  lemma PushedHeld(c: Controller, es: seq<Event>, fin: Option<FlowId>, alive: set<FlowId>, rule: Rule)
    requires Init(c) && NonRedundant([], es) && (fin.Some? ==> fin.value in alive) && c.left <= c.right
    requires rule in Pushed(Graft(Unexplored, es, fin, c.left, c.right, [], c.nextId))
    ensures Holds(InstallAll(map[], Pushed(Graft(Unexplored, es, fin, c.left, c.right, [], c.nextId))), rule)
  {
    UnexploredReplaceable(es, fin, alive);
    PushedTable(map[], Unexplored, es, fin, c.left, c.right, c.nextId, alive);
    GraftEmits(Unexplored, es, fin, c.left, c.right, [], c.nextId, rule, alive);
  }

  /** The readings coincide in every table of every run exactly if every packet's trace asks for rules
      with one field per type only. */
  lemma ReadingsExact(policy: P.Policy)
    ensures SeparateTypes(policy) <==>
            forall run: seq<Controller> :: IsRun(policy, run) ==> Coincide(run[|run| - 1].table)
  {
    if SeparateTypes(policy) {
      forall run: seq<Controller> | IsRun(policy, run) ensures Coincide(run[|run| - 1].table) {
        RunSound(policy, run);
        SoundCoincides(policy, run[|run| - 1]);
      }
    } else {
      var run := DifferingRun(policy);
    }
  }

  lemma DifferingRun(policy: P.Policy) returns (run: seq<Controller>)
    requires !SeparateTypes(policy)
    ensures IsRun(policy, run) && !Coincide(run[|run| - 1].table)
  {
    hide Trace, Graft, Separate, Coincide, Missed, IsRun, Pow2, TestCount;
    var pkt: Packet :| !Separate([], TraceOf(policy, pkt).events, TraceOf(policy, pkt).outcome.Returned?);
    var tr := TraceOf(policy, pkt);
    PowPositive(TestCount(tr.events) + 1);
    var c := Controller(Unexplored, 0, Pow2(TestCount(tr.events) + 1), 1, map[], 0, map[]);
    var fin := Ending(tr.outcome, StartFlow(c, pkt));
    Capacity(Unexplored, tr.events, fin, c.left, c.right, [], c.nextId);
    FreshIsConsistent(tr.events, fin, c.left, c.right, [], c.nextId);
    OneMissDiffers(policy, c, pkt);
    run := [c, Missed(policy, c, pkt).0];
    MissIsRun(policy, c, pkt);
  }

  lemma MissIsRun(policy: P.Policy, c: Controller, pkt: Packet)
    requires Init(c) && c.left <= c.right
    ensures IsRun(policy, [c, Missed(policy, c, pkt).0])
  {
    hide Missed, Init;
    var run := [c, Missed(policy, c, pkt).0];
    assert Next(policy, run[0], run[1]);
  }

  lemma SoundCoincides(policy: P.Policy, c: Controller)
    requires Sound(policy, c) && SeparateTypes(policy)
    ensures Coincide(c.table)
  {
    forall q: Packet, k | k in c.table ensures HitsSome(q, k.pattern) <==> HitsAll(q, k.pattern) {
      assert Holds(c.table, RuleAt(c.table, k));
      EmittedOnePerType(c.root, [], RuleAt(c.table, k), c.flows.Keys);
    }
  }
}
