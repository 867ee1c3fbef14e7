/** The tree as a cache of the policy: what a tree grown from traces of one policy knows about it. */
module Caching {
  import opened Wrappers
  import opened Oxm
  import opened FieldSets
  import P = Policies
  import opened Tracing
  import opened TraceTrees
  import opened Grafting
  import opened Priorities

  /** What a flow was created with. */
  datatype FlowRecord = FlowRecord(decision: P.Decision, mods: Entries)

  /** The bits under m that the cache does not know. */
  function Remaining(cache: Entries, m: Mask): Mask {
    Mask(m.t, m.bits - KnownBits(cache, m.t))
  }

  /** What the cache makes of a test. */
  datatype Knowledge = No | Yes | Open

  function Known(cache: Entries, need: Field): Knowledge {
    if !Compatible(LoadEntry(cache, MaskOf(need)), need) then No
    else if Remaining(cache, MaskOf(need)).bits == {} then Yes
    else Open
  }

  /** The part of a test that the cache leaves open. */
  function OpenPart(cache: Entries, need: Field): Field {
    Widen(need, Remaining(cache, MaskOf(need)))
  }

  function KnownRead(cache: Entries, m: Mask): Bits {
    KnownValue(cache, m.t) * m.bits
  }

  /** The cache after reading v in the bits of m it did not know. */
  function CaseCache(cache: Entries, m: Mask, v: Bits): Entries {
    Modified(cache, CaseField(Remaining(cache, m), v))
  }

  /** n is what traces of p have left behind, from a point of p where cache is known and mods collected. */
  ghost predicate Agrees(n: Node, p: P.Policy, cache: Entries, mods: Entries, flows: map<FlowId, FlowRecord>) {
    match p
    case Return(d) =>
      n.Unexplored? || (n.FlowNode? && (n.flow in flows ==> flows[n.flow] == FlowRecord(d, mods)))
    case Load(m, _, _) =>
      var rest, known := Remaining(cache, m), KnownRead(cache, m);
      if rest.bits == {} then Agrees(n, P.Answer(p, known), cache, mods, flows)
      else
        || n.Unexplored?
        || (n.LoadNode? && n.mask == rest
            && forall v :: v in n.cases ==>
                 && v <= rest.bits
                 && Agrees(n.cases[v], P.Answer(p, known + v), CaseCache(cache, m, v), mods, flows))
    case Test(need, positive, negative) =>
      (match Known(cache, need)
      case No => Agrees(n, negative, cache, mods, flows)
      case Yes => Agrees(n, positive, cache, mods, flows)
      case Open =>
        || n.Unexplored?
        || (n.TestNode? && n.need == OpenPart(cache, need)
            && Agrees(n.positive, positive, Modified(cache, n.need), mods, flows)
            && Agrees(n.negative, negative, cache, mods, flows)))
    case Modify(patch, next) =>
      Agrees(n, next, Modified(cache, patch), Modified(mods, patch), flows)
  }

  lemma {:induction false} UnexploredAgrees(p: P.Policy, cache: Entries, mods: Entries, flows: map<FlowId, FlowRecord>)
    ensures Agrees(Unexplored, p, cache, mods, flows)
  {
    match p
    case Return(_) =>
    case Load(m, _, _) => UnexploredAgrees(P.Answer(p, KnownRead(cache, m)), cache, mods, flows);
    case Test(_, positive, negative) =>
      UnexploredAgrees(positive, cache, mods, flows);
      UnexploredAgrees(negative, cache, mods, flows);
    case Modify(patch, next) => UnexploredAgrees(next, Modified(cache, patch), Modified(mods, patch), flows);
  }

  /** The flows of the tree that flows' knows have the same records in flows. */
  ghost predicate SameRecords(n: Node, flows: map<FlowId, FlowRecord>, flows': map<FlowId, FlowRecord>) {
    forall f :: HasFlow(n, f) && f in flows' ==> f in flows && flows[f] == flows'[f]
  }

  lemma SameRecordsDown(n: Node, flows: map<FlowId, FlowRecord>, flows': map<FlowId, FlowRecord>)
    requires SameRecords(n, flows, flows')
    ensures n.FlowNode? && n.flow in flows' ==> n.flow in flows && flows[n.flow] == flows'[n.flow]
    ensures n.TestNode? ==> SameRecords(n.positive, flows, flows') && SameRecords(n.negative, flows, flows')
    ensures n.LoadNode? ==> forall v :: v in n.cases ==> SameRecords(n.cases[v], flows, flows')
  {
    if n.FlowNode? { assert HasFlow(n, n.flow); }
  }

  /** Only the records of the tree's own flows matter. */
  lemma {:induction false} AgreesFrame(n: Node, p: P.Policy, cache: Entries, mods: Entries,
                                       flows: map<FlowId, FlowRecord>, flows': map<FlowId, FlowRecord>)
    requires Agrees(n, p, cache, mods, flows) && SameRecords(n, flows, flows')
    ensures Agrees(n, p, cache, mods, flows')
  {
    hide Known, OpenPart, KnownRead, CaseCache, Remaining, Modified, SameRecords;
    SameRecordsDown(n, flows, flows');
    match p
    case Return(_) =>
    case Load(m, _, _) =>
      var rest, known := Remaining(cache, m), KnownRead(cache, m);
      if rest.bits == {} {
        AgreesFrame(n, P.Answer(p, known), cache, mods, flows, flows');
      } else if n.LoadNode? {
        forall v | v in n.cases
          ensures Agrees(n.cases[v], P.Answer(p, known + v), CaseCache(cache, m, v), mods, flows')
        {
          AgreesFrame(n.cases[v], P.Answer(p, known + v), CaseCache(cache, m, v), mods, flows, flows');
        }
      }
    case Test(need, positive, negative) =>
      match Known(cache, need) {
      case No => AgreesFrame(n, negative, cache, mods, flows, flows');
      case Yes => AgreesFrame(n, positive, cache, mods, flows, flows');
      case Open =>
        if n.TestNode? {
          AgreesFrame(n.positive, positive, Modified(cache, n.need), mods, flows, flows');
          AgreesFrame(n.negative, negative, cache, mods, flows, flows');
        }
      }
    case Modify(patch, next) =>
      AgreesFrame(n, next, Modified(cache, patch), Modified(mods, patch), flows, flows');
  }

  /** Rebalancing keeps agreement. */
  lemma {:induction false} SameAgrees(n: Node, n': Node, p: P.Policy, cache: Entries, mods: Entries,
                                      flows: map<FlowId, FlowRecord>)
    requires Agrees(n, p, cache, mods, flows) && SameButPrios(n, n')
    ensures Agrees(n', p, cache, mods, flows)
  {
    hide Known, OpenPart, KnownRead, CaseCache, Remaining, Modified, All;
    match p
    case Return(_) =>
    case Load(m, _, _) =>
      var rest, known := Remaining(cache, m), KnownRead(cache, m);
      if rest.bits == {} {
        SameAgrees(n, n', P.Answer(p, known), cache, mods, flows);
      } else if n.LoadNode? {
        forall v | v in n'.cases
          ensures v <= rest.bits && Agrees(n'.cases[v], P.Answer(p, known + v), CaseCache(cache, m, v), mods, flows)
        {
          SameAgrees(n.cases[v], n'.cases[v], P.Answer(p, known + v), CaseCache(cache, m, v), mods, flows);
        }
      }
    case Test(need, positive, negative) =>
      match Known(cache, need) {
      case No => SameAgrees(n, n', negative, cache, mods, flows);
      case Yes => SameAgrees(n, n', positive, cache, mods, flows);
      case Open =>
        if n.TestNode? {
          SameAgrees(n.positive, n'.positive, positive, Modified(cache, n.need), mods, flows);
          SameAgrees(n.negative, n'.negative, negative, cache, mods, flows);
        }
      }
    case Modify(patch, next) =>
      SameAgrees(n, n', next, Modified(cache, patch), Modified(mods, patch), flows);
  }

  // ---------- one step, seen from the cache and from the packet ----------

  lemma LoadView(s: TState, m: Mask)
    requires Coherent(s) && m.t in s.pkt
    ensures MaskOf(Fresh(s, m)) == Remaining(s.cache, m)
    ensures Read(s, m).value == KnownRead(s.cache, m) + Fresh(s, m).value
    ensures if Remaining(s.cache, m).bits == {} then Read(s, m).value == KnownRead(s.cache, m) && AfterLoad(s, m) == s
            else AfterLoad(s, m) == TState(s.pkt, CaseCache(s.cache, m, Fresh(s, m).value))
  {
    FreshFacts(s, m);
    var v, known := s.pkt[m.t], KnownBits(s.cache, m.t);
    assert KnownValue(s.cache, m.t) == v * known by {
      if m.t in s.cache { assert Hits(s.pkt, s.cache[m.t]); }
    }
    assert v * m.bits == (v * known) * m.bits + v * (m.bits - known);
    assert Fresh(s, m).value * Fresh(s, m).mask == Fresh(s, m).value;
  }

  lemma TestView(s: TState, need: Field)
    requires Coherent(s) && need.t in s.pkt
    ensures var known := Known(s.cache, need);
            && (Settled(s, need) <==> known != Open)
            && (known != Open ==> (TestResult(s, need) <==> known == Yes) && AfterTest(s, need) == s)
            && (known == Open ==>
                  && TestEvents(s, need) == [Tested(OpenPart(s.cache, need), TestResult(s, need))]
                  && AfterTest(s, need) == if TestResult(s, need) then Learn(s, OpenPart(s.cache, need)) else s)
  {
    var m := MaskOf(need);
    LoadView(s, m);
    var news, rest := Fresh(s, m), Remaining(s.cache, m);
    assert news.mask * need.mask == news.mask && need.mask * rest.bits == rest.bits;
    if Compatible(news, need) {
      assert news.value == need.value * rest.bits by {
        assert news.value * news.mask == news.value;
      }
    }
  }

  // ---------- theorems ----------

  /** Cache soundness. When the policy does not throw on the packet, lookup does not either, and a flow
      it finds carries the decision and the modifications of the policy on that very packet. */
  lemma {:induction false} LookupSound(n: Node, p: P.Policy, s: TState, original: Packet, mods: Entries,
                                       flows: map<FlowId, FlowRecord>)
    requires Agrees(n, p, s.cache, mods, flows) && Coherent(s) && Untouched(s, original)
    requires P.Run(p, s.pkt, mods).Returned?
    ensures var found := Lookup(n, original, flows.Keys);
            var out := P.Run(p, s.pkt, mods);
            && found != OutOfRange
            && (found.Hit? ==> flows[found.flow] == FlowRecord(out.decision, out.mods))
  {
    hide Known, KnownRead, CaseCache, Modified, All, KnownBits, KnownValue, LoadEntry;
    hide Fresh, Settled, TestResult, TestEvents, AfterTest, AfterLoad, Coherent, Untouched, Hits;
    match p
    case Return(_) =>
    case Load(m, _, _) =>
      LoadView(s, m);
      LoadKeeps(s, original, m);
      var rest, v := Remaining(s.cache, m), Fresh(s, m).value;
      assert Read(s, m).value == s.pkt[m.t] * m.bits;
      if rest.bits == {} {
        LookupSound(n, P.Answer(p, Read(s, m).value), s, original, mods, flows);
      } else if n.LoadNode? {
        assert LoadBits(original, n.mask).value == v;
        if v in n.cases {
          LookupSound(n.cases[v], P.Answer(p, Read(s, m).value), AfterLoad(s, m), original, mods, flows);
        }
      }
    case Test(need, positive, negative) =>
      TestView(s, need);
      TestTransparent(s, need);
      TestKeeps(s, original, need);
      var k := if TestResult(s, need) then positive else negative;
      if Known(s.cache, need) != Open {
        LookupSound(n, k, s, original, mods, flows);
      } else if n.TestNode? {
        LookupSound(if TestResult(s, need) then n.positive else n.negative, k, AfterTest(s, need), original, mods,
                    flows);
      }
    case Modify(patch, next) =>
      ModifyKeeps(s, original, patch);
      LookupSound(n, next, AfterModify(s, patch), original, Modified(mods, patch), flows);
  }

  /** On its way with the packet the policy modifies, and touches without asking for a bit, only fields
      that the packet has. No trace tells of these accesses. */
  predicate UntracedBound(p: P.Policy, pkt: Packet) {
    match p
    case Return(_) => true
    case Load(m, _, _) => if m.t in pkt then UntracedBound(P.Answer(p, pkt[m.t] * m.bits), pkt) else m.bits != {}
    case Test(need, positive, negative) =>
      if need.t in pkt then UntracedBound(if Hits(pkt, need) then positive else negative, pkt) else need.mask != {}
    case Modify(patch, next) => patch.t in pkt && UntracedBound(next, Patch(pkt, patch))
  }

  /** An access of some bits that a packet with an answer lacks has been noticed by the tree. */
  lemma AskedIsBound(n: Node, p: P.Policy, s: TState, original: Packet, mods: Entries, flows: map<FlowId, FlowRecord>)
    requires Agrees(n, p, s.cache, mods, flows) && Coherent(s) && s.pkt.Keys == original.Keys
    requires Lookup(n, original, flows.Keys).Hit?
    ensures p.Load? && p.mask.bits != {} ==> p.mask.t in s.pkt
    ensures p.Test? && p.need.mask != {} ==> p.need.t in s.pkt
  {
    if p.Test? && p.need.mask != {} && p.need.t !in s.cache {
      assert Known(s.cache, p.need) == Open;
    }
  }

  /** Where lookup finds a flow, the policy itself has a decision exactly if it modifies, and touches
      without asking, only fields that the packet has. */
  lemma {:induction false} HitExact(n: Node, p: P.Policy, s: TState, original: Packet, mods: Entries,
                                    flows: map<FlowId, FlowRecord>)
    requires Agrees(n, p, s.cache, mods, flows) && Coherent(s) && Untouched(s, original)
    requires Lookup(n, original, flows.Keys).Hit?
    ensures P.Run(p, s.pkt, mods).Returned? <==> UntracedBound(p, s.pkt)
  {
    hide KnownRead, CaseCache, Modified, All, KnownBits, KnownValue, LoadEntry, Known;
    hide Fresh, Settled, TestResult, TestEvents, AfterTest, AfterLoad, Coherent, Hits;
    assert s.pkt.Keys == original.Keys;
    hide Untouched;
    AskedIsBound(n, p, s, original, mods, flows);
    match p
    case Return(_) =>
    case Load(m, _, _) =>
      if m.t in s.pkt {
        LoadView(s, m);
        LoadKeeps(s, original, m);
        var v := Fresh(s, m).value;
        assert Read(s, m).value == s.pkt[m.t] * m.bits;
        if Remaining(s.cache, m).bits == {} {
          HitExact(n, P.Answer(p, Read(s, m).value), s, original, mods, flows);
        } else {
          assert LoadBits(original, n.mask).value == v;
          HitExact(n.cases[v], P.Answer(p, Read(s, m).value), AfterLoad(s, m), original, mods, flows);
        }
      }
    case Test(need, positive, negative) =>
      if need.t in s.pkt {
        TestView(s, need);
        TestTransparent(s, need);
        TestKeeps(s, original, need);
        var k := if TestResult(s, need) then positive else negative;
        if Known(s.cache, need) != Open {
          HitExact(n, k, s, original, mods, flows);
        } else {
          HitExact(if TestResult(s, need) then n.positive else n.negative, k, AfterTest(s, need), original, mods,
                   flows);
        }
      }
    case Modify(patch, next) =>
      if patch.t in s.pkt {
        ModifyKeeps(s, original, patch);
        HitExact(n, next, AfterModify(s, patch), original, Modified(mods, patch), flows);
      }
  }

  /** How a trace is handed to the tracer: finish is called only when the policy returns. */
  function Ending(out: P.Outcome, flow: FlowId): Option<FlowId> {
    if out.Returned? then Some(flow) else None
  }

  lemma LoadNodeAgrees(n: Node, p: P.Policy, cache: Entries, v: Bits, child: Node, mods: Entries,
                       flows: map<FlowId, FlowRecord>)
    requires p.Load? && Remaining(cache, p.mask).bits != {} && Agrees(n, p, cache, mods, flows)
    requires v <= Remaining(cache, p.mask).bits
    requires Agrees(child, P.Answer(p, KnownRead(cache, p.mask) + v), CaseCache(cache, p.mask, v), mods, flows)
    ensures Agrees(LoadNode(Remaining(cache, p.mask), Cases(n)[v := child]), p, cache, mods, flows)
  {
  }

  lemma TestNodeAgrees(n: Node, t: Node, p: P.Policy, cache: Entries, ret: bool, child: Node, mods: Entries,
                       flows: map<FlowId, FlowRecord>)
    requires p.Test? && Agrees(n, p, cache, mods, flows)
    requires Known(cache, p.need) == Open
    requires n == t || (n.Unexplored? && t.TestNode? && t.positive == t.negative == Unexplored)
    requires t.TestNode? && t.need == OpenPart(cache, p.need)
    requires Agrees(child, if ret then p.positive else p.negative, if ret then Modified(cache, t.need) else cache, mods,
                    flows)
    ensures Agrees(if ret then t.(positive := child) else t.(negative := child), p, cache, mods, flows)
  {
    UnexploredAgrees(p.positive, Modified(cache, t.need), mods, flows);
    UnexploredAgrees(p.negative, cache, mods, flows);
  }

  /** The record of the trace's own flow, if it is kept, is the outcome of the policy. */
  predicate Recorded(out: P.Outcome, flow: FlowId, flows: map<FlowId, FlowRecord>) {
    out.Returned? && flow in flows ==> flows[flow] == FlowRecord(out.decision, out.mods)
  }

  /** Grafting any trace of the policy keeps agreement, and never finds the tree inconsistent. */
  lemma {:induction false} GraftAgrees(n: Node, p: P.Policy, s: TState, mods: Entries, flows: map<FlowId, FlowRecord>,
                                       flow: FlowId,
                                       l: nat, r: nat, ctx: seq<Field>, id: nat)
    requires Agrees(n, p, s.cache, mods, flows) && Coherent(s)
    requires Recorded(Trace(p, s, mods).outcome, flow, flows)
    ensures var tr := Trace(p, s, mods);
            var g := Graft(n, tr.events, Ending(tr.outcome, flow), l, r, ctx, id);
            Agrees(g.node, p, s.cache, mods, flows) && g.status != InconsistentTrace
    decreases p, 1
  {
    hide Graft, Coherent, Modified;
    match p
    case Return(_) => FinishAgrees(n, p, s, mods, flows, flow, l, r, ctx, id);
    case Load(m, _, _) =>
      if m.t in s.pkt { GraftLoadAgrees(n, p, s, mods, flows, flow, l, r, ctx, id); }
      else { FinishAgrees(n, p, s, mods, flows, flow, l, r, ctx, id); }
    case Test(need, _, _) =>
      if need.t in s.pkt { GraftTestAgrees(n, p, s, mods, flows, flow, l, r, ctx, id); }
      else { FinishAgrees(n, p, s, mods, flows, flow, l, r, ctx, id); }
    case Modify(patch, next) =>
      if patch.t in s.pkt {
        ModifyKeeps(s, s.pkt, patch);
        GraftAgrees(n, next, AfterModify(s, patch), Modified(mods, patch), flows, flow, l, r, ctx, id);
      } else {
        FinishAgrees(n, p, s, mods, flows, flow, l, r, ctx, id);
      }
  }

  lemma FinishAgrees(n: Node, p: P.Policy, s: TState, mods: Entries, flows: map<FlowId, FlowRecord>, flow: FlowId,
                     l: nat, r: nat, ctx: seq<Field>, id: nat)
    requires (p.Return? || Trace(p, s, mods) == TraceResult([], P.OutOfRange)) && Agrees(n, p, s.cache, mods, flows)
    requires Recorded(Trace(p, s, mods).outcome, flow, flows)
    ensures var tr := Trace(p, s, mods);
            var g := Graft(n, tr.events, Ending(tr.outcome, flow), l, r, ctx, id);
            Agrees(g.node, p, s.cache, mods, flows) && g.status != InconsistentTrace
  {
  }

  lemma SettledTrace(p: P.Policy, s: TState, mods: Entries)
    requires p.Test? && p.need.t in s.pkt && Settled(s, p.need)
    ensures TestEvents(s, p.need) == []
  {
  }

  lemma {:induction false} GraftLoadAgrees(n: Node, p: P.Policy, s: TState, mods: Entries,
                                           flows: map<FlowId, FlowRecord>, flow: FlowId,
                                           l: nat, r: nat, ctx: seq<Field>, id: nat)
    requires p.Load? && p.mask.t in s.pkt && Agrees(n, p, s.cache, mods, flows) && Coherent(s)
    requires Recorded(Trace(p, s, mods).outcome, flow, flows)
    ensures var tr := Trace(p, s, mods);
            var g := Graft(n, tr.events, Ending(tr.outcome, flow), l, r, ctx, id);
            Agrees(g.node, p, s.cache, mods, flows) && g.status != InconsistentTrace
    decreases p, 0
  {
    hide KnownValue, LoadEntry, KnownRead, CaseCache, Fresh, AfterLoad, Modified, All, Coherent, Added, AddFrom;
    var m := p.mask;
    LoadView(s, m);
    LoadKeeps(s, s.pkt, m);
    var k, s' := P.Answer(p, Read(s, m).value), AfterLoad(s, m);
    var tr, rest := Trace(p, s, mods), Trace(k, s', mods);
    var f := Fresh(s, m);
    if f.mask == {} {
      assert tr.events == rest.events;
      GraftAgrees(n, k, s, mods, flows, flow, l, r, ctx, id);
    } else {
      assert tr.events[0] == Loaded(f) && tr.events[1..] == rest.events;
      UnexploredAgrees(k, s'.cache, mods, flows);
      if n.Unexplored? || n.LoadNode? {
        GraftAgrees(Child(n, f.value), k, s', mods, flows, flow, l, r, Added(ctx, f), id);
        var child := Graft(Child(n, f.value), rest.events, Ending(tr.outcome, flow), l, r, Added(ctx, f), id).node;
        LoadNodeAgrees(n, p, s.cache, f.value, child, mods, flows);
      }
    }
  }

  lemma {:induction false} GraftTestAgrees(n: Node, p: P.Policy, s: TState, mods: Entries,
                                           flows: map<FlowId, FlowRecord>, flow: FlowId,
                                           l: nat, r: nat, ctx: seq<Field>, id: nat)
    requires p.Test? && p.need.t in s.pkt && Agrees(n, p, s.cache, mods, flows) && Coherent(s)
    requires Recorded(Trace(p, s, mods).outcome, flow, flows)
    ensures var tr := Trace(p, s, mods);
            var g := Graft(n, tr.events, Ending(tr.outcome, flow), l, r, ctx, id);
            Agrees(g.node, p, s.cache, mods, flows) && g.status != InconsistentTrace
    decreases p, 0
  {
    hide Known, OpenPart, TestEvents, TestResult, AfterTest, Settled, Modified, Coherent, Graft;
    var need := p.need;
    TestView(s, need);
    TestKeeps(s, s.pkt, need);
    var ret := TestResult(s, need);
    var k, s' := if ret then p.positive else p.negative, AfterTest(s, need);
    var tr, rest := Trace(p, s, mods), Trace(k, s', mods);
    if Known(s.cache, need) != Open {
      SettledTrace(p, s, mods);
      assert tr.events == rest.events;
      GraftAgrees(n, k, s, mods, flows, flow, l, r, ctx, id);
    } else {
      var f := OpenPart(s.cache, need);
      assert tr.events[0] == Tested(f, ret) && tr.events[1..] == rest.events;
      GraftTested(n, tr.events, Ending(tr.outcome, flow), l, r, ctx, id);
      if CanTest(n, f, l, r) {
        var t := TestFor(n, f, l, r, id);
        var (lo, hi, ctx') := if ret then (t.prio, r, Added(ctx, f)) else (l, t.prio, ctx);
        var at := if ret then t.positive else t.negative;
        UnexploredAgrees(k, s'.cache, mods, flows);
        GraftAgrees(at, k, s', mods, flows, flow, lo, hi, ctx', NextId(n, id));
        TestNodeAgrees(n, t, p, s.cache, ret,
                       Graft(at, rest.events, Ending(tr.outcome, flow), lo, hi, ctx', NextId(n, id)).node, mods, flows);
      }
    }
  }
}
