/** Inputs on which the trace tree does not keep its promise, one for each condition of the end-to-end
    theorems: one field per type in every rule, a packet with the fields that are asked for or modified, and
    a commit after every update. */
module Limits {
  import opened Wrappers
  import opened Oxm
  import opened FieldSets
  import P = Policies
  import opened Tracing
  import opened TraceTrees
  import opened Grafting
  import opened Priorities
  import opened Caching
  import opened FlowTables
  import opened Paths
  import opened Controllers
  import opened Retries
  import opened StaleSwitches

  function Start(left: nat, right: nat): Controller {
    Controller(Unexplored, left, right, 1, map[], 0, map[])
  }

  /** The switch forwards q by a flow rule whose record is not what the policy does with q. */
  ghost predicate Misforwards(policy: P.Policy, c: Controller, q: Packet, k: Key, hits: (Packet, set<Field>) -> bool) {
    && Wins(c.table, q, k, hits) && c.table[k].Forward? && c.table[k].flow in c.flows
    && var out := P.Run(policy, q, map[]);
       out.Returned? && c.flows[c.table[k].flow] != FlowRecord(out.decision, out.mods)
  }

  /** No other rule has the priority of k, so that a switch that checks for overlaps takes the rule. */
  predicate Unopposed(t: Table, k: Key) {
    forall other :: other in t && other != k ==> other.prio != k.prio
  }

  lemma UnknownLoad(s: TState, m: Mask)
    requires m.t in s.pkt && KnownBits(s.cache, m.t) * m.bits == {} && m.bits != {}
    ensures LoadEvents(s, m) == [Loaded(LoadBits(s.pkt, m))] && AfterLoad(s, m) == Learn(s, LoadBits(s.pkt, m))
  {
    FreshFacts(s, m);
    var f := Fresh(s, m);
    assert f.mask == m.bits;
    assert f == LoadBits(s.pkt, m);
  }

  lemma UnknownTest(s: TState, need: Field)
    requires need.t in s.pkt && KnownBits(s.cache, need.t) == {} && need.mask != {}
    ensures TestEvents(s, need) == [Tested(need, Hits(s.pkt, need))] && TestResult(s, need) == Hits(s.pkt, need)
    ensures !Hits(s.pkt, need) ==> AfterTest(s, need) == s
  {
    var m := MaskOf(need);
    FreshFacts(s, m);
    assert Explored(s, m).mask == {};
    assert Compatible(Explored(s, m), need);
    assert Fresh(s, m).mask == need.mask && Fresh(s, m).value == s.pkt[need.t] * need.mask;
    assert need.mask * need.mask == need.mask && need.value * need.mask == need.value;
    assert Widen(need, MaskOf(Fresh(s, m))) == need;
    assert (s.pkt[need.t] * need.mask) * need.mask == s.pkt[need.t] * need.mask;
  }

  lemma InstallOne(t: Table, a: Rule)
    ensures InstallAll(t, [a]) == Install(t, a)
  {
    assert InstallAll(Install(t, a), [a][1..]) == Install(t, a);
  }

  lemma InstallTwo(t: Table, a: Rule, b: Rule)
    ensures InstallAll(t, [a, b]) == Install(Install(t, a), b)
  {
    assert [a, b][1..] == [b];
    InstallOne(Install(t, a), b);
  }

  // ---------- two partial masks of one type ----------

  const TWO_BITS := Type(0, 0, 2, true)
  const LOW := Mask(TWO_BITS, {0})
  const HIGH := Mask(TWO_BITS, {1})

  function PartialPolicy(): P.Policy {
    P.Load(LOW, map[{0} := P.Load(HIGH, map[{1} := P.Return(P.Drop)], P.Return(P.Broadcast))], P.Return(P.Broadcast))
  }

  const LOW_SET := Field(TWO_BITS, {0}, {0})
  const HIGH_SET := Field(TWO_BITS, {1}, {1})

  function BothSet(): Packet {
    map[TWO_BITS := {0, 1}]
  }

  lemma PartialTrace()
    ensures TraceOf(PartialPolicy(), BothSet()) ==
            TraceResult([Loaded(LOW_SET), Loaded(HIGH_SET)], P.Returned(P.Drop, BothSet(), map[]))
  {
    var policy, pkt := PartialPolicy(), BothSet();
    var s := TState(pkt, map[]);
    assert LoadBits(pkt, LOW) == LOW_SET && LoadBits(pkt, HIGH) == HIGH_SET by {
      assert {0, 1} * {0} == {0} && {0, 1} * {1} == {1};
    }
    UnknownLoad(s, LOW);
    var s1 := Learn(s, LOW_SET);
    LearnFacts(map[], LOW_SET);
    assert KnownBits(s1.cache, TWO_BITS) * {1} == {};
    UnknownLoad(s1, HIGH);
    var k1 := P.Answer(policy, {0});
    assert Trace(k1, s1, map[]) == TraceResult([Loaded(HIGH_SET)], P.Returned(P.Drop, pkt, map[]));
    assert Read(s, LOW) == LOW_SET;
  }

  lemma PartialGraft()
    ensures var g := Graft(Unexplored, [Loaded(LOW_SET), Loaded(HIGH_SET)], Some(0), 1, 65535, [], 1);
            g.status == Done && g.barriers == [] && g.installed == Some(Rule(32768, {LOW_SET, HIGH_SET}, Forward(0)))
  {
    AddedUnseen([], LOW_SET);
    AddedUnseen([LOW_SET], HIGH_SET);
    assert [LOW_SET] + [HIGH_SET] == [LOW_SET, HIGH_SET] && [] + [LOW_SET] == [LOW_SET];
    assert Elements([LOW_SET, HIGH_SET]) == {LOW_SET, HIGH_SET};
    var g2 := Graft(Unexplored, [], Some(0), 1, 65535, [LOW_SET, HIGH_SET], 1);
    assert g2.installed == Some(Rule(32768, {LOW_SET, HIGH_SET}, Forward(0)));
    assert [Loaded(HIGH_SET)][1..] == [] && [Loaded(LOW_SET), Loaded(HIGH_SET)][1..] == [Loaded(HIGH_SET)];
    var g1 := Graft(Unexplored, [Loaded(HIGH_SET)], Some(0), 1, 65535, [LOW_SET], 1);
    assert g1.status == Done && g1.barriers == [] && g1.installed == g2.installed;
  }

  lemma PartialRun()
    ensures var q: Packet := map[TWO_BITS := {0}];
            && P.Run(PartialPolicy(), q, map[]) == P.Returned(P.Broadcast, q, map[])
            && HitsSome(q, {LOW_SET, HIGH_SET})
  {
    var q: Packet := map[TWO_BITS := {0}];
    assert {0} * {1} == {} && {0} * {0} == {0};
    assert Hits(q, LOW_SET);
    var k1 := P.Answer(PartialPolicy(), {0});
    assert P.Answer(k1, {}) == P.Return(P.Broadcast);
    assert P.Run(k1, q, map[]) == P.Returned(P.Broadcast, q, map[]);
  }

  /** A policy that loads two parts of one field separately gets a rule with two fields of one type,
      which the switch reads as alternatives: a packet with only one of them is forwarded wrongly. */
  lemma TwoPartialMasks() returns (c: Controller, q: Packet, k: Key)
    ensures c == Missed(PartialPolicy(), Start(1, 65535), BothSet()).0
    ensures Misforwards(PartialPolicy(), c, q, k, HitsSome)
  {
    hide Graft, Trace, P.Run, PartialPolicy, HitsSome, InstallAll;
    PartialTrace();
    PartialGraft();
    PartialRun();
    var policy, c0 := PartialPolicy(), Start(1, 65535);
    c := Missed(policy, c0, BothSet()).0;
    var rule := Rule(32768, {LOW_SET, HIGH_SET}, Forward(0));
    assert Pushed(GraftOf(policy, c0, BothSet())) == [rule];
    InstallOne(map[], rule);
    k, q := KeyOf(rule), map[TWO_BITS := {0}];
    assert c.table == map[k := Forward(0)] && c.flows[0] == FlowRecord(P.Drop, map[]);
  }

  // ---------- a modification is not traced ----------

  /** A policy that modifies a field without reading it leaves no trace of needing that field: a packet
      that lacks it is answered from the cache although the policy throws on it. */
  lemma UntracedModify(patch: Field, v: Bits)
    requires v <= All(patch.t)
    ensures var policy := P.Modify(patch, P.Return(P.Drop));
            var c := Missed(policy, Start(1, 65535), map[patch.t := v]).0;
            Lookup(c.root, map[], c.flows.Keys) == Hit(0) && P.Run(policy, map[], map[]).OutOfRange?
  {
    var policy, pkt: Packet, c0 := P.Modify(patch, P.Return(P.Drop)), map[patch.t := v], Start(1, 65535);
    var s := AfterModify(TState(pkt, map[]), patch);
    assert Trace(P.Return(P.Drop), s, Modified(map[], patch)).events == [];
    assert TraceOf(policy, pkt).events == [] && TraceOf(policy, pkt).outcome.Returned?;
    assert GraftOf(policy, c0, pkt).node == FlowNode(0, 32768);
  }

  // ---------- a packet without a field that the tree asks for ----------

  const FLAG := Field(Type(0, 0, 1, true), {0}, {0})

  function FlagPolicy(): P.Policy {
    P.Test(FLAG, P.Return(P.Drop), P.Return(P.Unicast(1)))
  }

  lemma FlagTrace()
    ensures var pkt: Packet := map[FLAG.t := {}];
            TraceOf(FlagPolicy(), pkt) == TraceResult([Tested(FLAG, false)], P.Returned(P.Unicast(1), pkt, map[]))
  {
    var pkt: Packet := map[FLAG.t := {}];
    assert {} * {0} == {} && !Hits(pkt, FLAG);
    UnknownTest(TState(pkt, map[]), FLAG);
    assert Trace(P.Return(P.Unicast(1)), TState(pkt, map[]), map[]).events == [];
  }

  lemma FlagGraft()
    ensures Graft(Unexplored, [Tested(FLAG, false)], Some(0), 1, 65535, [], 1) ==
            Grafted(TestNode(FLAG, Unexplored, FlowNode(0, 16384), 1, 32768), [Rule(32768, {FLAG}, ToController)],
                    Some(Rule(16384, {}, Forward(0))), Done, 2)
  {
    hide Added;
    AddedUnseen([], FLAG);
    assert Elements([] + [FLAG]) == {FLAG} && Elements([]) == {} && [Tested(FLAG, false)][1..] == [];
    var barrier := Rule(32768, {FLAG}, ToController);
    assert Graft(Unexplored, [], Some(0), 1, 32768, [], 2) ==
           Grafted(FlowNode(0, 16384), [], Some(Rule(16384, {}, Forward(0))), Done, 2);
    assert [barrier] + [] == [barrier];
  }

  /** A packet that lacks the tested field is forwarded by the rule of the negative branch, which asks for
      nothing, although the policy throws on it; lookup throws as well. */
  lemma AbsentField()
    ensures var c, k := Missed(FlagPolicy(), Start(1, 65535), map[FLAG.t := {}]).0, Key(16384, {});
            && Wins(c.table, map[], k, HitsAll) && c.table[k] == Forward(0)
            && P.Run(FlagPolicy(), map[], map[]).OutOfRange?
               && Lookup(c.root, map[], c.flows.Keys) == LookupResult.OutOfRange
  {
    hide Graft, Trace, InstallAll;
    var pkt: Packet, c0 := map[FLAG.t := {}], Start(1, 65535);
    FlagTrace();
    FlagGraft();
    var barrier, rule := Rule(32768, {FLAG}, ToController), Rule(16384, {}, Forward(0));
    assert [barrier] + [rule] == [barrier, rule];
    assert Pushed(GraftOf(FlagPolicy(), c0, pkt)) == [barrier, rule];
    InstallTwo(map[], barrier, rule);
    assert Missed(FlagPolicy(), c0, pkt).0.table ==
           map[Key(32768, {FLAG}) := ToController, Key(16384, {}) := Forward(0)];
    assert !HitsAll(map[], {FLAG}) && HitsAll(map[], {});
  }

  // ---------- update without commit ----------

  /** So many nested tests, each on a field of its own. */
  function Nested(k: nat): P.Policy {
    if k == 0 then P.Return(P.Drop) else P.Test(Nth(k), P.Return(P.Unicast(k)), Nested(k - 1))
  }

  function AllTypes(d: nat): (types: set<Type>)
    ensures forall k: nat :: 1 <= k <= d ==> Nth(k).t in types
    ensures forall t :: t in types ==> 0 in All(t)
  {
    if d == 0 then {} else AllTypes(d - 1) + {Nth(d).t}
  }

  /** A packet with all these fields, of which at most the given one is set. */
  function Header(d: nat, on: nat): (p: Packet) {
    map t: Type | t in AllTypes(d) :: if t.id == on then {0} else {}
  }

  lemma HeaderHits(d: nat, on: nat, k: nat)
    requires 1 <= k <= d
    ensures Nth(k).t in Header(d, on) && (Hits(Header(d, on), Nth(k)) <==> k == on)
  {
    hide AllTypes;
    assert {} * {0} == {} && {0} * {0} == {0};
  }

  /** None of the fields is set, or known. */
  predicate Blank(s: TState, k: nat) {
    forall i: nat :: 1 <= i <= k ==> Nth(i).t in s.pkt && !Hits(s.pkt, Nth(i)) && KnownBits(s.cache, Nth(i).t) == {}
  }

  lemma HeaderBlank(d: nat)
    ensures Blank(TState(Header(d, 0), map[]), d)
  {
    hide Header, Hits;
    forall i: nat | 1 <= i <= d ensures Nth(i).t in Header(d, 0) && !Hits(Header(d, 0), Nth(i)) {
      HeaderHits(d, 0, i);
    }
  }

  lemma {:induction false} NestedTrace(s: TState, mods: Entries, k: nat)
    requires Blank(s, k)
    ensures Trace(Nested(k), s, mods) == TraceResult(Negatives(k), P.Returned(P.Drop, s.pkt, mods))
    ensures forall n: nat :: Halted(Nested(k), s, mods, n) == (s.pkt, mods)
    decreases k
  {
    hide Hits;
    if k > 0 {
      assert Nth(k).t in s.pkt && !Hits(s.pkt, Nth(k));
      UnknownTest(s, Nth(k));
      NestedTrace(s, mods, k - 1);
    }
  }

  /** On the packet with one field set, the policy forwards accordingly. */
  lemma {:induction false} NestedRun(d: nat, k: nat, on: nat)
    requires 1 <= on <= k <= d
    ensures P.Run(Nested(k), Header(d, on), map[]) == P.Returned(P.Unicast(on), Header(d, on), map[])
    decreases k
  {
    hide Header, Hits;
    HeaderHits(d, on, k);
    if on < k {
      NestedRun(d, k - 1, on);
    }
  }

  /** A tree of the nested tests, of which nothing else is explored. */
  predicate IsChain(n: Node, k: nat) {
    if k == 0 then n.Unexplored?
    else n.TestNode? && n.need == Nth(k) && n.positive.Unexplored? && IsChain(n.negative, k - 1)
  }

  lemma {:induction false} ChainCount(n: Node, k: nat)
    requires IsChain(n, k)
    ensures NonEmptyLoads(n) && Count(n) == 2 * k + 1
    decreases k
  {
    if k > 0 {
      ChainCount(n.negative, k - 1);
    }
  }

  /** The barrier rules of the chain: the k-th test from below has priority 2^k. */
  function Barriers(k: nat): seq<Rule> {
    if k == 0 then [] else [Rule(Pow2(k), {Nth(k)}, ToController)] + Barriers(k - 1)
  }

  lemma {:induction false} BarriersAt(k: nat, rule: Rule)
    requires rule in Barriers(k)
    ensures rule.action == ToController
            && exists j: nat :: 1 <= j <= k && rule.pattern == {Nth(j)} && rule.prio == Pow2(j)
    decreases k
  {
    if rule in Barriers(k - 1) {
      BarriersAt(k - 1, rule);
    } else {
      assert rule == Barriers(k)[0];
    }
  }

  lemma Halves(k: nat, r: nat)
    requires k > 0 && (r == Pow2(k + 1) || r == Pow2(k + 1) - 1)
    ensures Middle(1, r) == Pow2(k) && !Grafting.Exceeded(1, r)
  {
    PowPositive(k - 1);
    assert Pow2(k + 1) == 2 * Pow2(k) && Pow2(k) == 2 * Pow2(k - 1);
  }

  /** The first attempt: the range is halved down to (1, 2). */
  lemma {:induction false} FirstAttempt(k: nat, flow: FlowId, r: nat, id: nat)
    requires r == Pow2(k + 1) || r == Pow2(k + 1) - 1
    ensures var g := Graft(Unexplored, Negatives(k), Some(flow), 1, r, [], id);
            && g.status == PriorityExceeded && g.barriers == Barriers(k) && g.installed == None && IsChain(g.node, k)
    decreases k
  {
    if k > 0 {
      hide Pow2, Added;
      Halves(k, r);
      AddedUnseen([], Nth(k));
      assert Elements([] + [Nth(k)]) == {Nth(k)} && Negatives(k)[1..] == Negatives(k - 1);
      FirstAttempt(k - 1, flow, Pow2(k), id + 1);
    }
  }

  /** The right end of the range at the end of the chain. */
  function LastPrio(n: Node, k: nat, r: nat): nat
    requires IsChain(n, k)
  {
    if k == 0 then r else LastPrio(n.negative, k - 1, n.prio)
  }

  /** The second attempt walks down the chain and takes the middle of what is left there. */
  lemma {:induction false} SecondAttempt(n: Node, k: nat, flow: FlowId, r: nat, id: nat)
    requires IsChain(n, k) && !Grafting.Exceeded(1, LastPrio(n, k, r))
    ensures var g := Graft(n, Negatives(k), Some(flow), 1, r, [], id);
            g.status == Done && g.barriers == []
              && g.installed == Some(Rule(Middle(1, LastPrio(n, k, r)), {}, Forward(flow)))
    decreases k
  {
    if k == 0 {
      assert Elements([]) == {};
    } else {
      assert Negatives(k)[1..] == Negatives(k - 1);
      SecondAttempt(n.negative, k - 1, flow, n.prio, id);
      var g := Graft(n.negative, Negatives(k - 1), Some(flow), 1, n.prio, [], id);
      assert [] + g.barriers == g.barriers;
    }
  }

  lemma ShareAtLeast(share: real, w: real, x: real, c: real)
    requires w > 0.0 && share * w == x && x >= c * w
    ensures share >= c
  {
    var d := c - share;
    assert d * w == c * w - share * w;
  }

  lemma SplitBy(from: real, to: real, k: nat, m: nat, c: real)
    requires k + m > 0 && from <= to && to - from >= c * (k + m) as real
    ensures Average(from, to, k, m) - from >= c * k as real
  {
    var w := (k + m) as real;
    var share := (to - from) / w;
    assert share * w == to - from;
    ShareAtLeast(share, w, to - from, c);
    AverageCuts(from, to, k, m, share);
    MulMonotone(c, share, k);
  }

  /** Where rebalancing puts the end of the chain in a range from 1. */
  function ChainEnd(k: nat, to: real): real {
    if k == 0 then to else ChainEnd(k - 1, Average(1.0, to, 2 * k - 1, 1))
  }

  /** Rebalancing leaves room at the end of the chain in proportion to the range. */
  lemma {:induction false} RebalancedRoom(n: Node, k: nat, to: real)
    requires IsChain(n, k) && to >= 1.0 && to - 1.0 >= 4.0 * (2 * k + 1) as real
    ensures NonEmptyLoads(n)
    ensures var b := Rebalanced(n, 1.0, to); IsChain(b, k) && LastPrio(b, k, Round(to)) == Round(ChainEnd(k, to)) >= 5
    decreases k
  {
    ChainCount(n, k);
    if k == 0 {
      assert to >= 5.0;
    } else {
      ChainCount(n.negative, k - 1);
      var m := 2 * k - 1;
      Split(1.0, to, m, 1);
      SplitBy(1.0, to, m, 1, 4.0);
      RebalancedRoom(n.negative, k - 1, Average(1.0, to, m, 1));
    }
  }

  /** The priority in the middle of what is left there. */
  function NewPrio(d: nat, r: nat): int {
    (1 + Round(ChainEnd(d, r as real))) / 2
  }

  lemma {:induction false} PowOutgrows(d: nat)
    requires d >= 5
    ensures Pow2(d + 1) >= 8 * d + 6
  {
    if d == 5 {
      assert Pow2(5) == 32;
    } else {
      PowOutgrows(d - 1);
    }
  }

  /** What the packet-in path of a new controller makes of a packet. */
  ghost function FirstProcessed(policy: P.Policy, left: nat, right: nat, pkt: Packet): Controller
    requires left <= right
  {
    InitSound(policy, Start(left, right));
    Processed(policy, Start(left, right), pkt).0
  }

  /** The first attempt on the packet with no field set runs out of priorities at the flow, and leaves the
      chain with its barrier rules and the flow without a rule. */
  lemma ChainLeft(d: nat, r: nat)
    requires r == Pow2(d + 1) - 1
    ensures var (c1, status) := Missed(Nested(d), Start(1, r), Header(d, 0));
            && status == MissStatus.Exceeded && IsChain(c1.root, d) && c1.left == 1 && c1.right == r
            && c1.table == InstallAll(map[], Barriers(d)) && c1.flows == map[0 := FlowRecord(P.Undefined, map[])]
    ensures TraceOf(Nested(d), Header(d, 0)) == TraceResult(Negatives(d), P.Returned(P.Drop, Header(d, 0), map[]))
  {
    hide Graft, Trace, Nested, Header, InstallAll, IsChain, Barriers, Negatives, Pow2, Halted, Blank;
    HeaderBlank(d);
    NestedTrace(TState(Header(d, 0), map[]), map[], d);
    FirstAttempt(d, 0, r, 1);
    assert StartFlow(Start(1, r), Header(d, 0)) == 0;
    assert Pushed(GraftOf(Nested(d), Start(1, r), Header(d, 0))) == Barriers(d);
  }

  /** After rebalancing the second attempt installs the flow's rule, without a field, above the last of the
      barriers, which have kept their priorities. */
  lemma ChainRetried(d: nat, r: nat) returns (prio: nat)
    requires d >= 5 && 1 <= r == Pow2(d + 1) - 1
    ensures var c := FirstProcessed(Nested(d), 1, r, Header(d, 0));
            && prio == NewPrio(d, r) >= 3 && c.flows == map[0 := FlowRecord(P.Drop, map[])]
            && c.table == Install(InstallAll(map[], Barriers(d)), Rule(prio, {}, Forward(0)))
  {
    hide Graft, Trace, Nested, Header, InstallAll, IsChain, Barriers, Negatives, Missed, Halted, LastPrio, Rebalanced,
         Caches, Pow2, Blank;
    var policy, c0, pkt := Nested(d), Start(1, r), Header(d, 0);
    InitSound(policy, c0);
    ChainLeft(d, r);
    var c1 := Missed(policy, c0, pkt).0;
    PowOutgrows(d);
    RebalancedRoom(c1.root, d, r as real);
    MissedCaches(policy, c0, pkt);
    HeaderBlank(d);
    NestedTrace(TState(Header(d, 0), map[]), map[], d);
    assert LeftBehind(policy, c0, pkt) == (pkt, map[]);
    var c2 := Updated(c1);
    assert c2.root == Rebalanced(c1.root, 1.0, r as real) && Round(r as real) == r;
    prio := Middle(1, LastPrio(c2.root, d, r));
    SecondAttempt(c2.root, d, 0, r, c2.nextId);
    var rule := Rule(prio, {}, Forward(0));
    assert Pushed(GraftFrom(policy, c2, pkt, map[], 0)) == [rule];
    InstallOne(c2.table, rule);
    assert Processed(policy, c0, pkt) == Attempted(policy, c2, pkt, map[], 0);
  }

  /** Nothing is committed when a packet makes the controller rebalance: the barriers keep their old
      priorities in the switch, and the new rule stands above a barrier that is to stop packets for it. */
  lemma UpdateWithoutCommit(d: nat, r: nat) returns (q: Packet, k: Key)
    requires d >= 5 && 1 <= r == Pow2(d + 1) - 1
    ensures Misforwards(Nested(d), FirstProcessed(Nested(d), 1, r, Header(d, 0)), q, k, HitsAll)
    ensures (forall j: nat :: 1 <= j <= d ==> NewPrio(d, r) != Pow2(j)) ==>
              Unopposed(FirstProcessed(Nested(d), 1, r, Header(d, 0)).table, k)
  {
    hide FirstProcessed, InstallAll, Nested, Header, Barriers, Pow2, NewPrio;
    var prio := ChainRetried(d, r);
    q, k := Header(d, 1), Key(prio, {});
    NestedRun(d, d, 1);
    forall other | other in FirstProcessed(Nested(d), 1, r, Header(d, 0)).table && HitsAll(q, other.pattern)
      && other != k
      ensures other.prio < prio
    {
      var j := OldBarrier(d, other);
      assert Nth(j) in other.pattern;
      HeaderHits(d, 1, j);
      FirstPow();
    }
    forall other | other in FirstProcessed(Nested(d), 1, r, Header(d, 0)).table && other != k
      ensures exists j: nat :: 1 <= j <= d && other.prio == Pow2(j)
    {
      var j := OldBarrier(d, other);
    }
  }

  lemma OldBarrier(d: nat, k: Key) returns (j: nat)
    requires k in InstallAll(map[], Barriers(d))
    ensures 1 <= j <= d && k.pattern == {Nth(j)} && k.prio == Pow2(j)
  {
    InstalledFrom(map[], Barriers(d), k);
    BarriersAt(d, RuleAt(InstallAll(map[], Barriers(d)), k));
    j :| 1 <= j <= d && k.pattern == {Nth(j)} && k.prio == Pow2(j);
  }

  lemma FirstPow()
    ensures Pow2(1) == 2
  {
  }

  // ---------- a second attempt on a packet that has been modified ----------

  const CLEAR := Field(FLAG.t, {}, {0})

  /** Unless the flag is set, the policy marks the packet, sets the flag and goes through the tests. */
  function Marking(d: nat): P.Policy {
    P.Load(MaskOf(FLAG), map[{} := P.Modify(Nth(d + 1), P.Modify(FLAG, Nested(d)))], P.Return(P.Drop))
  }

  function Unmarked(d: nat, flag: Bits): Packet
    requires flag <= {0}
  {
    Header(d + 1, 0)[FLAG.t := flag]
  }

  function Marks(d: nat): Entries {
    Modified(Modified(map[], Nth(d + 1)), FLAG)
  }

  /** The packet with the mark and the flag. */
  function Marked(d: nat): Packet {
    HeaderHits(d + 1, 0, d + 1);
    Patch(Patch(Unmarked(d, {}), Nth(d + 1)), FLAG)
  }

  /** The state in which the policy comes to the tests. */
  function AtTests(d: nat): TState {
    HeaderHits(d + 1, 0, d + 1);
    AfterModify(AfterModify(Learn(TState(Unmarked(d, {}), map[]), CLEAR), Nth(d + 1)), FLAG)
  }

  lemma TestsAreBlank(d: nat)
    ensures Blank(AtTests(d), d) && AtTests(d).pkt == Marked(d)
  {
    hide Header, Hits, AfterModify, Patch, KnownBits;
    BothBound(d);
    var s := Learn(TState(Unmarked(d, {}), map[]), CLEAR);
    var s1 := AfterModify(s, Nth(d + 1));
    ModifyOther(s, Nth(d + 1), FLAG.t);
    forall i: nat | 1 <= i <= d
      ensures Nth(i).t in AtTests(d).pkt && !Hits(AtTests(d).pkt, Nth(i)) && KnownBits(AtTests(d).cache, Nth(i).t) == {}
    {
      HeaderHits(d + 1, 0, i);
      LearnOther(s.pkt, CLEAR, Nth(i).t);
      ModifyOther(s, Nth(d + 1), Nth(i).t);
      ModifyOther(s1, FLAG, Nth(i).t);
      HitsSame(Header(d + 1, 0), AtTests(d).pkt, Nth(i));
    }
    MarkedPatches(d);
  }

  lemma MarkedPatches(d: nat)
    ensures AtTests(d).pkt == Marked(d)
  {
    hide Header, RewriteBits;
    BothBound(d);
  }

  lemma ModifyOther(s: TState, patch: Field, t: Type)
    requires patch.t in s.pkt && t in s.pkt && t != patch.t
    ensures var s' := AfterModify(s, patch);
            t in s'.pkt && s'.pkt[t] == s.pkt[t] && KnownBits(s'.cache, t) == KnownBits(s.cache, t)
  {
  }

  lemma LearnOther(pkt: Packet, f: Field, t: Type)
    requires t != f.t
    ensures KnownBits(Learn(TState(pkt, map[]), f).cache, t) == {}
  {
  }

  lemma HitsSame(a: Packet, b: Packet, f: Field)
    requires f.t in a && f.t in b && a[f.t] == b[f.t]
    ensures Hits(a, f) <==> Hits(b, f)
  {
  }

  lemma MarkingTrace(d: nat)
    ensures TraceOf(Marking(d), Unmarked(d, {})) ==
            TraceResult([Loaded(CLEAR)] + Negatives(d), P.Returned(P.Drop, Marked(d), Marks(d)))
    ensures forall n: nat :: n >= 1 ==>
            Halted(Marking(d), TState(Unmarked(d, {}), map[]), map[], n) == (Marked(d), Marks(d))
  {
    hide Header, Nested, Modified, Patch, Blank, Hits, Trace, Halted;
    var s, m, tests := TState(Unmarked(d, {}), map[]), MaskOf(FLAG), P.Modify(FLAG, Nested(d));
    var s1 := Learn(s, CLEAR);
    BothBound(d);
    TestsAreBlank(d);
    NestedTrace(AtTests(d), Marks(d), d);
    ModifyStep(Nth(d + 1), tests, s1, map[]);
    ModifyStep(FLAG, Nested(d), AfterModify(s1, Nth(d + 1)), Modified(map[], Nth(d + 1)));
    assert LoadBits(s.pkt, m) == CLEAR by { assert {} * {0} == {}; }
    UnknownLoad(s, m);
    assert Read(s, m).value == {};
    assert P.Answer(Marking(d), {}) == P.Modify(Nth(d + 1), tests);
    LoadStep(Marking(d), s, map[]);
  }

  lemma BothBound(d: nat)
    ensures Nth(d + 1).t in Unmarked(d, {}) && FLAG.t in Unmarked(d, {}) && FLAG.t in Patch(Unmarked(d, {}), Nth(d + 1))
    ensures Unmarked(d, {})[FLAG.t] == {}
  {
    HeaderHits(d + 1, 0, d + 1);
  }

  lemma ModifyStep(patch: Field, next: P.Policy, s: TState, mods: Entries)
    requires patch.t in s.pkt
    ensures Trace(P.Modify(patch, next), s, mods) == Trace(next, AfterModify(s, patch), Modified(mods, patch))
    ensures forall n: nat ::
            Halted(P.Modify(patch, next), s, mods, n) == Halted(next, AfterModify(s, patch), Modified(mods, patch), n)
  {
  }

  lemma LoadStep(policy: P.Policy, s: TState, mods: Entries)
    requires policy.Load? && policy.mask.t in s.pkt && |LoadEvents(s, policy.mask)| == 1
    ensures var next, s' := P.Answer(policy, Read(s, policy.mask).value), AfterLoad(s, policy.mask);
            && Trace(policy, s, mods) == Cons(LoadEvents(s, policy.mask), Trace(next, s', mods))
            && forall n: nat :: n >= 1 ==> Halted(policy, s, mods, n) == Halted(next, s', mods, n - 1)
  {
    hide LoadEvents, Read, AfterLoad, P.Answer, TestEvents, TestResult, AfterTest, AfterModify, Modified, Cons;
    var next, s' := P.Answer(policy, Read(s, policy.mask).value), AfterLoad(s, policy.mask);
    forall n: nat | n >= 1 ensures Halted(policy, s, mods, n) == Halted(next, s', mods, n - 1) {
    }
  }

  /** With the flag set, the policy modifies nothing. */
  lemma FlaggedTrace(d: nat, pkt: Packet, mods: Entries)
    requires FLAG.t in pkt && pkt[FLAG.t] == {0}
    ensures TraceFrom(Marking(d), pkt, mods) == TraceResult([Loaded(FLAG)], P.Returned(P.Drop, pkt, mods))
    ensures P.Run(Marking(d), pkt, map[]) == P.Returned(P.Drop, pkt, map[])
    ensures EventHolds(pkt, Loaded(FLAG))
  {
    hide Nested;
    assert {0} * {0} == {0};
    var s := TState(pkt, map[]);
    assert LoadBits(pkt, MaskOf(FLAG)) == FLAG;
    UnknownLoad(s, MaskOf(FLAG));
    assert Read(s, MaskOf(FLAG)).value == {0};
    assert P.Answer(Marking(d), {0}) == P.Return(P.Drop);
    assert Trace(P.Return(P.Drop), Learn(s, FLAG), mods) == TraceResult([], P.Returned(P.Drop, pkt, mods));
  }

  /** The nested tests exceed the range wherever they stand. */
  lemma {:induction false} NestedExceeds(k: nat, flow: FlowId, r: nat, ctx: seq<Field>, id: nat)
    requires r == Pow2(k + 1) || r == Pow2(k + 1) - 1
    ensures Graft(Unexplored, Negatives(k), Some(flow), 1, r, ctx, id).status == PriorityExceeded
    decreases k
  {
    if k > 0 {
      hide Pow2, Added;
      Halves(k, r);
      assert Negatives(k)[1..] == Negatives(k - 1);
      NestedExceeds(k - 1, flow, Pow2(k), ctx, id + 1);
    }
  }

  /** The first attempt: priorities run out at the flow, and the packet is left marked. */
  lemma MarkingExceeds(d: nat, r: nat)
    requires 1 <= r == Pow2(d + 1) - 1
    ensures var c0, pkt := Start(1, r), Unmarked(d, {}); var (c1, status) := Missed(Marking(d), c0, pkt);
            && status == MissStatus.Exceeded && StartFlow(c0, pkt) == 0 && c1.flows.Keys == {0} && c1.left == 1
               && c1.right == r
            && c1.root.LoadNode? && c1.root.mask == MaskOf(FLAG) && c1.root.cases.Keys == {{}}
            && LeftBehind(Marking(d), c0, pkt) == (Marked(d), Marks(d))
  {
    hide Graft, Trace, Marking, Unmarked, Marked, Marks, InstallAll, Negatives, Pow2, Halted, Taken;
    var c0, pkt, es := Start(1, r), Unmarked(d, {}), [Loaded(CLEAR)] + Negatives(d);
    MarkingTrace(d);
    NestedExceeds(d, 0, r, Added([], CLEAR), 1);
    assert es[0] == Loaded(CLEAR) && es[1..] == Negatives(d);
    GraftFirstLoad(es, CLEAR, 0, r);
    TakesFirstLoad(c0, es, CLEAR);
  }

  lemma GraftFirstLoad(es: seq<Event>, f: Field, flow: FlowId, r: nat)
    requires es != [] && es[0] == Loaded(f)
    ensures var g, child := Graft(Unexplored, es, Some(flow), 1, r, [], 1),
            Graft(Unexplored, es[1..], Some(flow), 1, r, Added([], f), 1);
            g.status == child.status && g.node == LoadNode(MaskOf(f), map[f.value := child.node])
  {
    hide Added;
  }

  lemma TakesFirstLoad(c: Controller, es: seq<Event>, f: Field)
    requires c.root == Unexplored && es != [] && es[0] == Loaded(f)
    ensures Taken(Cursor(c.root, [], c.left, c.right, [], c.nextId, c.table), es) >= 1
  {
  }

  /** The second attempt finds the flag set and installs the flow, with the modifications of the first. */
  lemma MarkedRetried(d: nat, c: Controller, q: Packet)
    requires c.root.LoadNode? && c.root.mask == MaskOf(FLAG) && c.root.cases.Keys == {{}} && c.left == 1 && c.right >= 3
    requires c.flows.Keys == {0} && FLAG.t in q && q[FLAG.t] == {0} && FLAG.t in Marked(d) && Marked(d)[FLAG.t] == {0}
    ensures var c' := Attempted(Marking(d), c, Marked(d), Marks(d), 0).0;
            && Lookup(c'.root, q, c'.flows.Keys) == Hit(0) && c'.flows == map[0 := FlowRecord(P.Drop, Marks(d))]
  {
    hide Trace, Marking, Marked, Marks, InstallAll, Added, P.Run;
    FlaggedTrace(d, Marked(d), Marks(d));
    FlaggedTrace(d, q, map[]);
    assert [Loaded(FLAG)][1..] == [] && {0} != {};
    assert {0} !in c.root.cases;
    assert Graft(Unexplored, [], Some(0), 1, c.right, Added([], FLAG), c.nextId).status == Done;
    assert GraftFrom(Marking(d), c, Marked(d), Marks(d), 0).status == Done;
    GraftCaches(c.root, [Loaded(FLAG)], Some(0), 1, c.right, [], c.nextId, q, {0});
  }

  /** Lookup answers q with modifications that make another packet of it than the policy does. */
  ghost predicate Misanswers(policy: P.Policy, c: Controller, q: Packet) {
    && Lookup(c.root, q, c.flows.Keys).Hit? && Lookup(c.root, q, c.flows.Keys).flow in c.flows
    && var out := P.Run(policy, q, map[]);
       out.Returned? && ApplyEntries(c.flows[Lookup(c.root, q, c.flows.Keys).flow].mods, q) != ApplyEntries(out.mods, q)
  }

  /** When the first attempt has modified the packet, the second may not modify it at all, and still its flow
      is recorded with the modifications of the first: an unmarked packet with the flag is answered with
      modifications that change it, though the policy leaves it as it is. */
  lemma ModifiedRetry(d: nat, r: nat)
    requires d >= 1 && 1 <= r == Pow2(d + 1) - 1
    ensures Misanswers(Marking(d), FirstProcessed(Marking(d), 1, r, Unmarked(d, {})), Unmarked(d, {0}))
  {
    hide Marking, Unmarked, Marked, Marks, Missed, Pow2, Attempted, Lookup, Caches, P.Run, LeftBehind, Rebalanced,
         ApplyEntries;
    var c0, pkt, q := Start(1, r), Unmarked(d, {}), Unmarked(d, {0});
    InitSound(Marking(d), c0);
    MarkingExceeds(d, r);
    var c1 := MissedC(Marking(d), c0, pkt);
    FlaggedPackets(d);
    AtLeastThree(d);
    RebalancedSame(c1.root, 1.0, r as real);
    MarkedRetried(d, Updated(c1), q);
    FlaggedTrace(d, q, map[]);
    NothingApplied(q);
    assert Processed(Marking(d), c0, pkt) == Attempted(Marking(d), Updated(c1), Marked(d), Marks(d), 0);
  }

  lemma FlaggedPackets(d: nat)
    ensures FLAG.t in Marked(d) && Marked(d)[FLAG.t] == {0}
    ensures var q := Unmarked(d, {0}); FLAG.t in q && q[FLAG.t] == {0} && ApplyEntries(Marks(d), q) != q
  {
    hide Header, Hits;
    BothBound(d);
    HeaderHits(d + 1, 0, d + 1);
    var q := Unmarked(d, {0});
    HitsSame(Header(d + 1, 0), q, Nth(d + 1));
    SetIfNotHit(Marks(d), q, Nth(d + 1));
  }

  lemma SetIfNotHit(mods: Entries, q: Packet, f: Field)
    requires f.t in q && f.t in mods && mods[f.t] == f && !Hits(q, f)
    ensures ApplyEntries(mods, q) != q
  {
    var patched := (q[f.t] - f.mask) + f.value;
    assert ApplyEntries(mods, q)[f.t] == patched && patched * f.mask == f.value;
  }

  lemma AtLeastThree(d: nat)
    requires d >= 1
    ensures Pow2(d + 1) >= 4
  {
    PowPositive(d - 1);
    assert Pow2(d + 1) == 2 * Pow2(d) && Pow2(d) == 2 * Pow2(d - 1);
  }

  // ---------- the default range ----------

  lemma Pow16()
    ensures Pow2(16) == 65536
  {
    assert Pow2(5) == 32;
    assert Pow2(8) == 256;
    assert Pow2(12) == 4096;
  }

  /** The part of the range that is left at the end of the chain. */
  function Part(k: nat): real {
    if k == 0 then 1.0 else Part(k - 1) * ((2 * k - 1) as real / (2 * k) as real)
  }

  lemma {:induction false} EndIsPart(k: nat, to: real)
    ensures ChainEnd(k, to) == 1.0 + (to - 1.0) * Part(k)
    decreases k
  {
    if k > 0 {
      var w := (2 * k - 1) as real / (2 * k) as real;
      PartOf(k, to, w);
      EndIsPart(k - 1, 1.0 + (to - 1.0) * w);
      Reorder(to - 1.0, w, Part(k - 1));
    }
  }

  lemma PartOf(k: nat, to: real, w: real)
    requires k > 0 && w == (2 * k - 1) as real / (2 * k) as real
    ensures Average(1.0, to, 2 * k - 1, 1) == 1.0 + (to - 1.0) * w
  {
    assert w * (1 + (2 * k - 1)) as real == (2 * k - 1) as real;
    AverageCuts(1.0, to, 2 * k - 1, 1, (to - 1.0) / (2 * k) as real);
  }

  lemma Reorder(a: real, b: real, c: real)
    ensures (a * b) * c == a * (c * b)
  {
  }

  lemma DefaultPart()
    ensures 0.14446 < Part(15) < 0.144466
  {
    assert Part(3) == 0.3125;
    assert Part(5) == 0.24609375;
    assert 0.20947 < Part(7) < 0.2094727;
    assert 0.18547 < Part(9) < 0.185471;
    assert 0.16818 < Part(11) < 0.168189;
    assert 0.15498 < Part(13) < 0.154982;
  }

  lemma DefaultPrio()
    ensures NewPrio(15, DEFAULT_RIGHT) == 4734
  {
    hide ChainEnd, Part;
    DefaultPart();
    EndIsPart(15, 65535.0);
    assert 9467.5 < ChainEnd(15, 65535.0) < 9468.5;
  }

  lemma {:induction false} BetweenPowers(j: nat)
    ensures if j <= 12 then Pow2(j) <= 4096 else Pow2(j) >= 8192
  {
    if j > 13 || 0 < j <= 12 {
      BetweenPowers(j - 1);
    }
  }

  /** In the default range of priorities policies with 15 nested tests make the very first packet do both;
      the rule that forwards wrongly overlaps with none of its own priority. */
  lemma DefaultRange()
    ensures exists policy: P.Policy, pkt: Packet, q: Packet, k: Key ::
              var c := FirstProcessed(policy, DEFAULT_LEFT, DEFAULT_RIGHT, pkt);
              Misforwards(policy, c, q, k, HitsAll) && Unopposed(c.table, k)
    ensures exists policy: P.Policy, pkt: Packet, q: Packet ::
              Misanswers(policy, FirstProcessed(policy, DEFAULT_LEFT, DEFAULT_RIGHT, pkt), q)
  {
    hide FirstProcessed, Misforwards, Misanswers, Unopposed, Nested, Header, Marking, Unmarked, Pow2, NewPrio;
    Pow16();
    DefaultPrio();
    var d :| d == 15;
    var q, k := UpdateWithoutCommit(d, DEFAULT_RIGHT);
    forall j: nat ensures NewPrio(d, DEFAULT_RIGHT) != Pow2(j) { BetweenPowers(j); }
    var c := FirstProcessed(Nested(d), 1, DEFAULT_RIGHT, Header(d, 0));
    assert Misforwards(Nested(d), c, q, k, HitsAll) && Unopposed(c.table, k);
    ModifiedRetry(d, DEFAULT_RIGHT);
    assert Misanswers(Marking(d), FirstProcessed(Marking(d), 1, DEFAULT_RIGHT, Unmarked(d, {})), Unmarked(d, {0}));
  }

  // ---------- how many tests a range takes from a policy ----------

  /** Exactly the ranges of 2^(d+1) have priorities for the first packet whatever the policy, if it makes d
      new tests on that packet. */
  lemma FirstPacketExact(l: nat, r: nat, d: nat)
    ensures (forall policy, pkt :: TestCount(TraceOf(policy, pkt).events) == d ==>
               Missed(policy, Start(l, r), pkt).1 != MissStatus.Exceeded)
            <==> r - l >= Pow2(d + 1)
  {
    hide Trace, Graft, Pow2, TestCount, InstallAll, Nested, Header, Negatives, Blank;
    if r - l >= Pow2(d + 1) {
      forall policy, pkt | TestCount(TraceOf(policy, pkt).events) == d
        ensures Missed(policy, Start(l, r), pkt).1 != MissStatus.Exceeded
      {
        var fin := Ending(TraceOf(policy, pkt).outcome, 0);
        Capacity(Unexplored, TraceOf(policy, pkt).events, fin, l, r, [], 1);
        FreshIsConsistent(TraceOf(policy, pkt).events, fin, l, r, [], 1);
      }
    } else {
      HeaderBlank(d);
      NestedTrace(TState(Header(d, 0), map[]), map[], d);
      NegativesFresh(d);
      assert TraceOf(Nested(d), Header(d, 0)).events == Negatives(d);
      if Missed(Nested(d), Start(l, r), Header(d, 0)).1 != MissStatus.Exceeded {
        NegativesNeed(d, l, r, [], 1, 0);
      }
    }
  }
}
