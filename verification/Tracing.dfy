/** TraceablePacketImpl: which accesses of a policy become events of the trace. */
module Tracing {
  import opened Oxm
  import opened FieldSets
  import opened Policies

  datatype Event = Loaded(f: Field) | Tested(f: Field, ret: bool)

  /** The wrapped packet and the explored-bits cache. */
  datatype TState = TState(pkt: Packet, cache: Entries)

  function Read(s: TState, m: Mask): Field
    requires m.t in s.pkt
  {
    LoadBits(s.pkt, m)
  }

  function Explored(s: TState, m: Mask): Field {
    LoadEntry(s.cache, m)
  }

  function Fresh(s: TState, m: Mask): Field
    requires m.t in s.pkt
  {
    Widen(Read(s, m), Complement(MaskOf(Explored(s, m))))
  }

  function Learn(s: TState, f: Field): TState {
    s.(cache := Modified(s.cache, f))
  }

  function AfterLoad(s: TState, m: Mask): TState
    requires m.t in s.pkt
  {
    if Fresh(s, m).mask == {} then s else Learn(s, Fresh(s, m))
  }

  function LoadEvents(s: TState, m: Mask): seq<Event>
    requires m.t in s.pkt
  {
    if Fresh(s, m).mask == {} then [] else [Loaded(Fresh(s, m))]
  }

  function TestResult(s: TState, need: Field): bool
    requires need.t in s.pkt
  {
    Compatible(Explored(s, MaskOf(need)), need)
    && (Fresh(s, MaskOf(need)).mask == {} || Compatible(Fresh(s, MaskOf(need)), need))
  }

  /** The test is settled by what is already known. */
  predicate Settled(s: TState, need: Field)
    requires need.t in s.pkt
  {
    !Compatible(Explored(s, MaskOf(need)), need) || Fresh(s, MaskOf(need)).mask == {}
  }

  function TestEvents(s: TState, need: Field): seq<Event>
    requires need.t in s.pkt
  {
    if Settled(s, need) then []
    else [Tested(Widen(need, MaskOf(Fresh(s, MaskOf(need)))), TestResult(s, need))]
  }

  function AfterTest(s: TState, need: Field): TState
    requires need.t in s.pkt
  {
    if !Settled(s, need) && TestResult(s, need) then Learn(s, Fresh(s, MaskOf(need))) else s
  }

  function AfterModify(s: TState, patch: Field): TState
    requires patch.t in s.pkt
  {
    TState(Patch(s.pkt, patch), Modified(s.cache, patch))
  }

  datatype TraceResult = TraceResult(events: seq<Event>, outcome: Outcome)

  function Cons(es: seq<Event>, r: TraceResult): TraceResult {
    r.(events := es + r.events)
  }

  /** The trace of a policy run through the traceable packet. */
  function Trace(p: Policy, s: TState, mods: Entries): TraceResult {
    match p
    case Return(d) => TraceResult([], Returned(d, s.pkt, mods))
    case Load(m, _, _) =>
      if m.t !in s.pkt then TraceResult([], OutOfRange)
      else Cons(LoadEvents(s, m), Trace(Answer(p, Read(s, m).value), AfterLoad(s, m), mods))
    case Test(need, positive, negative) =>
      if need.t !in s.pkt then TraceResult([], OutOfRange)
      else Cons(TestEvents(s, need),
                Trace(if TestResult(s, need) then positive else negative, AfterTest(s, need), mods))
    case Modify(patch, next) =>
      if patch.t !in s.pkt then TraceResult([], OutOfRange)
      else Trace(next, AfterModify(s, patch), Modified(mods, patch))
  }

  /** What the packet and the modifications are when the tracer refuses the event after the first n; or
      at the end, if it takes them all. */
  function Halted(p: Policy, s: TState, mods: Entries, n: nat): (Packet, Entries) {
    match p
    case Return(_) => (s.pkt, mods)
    case Load(m, _, _) =>
      if m.t !in s.pkt || |LoadEvents(s, m)| > n then (s.pkt, mods)
      else Halted(Answer(p, Read(s, m).value), AfterLoad(s, m), mods, n - |LoadEvents(s, m)|)
    case Test(need, positive, negative) =>
      if need.t !in s.pkt || |TestEvents(s, need)| > n then (s.pkt, mods)
      else Halted(if TestResult(s, need) then positive else negative, AfterTest(s, need), mods,
                  n - |TestEvents(s, need)|)
    case Modify(patch, next) =>
      if patch.t !in s.pkt then (s.pkt, mods) else Halted(next, AfterModify(s, patch), Modified(mods, patch), n)
  }

  /** The modifications collected before do not change what is traced. */
  lemma {:induction false} TraceMods(p: Policy, s: TState, mods: Entries, mods': Entries)
    ensures Trace(p, s, mods).events == Trace(p, s, mods').events
  {
    match p
    case Return(_) =>
    case Load(m, _, _) =>
      if m.t in s.pkt { TraceMods(Answer(p, Read(s, m).value), AfterLoad(s, m), mods, mods'); }
    case Test(need, positive, negative) =>
      if need.t in s.pkt {
        TraceMods(if TestResult(s, need) then positive else negative, AfterTest(s, need), mods, mods');
      }
    case Modify(patch, next) =>
      if patch.t in s.pkt { TraceMods(next, AfterModify(s, patch), Modified(mods, patch), Modified(mods', patch)); }
  }

  // ---------- the cache invariant ----------

  function KnownBits(cache: Entries, t: Type): Bits {
    if t in cache then cache[t].mask else {}
  }

  function KnownValue(cache: Entries, t: Type): Bits {
    if t in cache then cache[t].value else {}
  }

  /** Cached bits are those of the current packet. */
  predicate Coherent(s: TState) {
    forall t :: t in s.cache ==> Hits(s.pkt, s.cache[t])
  }

  /** Bits outside the cache are those of the original packet. */
  predicate Untouched(s: TState, original: Packet) {
    && s.pkt.Keys == original.Keys
    && forall t :: t in original ==> s.pkt[t] - KnownBits(s.cache, t) == original[t] - KnownBits(s.cache, t)
  }

  lemma FreshFacts(s: TState, m: Mask)
    requires m.t in s.pkt
    ensures Fresh(s, m).mask == m.bits - KnownBits(s.cache, m.t)
    ensures Fresh(s, m).value == s.pkt[m.t] * Fresh(s, m).mask
    ensures Explored(s, m).mask == m.bits * KnownBits(s.cache, m.t)
    ensures Explored(s, m).value == KnownValue(s.cache, m.t) * m.bits
  {
    var read, explored := Read(s, m), Explored(s, m);
    assert explored.mask == m.bits * KnownBits(s.cache, m.t);
    assert Complement(MaskOf(explored)).bits == All(m.t) - explored.mask;
    assert Fresh(s, m).mask == m.bits - KnownBits(s.cache, m.t);
    assert Fresh(s, m).value == s.pkt[m.t] * Fresh(s, m).mask;
    assert Explored(s, m).value == KnownValue(s.cache, m.t) * m.bits;
  }

  lemma LearnFacts(cache: Entries, f: Field)
    ensures KnownBits(Modified(cache, f), f.t) == KnownBits(cache, f.t) + f.mask
    ensures KnownValue(Modified(cache, f), f.t) == (KnownValue(cache, f.t) - f.mask) + f.value
    ensures forall t :: t != f.t ==> (t in Modified(cache, f) <==> t in cache)
    ensures forall t :: t != f.t && t in cache ==> Modified(cache, f)[t] == cache[t]
  {
    if f.t !in cache { RewriteSelf(f); }
    var e := if f.t in cache then cache[f.t] else f;
    assert RewriteBits(e.value, f) * (e.mask + f.mask) == RewriteBits(e.value, f);
  }

  /** What the traceable packet answers is what the wrapped packet answers. */
  lemma TestTransparent(s: TState, need: Field)
    requires Coherent(s) && need.t in s.pkt
    ensures TestResult(s, need) <==> Hits(s.pkt, need)
  {
    var m := MaskOf(need);
    var known, v := KnownBits(s.cache, need.t), s.pkt[need.t];
    FreshFacts(s, m);
    var explored, news := Explored(s, m), Fresh(s, m);
    assert KnownValue(s.cache, need.t) == v * known by {
      if need.t in s.cache { assert Hits(s.pkt, s.cache[need.t]); }
    }
    assert explored.mask * need.mask == need.mask * known;
    assert news.mask * need.mask == need.mask - known;
    assert explored.value * (need.mask * known) == v * (need.mask * known);
    assert news.value * (need.mask - known) == v * (need.mask - known);
    assert v * need.mask == v * (need.mask * known) + v * (need.mask - known);
    assert need.value == need.value * (need.mask * known) + need.value * (need.mask - known);
    if v * need.mask == need.value {
      assert v * (need.mask * known) == (v * need.mask) * (need.mask * known);
      assert v * (need.mask - known) == (v * need.mask) * (need.mask - known);
    }
  }

  lemma LearnKeeps(s: TState, original: Packet, f: Field)
    requires Coherent(s) && Untouched(s, original) && Hits(s.pkt, f)
    ensures Coherent(Learn(s, f)) && Untouched(Learn(s, f), original)
  {
    LearnFacts(s.cache, f);
    var c := Modified(s.cache, f);
    var v := s.pkt[f.t];
    assert KnownValue(s.cache, f.t) == v * KnownBits(s.cache, f.t);
    assert v * (KnownBits(s.cache, f.t) + f.mask) == (v * KnownBits(s.cache, f.t) - f.mask) + v * f.mask;
    assert Hits(s.pkt, c[f.t]);
    forall t | t in original
      ensures s.pkt[t] - KnownBits(c, t) == original[t] - KnownBits(c, t)
    {
      assert s.pkt[t] - KnownBits(s.cache, t) == original[t] - KnownBits(s.cache, t);
      if t == f.t {
        assert s.pkt[t] - KnownBits(c, t) == (s.pkt[t] - KnownBits(s.cache, t)) - f.mask;
        assert original[t] - KnownBits(c, t) == (original[t] - KnownBits(s.cache, t)) - f.mask;
      }
    }
  }

  lemma LoadKeeps(s: TState, original: Packet, m: Mask)
    requires Coherent(s) && Untouched(s, original) && m.t in s.pkt
    ensures Coherent(AfterLoad(s, m)) && Untouched(AfterLoad(s, m), original)
    ensures m.t in original && Fresh(s, m).value == original[m.t] * Fresh(s, m).mask
  {
    FreshFacts(s, m);
    var known := KnownBits(s.cache, m.t);
    assert s.pkt[m.t] * (m.bits - known) == (s.pkt[m.t] - known) * (m.bits - known);
    assert original[m.t] * (m.bits - known) == (original[m.t] - known) * (m.bits - known);
    if Fresh(s, m).mask != {} { LearnKeeps(s, original, Fresh(s, m)); }
  }

  lemma TestKeeps(s: TState, original: Packet, need: Field)
    requires Coherent(s) && Untouched(s, original) && need.t in s.pkt
    ensures Coherent(AfterTest(s, need)) && Untouched(AfterTest(s, need), original)
    ensures need.t in original
    ensures TestEvents(s, need) != [] ==> (TestResult(s, need) <==> Hits(original, TestEvents(s, need)[0].f))
  {
    var m := MaskOf(need);
    LoadKeeps(s, original, m);
    FreshFacts(s, m);
    var news := Fresh(s, m);
    assert news.mask * need.mask == news.mask;
    assert need.mask * news.mask == news.mask;
  }

  lemma ModifyKeeps(s: TState, original: Packet, patch: Field)
    requires Coherent(s) && Untouched(s, original) && patch.t in s.pkt
    ensures Coherent(AfterModify(s, patch)) && Untouched(AfterModify(s, patch), original)
  {
    LearnFacts(s.cache, patch);
    var after := AfterModify(s, patch);
    var v, w := s.pkt[patch.t], after.pkt[patch.t];
    var known := KnownBits(s.cache, patch.t);
    assert KnownValue(s.cache, patch.t) == v * known;
    assert w * (known + patch.mask) == (v * known - patch.mask) + patch.value;
    assert Hits(after.pkt, after.cache[patch.t]);
    forall t | t in original
      ensures after.pkt[t] - KnownBits(after.cache, t) == original[t] - KnownBits(after.cache, t)
    {
      assert s.pkt[t] - KnownBits(s.cache, t) == original[t] - KnownBits(s.cache, t);
      if t == patch.t {
        assert w - (known + patch.mask) == (v - known) - patch.mask;
        assert original[t] - (known + patch.mask) == (original[t] - known) - patch.mask;
      }
    }
  }

  // ---------- theorems ----------

  /** Tracing is transparent: the policy decides, modifies and throws as it does on the bare packet. */
  lemma {:induction false} TraceTransparent(p: Policy, s: TState, mods: Entries)
    requires Coherent(s)
    ensures Trace(p, s, mods).outcome == Run(p, s.pkt, mods)
  {
    var original := s.pkt;
    assert Untouched(s, original);
    match p
    case Return(_) =>
    case Load(m, _, _) =>
      if m.t in s.pkt {
        LoadKeeps(s, original, m);
        TraceTransparent(Answer(p, Read(s, m).value), AfterLoad(s, m), mods);
      }
    case Test(need, positive, negative) =>
      if need.t in s.pkt {
        TestTransparent(s, need);
        TestKeeps(s, original, need);
        TraceTransparent(if TestResult(s, need) then positive else negative, AfterTest(s, need), mods);
      }
    case Modify(patch, next) =>
      if patch.t in s.pkt {
        ModifyKeeps(s, original, patch);
        TraceTransparent(next, AfterModify(s, patch), Modified(mods, patch));
      }
  }

  predicate EventHolds(original: Packet, e: Event) {
    match e
    case Loaded(f) => Hits(original, f)
    case Tested(f, ret) => f.t in original && (ret <==> Hits(original, f))
  }

  /** Every traced bit is a bit of the original packet, however much the policy has modified since. */
  lemma {:induction false} TraceIsOriginal(p: Policy, s: TState, mods: Entries, original: Packet)
    requires Coherent(s) && Untouched(s, original)
    ensures forall e :: e in Trace(p, s, mods).events ==> EventHolds(original, e)
  {
    match p
    case Return(_) =>
    case Load(m, _, _) =>
      if m.t in s.pkt {
        LoadKeeps(s, original, m);
        TraceIsOriginal(Answer(p, Read(s, m).value), AfterLoad(s, m), mods, original);
      }
    case Test(need, positive, negative) =>
      if need.t in s.pkt {
        TestKeeps(s, original, need);
        TraceIsOriginal(if TestResult(s, need) then positive else negative, AfterTest(s, need), mods, original);
      }
    case Modify(patch, next) =>
      if patch.t in s.pkt {
        ModifyKeeps(s, original, patch);
        TraceIsOriginal(next, AfterModify(s, patch), Modified(mods, patch), original);
      }
  }

  /** From s to s' the cache only grows, and an event between them traces unknown bits that
      are known afterwards if it was a load or a positive test. */
  predicate Grows(s: TState, s': TState, es: seq<Event>) {
    && |es| <= 1
    && (es != [] ==>
      var f := es[0].f;
      && f.mask != {} && f.mask !! KnownBits(s.cache, f.t)
      && (es[0].Loaded? || es[0].ret ==> f.mask <= KnownBits(s'.cache, f.t)))
  }

  ghost predicate Keeps(s: TState, s': TState) {
    forall t :: KnownBits(s.cache, t) <= KnownBits(s'.cache, t)
  }

  /** An event has a type not completely known before; if it adds to the match, it completes the type. */
  predicate Completes(s: TState, s': TState, es: seq<Event>) {
    es != [] ==>
      var t := es[0].f.t;
      && KnownBits(s.cache, t) != All(t)
      && (es[0].Loaded? || es[0].ret ==> KnownBits(s'.cache, t) == All(t))
  }

  lemma LoadLearns(s: TState, m: Mask)
    requires m.t in s.pkt
    ensures Keeps(s, AfterLoad(s, m)) && Grows(s, AfterLoad(s, m), LoadEvents(s, m))
    ensures m.bits == All(m.t) ==> Completes(s, AfterLoad(s, m), LoadEvents(s, m))
  {
    FreshFacts(s, m);
    LearnFacts(s.cache, Fresh(s, m));
  }

  lemma TestLearns(s: TState, need: Field)
    requires need.t in s.pkt
    ensures Keeps(s, AfterTest(s, need)) && Grows(s, AfterTest(s, need), TestEvents(s, need))
    ensures need.mask == All(need.t) ==> Completes(s, AfterTest(s, need), TestEvents(s, need))
  {
    var news := Fresh(s, MaskOf(need));
    FreshFacts(s, MaskOf(need));
    LearnFacts(s.cache, news);
    assert need.mask * news.mask == news.mask;
  }

  lemma ModifyLearns(s: TState, patch: Field)
    requires patch.t in s.pkt
    ensures Keeps(s, AfterModify(s, patch)) && Grows(s, AfterModify(s, patch), [])
  {
    LearnFacts(s.cache, patch);
  }

  /** f traces at least one bit, and none that a field of ctx already fixes. */
  predicate Unseen(ctx: seq<Field>, f: Field) {
    f.mask != {} && forall e :: e in ctx && e.t == f.t ==> e.mask != {} && e.mask !! f.mask
  }

  function Learned(ctx: seq<Field>, e: Event): seq<Field> {
    if e.Loaded? || e.ret then ctx + [e.f] else ctx
  }

  predicate NonRedundant(ctx: seq<Field>, es: seq<Event>)
    decreases |es|
  {
    es == [] || (Unseen(ctx, es[0].f) && NonRedundant(Learned(ctx, es[0]), es[1..]))
  }

  /** ctx lists fields, each tracing something, that the cache knows. */
  predicate KnownFields(ctx: seq<Field>, cache: Entries) {
    forall e :: e in ctx ==> e.mask != {} && e.mask <= KnownBits(cache, e.t)
  }

  /** Bits once loaded, matched or modified are never traced again. */
  lemma {:induction false} TraceNonRedundant(p: Policy, s: TState, mods: Entries, ctx: seq<Field>)
    requires KnownFields(ctx, s.cache)
    ensures NonRedundant(ctx, Trace(p, s, mods).events)
    ensures forall e :: e in Trace(p, s, mods).events ==> e.f.mask !! KnownBits(s.cache, e.f.t)
    decreases p, 0
  {
    match p
    case Return(_) =>
    case Load(m, _, _) =>
      if m.t in s.pkt {
        LoadLearns(s, m);
        StepNonRedundant(Answer(p, Read(s, m).value), s, AfterLoad(s, m), mods, ctx, LoadEvents(s, m));
      }
    case Test(need, positive, negative) =>
      if need.t in s.pkt {
        TestLearns(s, need);
        StepNonRedundant(if TestResult(s, need) then positive else negative, s, AfterTest(s, need), mods, ctx,
                         TestEvents(s, need));
      }
    case Modify(patch, next) =>
      if patch.t in s.pkt {
        ModifyLearns(s, patch);
        TraceNonRedundant(next, AfterModify(s, patch), Modified(mods, patch), ctx);
      }
  }

  lemma {:induction false} StepNonRedundant(k: Policy, s: TState, s': TState, mods: Entries, ctx: seq<Field>,
                                            es: seq<Event>)
    requires KnownFields(ctx, s.cache) && Keeps(s, s') && Grows(s, s', es)
    ensures NonRedundant(ctx, es + Trace(k, s', mods).events)
    ensures forall e :: e in es + Trace(k, s', mods).events ==> e.f.mask !! KnownBits(s.cache, e.f.t)
    decreases k, 1
  {
    hide Trace, KnownBits;
    var rest := Trace(k, s', mods).events;
    if es == [] {
      TraceNonRedundant(k, s', mods, ctx);
      assert es + rest == rest;
    } else {
      TraceNonRedundant(k, s', mods, Learned(ctx, es[0]));
      assert (es + rest)[0] == es[0] && (es + rest)[1..] == rest;
    }
  }

  /** Every rule that the trace asks for, a barrier for each test and a flow if the policy returns, has one
      field per type. */
  predicate Separate(ctx: seq<Field>, es: seq<Event>, returned: bool)
    decreases |es|
  {
    if es == [] then returned ==> OnePerType(Elements(ctx))
    else (es[0].Tested? ==> OnePerType(Elements(ctx + [es[0].f]))) && Separate(Learned(ctx, es[0]), es[1..], returned)
  }

  lemma OnePerTypeMore(ctx: seq<Field>, f: Field)
    requires OnePerType(Elements(ctx)) && forall e :: e in ctx ==> e.t != f.t
    ensures OnePerType(Elements(ctx + [f]))
  {
    assert forall e :: e in Elements(ctx + [f]) ==> e in ctx || e == f;
  }

  /** A trace that takes every type at most once asks for such rules only. */
  lemma {:induction false} ExclusiveIsSeparate(ctx: seq<Field>, es: seq<Event>, returned: bool)
    requires OnePerType(Elements(ctx)) && Exclusive(ctx, es)
    ensures Separate(ctx, es, returned)
    decreases |es|
  {
    if es != [] {
      OnePerTypeMore(ctx, es[0].f);
      ExclusiveIsSeparate(Learned(ctx, es[0]), es[1..], returned);
    }
  }

  /** Each event has a type that no field of the path has yet. */
  predicate Exclusive(ctx: seq<Field>, es: seq<Event>)
    decreases |es|
  {
    es == [] || ((forall e :: e in ctx ==> e.t != es[0].f.t) && Exclusive(Learned(ctx, es[0]), es[1..]))
  }

  /** ctx lists fields whose types the cache knows completely. */
  predicate FullyKnown(ctx: seq<Field>, cache: Entries) {
    forall e :: e in ctx ==> KnownBits(cache, e.t) == All(e.t)
  }

  /** A policy that only asks for whole fields traces each type at most once along a path. */
  lemma {:induction false} ExactIsExclusive(p: Policy, s: TState, mods: Entries, ctx: seq<Field>)
    requires Exact(p) && FullyKnown(ctx, s.cache)
    ensures Exclusive(ctx, Trace(p, s, mods).events)
    decreases p, 0
  {
    match p
    case Return(_) =>
    case Load(m, _, _) =>
      if m.t in s.pkt {
        LoadLearns(s, m);
        StepExclusive(Answer(p, Read(s, m).value), s, AfterLoad(s, m), mods, ctx, LoadEvents(s, m));
      }
    case Test(need, positive, negative) =>
      if need.t in s.pkt {
        TestLearns(s, need);
        StepExclusive(if TestResult(s, need) then positive else negative, s, AfterTest(s, need), mods, ctx,
                      TestEvents(s, need));
      }
    case Modify(patch, next) =>
      if patch.t in s.pkt {
        ModifyLearns(s, patch);
        ExactIsExclusive(next, AfterModify(s, patch), Modified(mods, patch), ctx);
      }
  }

  lemma {:induction false} StepExclusive(k: Policy, s: TState, s': TState, mods: Entries, ctx: seq<Field>,
                                         es: seq<Event>)
    requires Exact(k) && FullyKnown(ctx, s.cache) && Keeps(s, s') && Grows(s, s', es)
    requires Completes(s, s', es)
    ensures Exclusive(ctx, es + Trace(k, s', mods).events)
    decreases k, 1
  {
    hide Trace;
    var rest := Trace(k, s', mods).events;
    if es == [] {
      ExactIsExclusive(k, s', mods, ctx);
      assert es + rest == rest;
    } else {
      ExactIsExclusive(k, s', mods, Learned(ctx, es[0]));
      assert (es + rest)[0] == es[0] && (es + rest)[1..] == rest;
    }
  }
}
