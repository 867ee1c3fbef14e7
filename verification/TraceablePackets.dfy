/** The packet wrappers a policy runs on: the header buffer, modification tracking, and tracing. */
module TraceablePackets {
  import opened Oxm
  import opened FieldSets
  import P = Policies
  import opened Tracing
  import opened Grafting
  import opened Paths
  import opened Tracers

  /** The result of a packet access or of a policy: it may throw out_of_range, or let a tracer's
      exception through. */
  datatype Access<T> = Value(value: T) | OutOfRange | Thrown(status: Status)

  /** PacketParser: reads and writes the header fields it has bound. */
  class PacketBuffer {
    var bits: Packet

    constructor (bits: Packet)
      ensures this.bits == bits
    {
      this.bits := bits;
    }

    method Load(m: Mask) returns (r: Access<Field>)
      ensures r == if m.t in bits then Value(LoadBits(bits, m)) else OutOfRange
    {
      if m.t !in bits {
        return OutOfRange;
      }
      return Value(Select(m.t, bits[m.t], m));
    }

    method Modify(patch: Field) returns (r: Access<()>)
      modifies this
      ensures r == if patch.t in old(bits) then Value(()) else OutOfRange
      ensures bits == if patch.t in old(bits) then Patch(old(bits), patch) else old(bits)
    {
      if patch.t !in bits {
        return OutOfRange;
      }
      bits := bits[patch.t := RewriteBits(bits[patch.t], patch)];
      return Value(());
    }
  }

  class ModTrackingPacket {
    const pkt: PacketBuffer
    const mods: FieldSet

    constructor (pkt: PacketBuffer)
      ensures this.pkt == pkt && fresh(mods) && mods.entries == map[]
    {
      this.pkt := pkt;
      mods := new FieldSet();
    }

    method Modify(patch: Field) returns (r: Access<()>)
      modifies pkt, mods
      ensures r == if patch.t in old(pkt.bits) then Value(()) else OutOfRange
      ensures pkt.bits == if patch.t in old(pkt.bits) then Patch(old(pkt.bits), patch) else old(pkt.bits)
      ensures mods.entries == if patch.t in old(pkt.bits) then Modified(old(mods.entries), patch) else old(mods.entries)
    {
      r := pkt.Modify(patch);
      if r.Value? {
        mods.Modify(patch);
      }
    }
  }

  class TraceablePacket {
    const pkt: ModTrackingPacket
    const tracer: Tracer
    const cache: FieldSet

    constructor (pkt: ModTrackingPacket, tracer: Tracer)
      ensures this.pkt == pkt && this.tracer == tracer && fresh(cache) && cache.entries == map[]
    {
      this.pkt, this.tracer := pkt, tracer;
      cache := new FieldSet();
    }

    ghost predicate Valid()
      reads this, pkt, tracer, tracer.tree, tracer.matching
    {
      tracer.Valid() && cache != pkt.mods
    }

    ghost function State(): TState
      reads pkt.pkt, cache
    {
      TState(pkt.pkt.bits, cache.entries)
    }

    /** What an access does to the tracer: it takes the access's events, up to one that throws. */
    method Load(m: Mask) returns (r: Access<Field>)
      requires Valid()
      modifies cache, tracer, tracer.tree, tracer.matching
      ensures Valid()
      ensures m.t !in old(State()).pkt ==>
              r == OutOfRange && State() == old(State()) && tracer.View() == old(tracer.View())
      ensures m.t in old(State()).pkt ==>
        var a := AdvanceAll(old(tracer.View()), LoadEvents(old(State()), m));
        && tracer.View() == a.cursor
        && r == (if a.status == Done then Value(Read(old(State()), m)) else Thrown(a.status))
        && (a.status == Done ==> State() == AfterLoad(old(State()), m))
    {
      var read := pkt.pkt.Load(m);
      if read.OutOfRange? {
        return OutOfRange;
      }
      var explored := cache.Load(m);
      var unexplored := Widen(read.value, Complement(MaskOf(explored)));
      if unexplored.mask != {} {
        var status := tracer.Load(unexplored);
        if status != Done {
          return Thrown(status);
        }
        cache.Modify(unexplored);
      }
      return Value(read.value);
    }

    method Test(need: Field) returns (r: Access<bool>)
      requires Valid()
      modifies cache, tracer, tracer.tree, tracer.matching, tracer.backend
      ensures Valid()
      ensures need.t !in old(State()).pkt ==>
              r == OutOfRange && State() == old(State()) && tracer.View() == old(tracer.View())
      ensures need.t in old(State()).pkt ==>
        var a := AdvanceAll(old(tracer.View()), TestEvents(old(State()), need));
        && tracer.View() == a.cursor
        && r == (if a.status == Done then Value(TestResult(old(State()), need)) else Thrown(a.status))
        && (a.status == Done ==> State() == AfterTest(old(State()), need))
    {
      var read := pkt.pkt.Load(MaskOf(need));
      if read.OutOfRange? {
        return OutOfRange;
      }
      var explored := cache.Load(MaskOf(need));
      var unexplored := Widen(read.value, Complement(MaskOf(explored)));
      if !Compatible(explored, need) {
        return Value(false);
      }
      if unexplored.mask == {} {
        return Value(true);
      }
      var ret := Compatible(unexplored, need);
      var status := tracer.Test(Widen(need, MaskOf(unexplored)), ret);
      if status != Done {
        return Thrown(status);
      }
      if ret {
        cache.Modify(unexplored);
      }
      return Value(ret);
    }

    method Modify(patch: Field) returns (r: Access<()>)
      requires Valid()
      modifies pkt.pkt, pkt.mods, cache
      ensures Valid()
      ensures r == if patch.t in old(State()).pkt then Value(()) else OutOfRange
      ensures patch.t !in old(State()).pkt ==> State() == old(State()) && pkt.mods.entries == old(pkt.mods.entries)
      ensures patch.t in old(State()).pkt ==>
        State() == AfterModify(old(State()), patch) && pkt.mods.entries == Modified(old(pkt.mods.entries), patch)
    {
      r := pkt.Modify(patch);
      if r.Value? {
        cache.Modify(patch);
      }
    }
  }

  lemma TakenNone(c: Cursor)
    requires ValidPath(c.root, c.path)
    ensures AdvanceAll(c, []) == Advanced(c, Done) && Taken(c, []) == 0
  {
  }

  /** The tracer has gone from before to after by taking the trace's events, or those up to one that
      throws; if none throws, the policy's outcome is that of the trace. */
  ghost predicate Executed(tr: TraceResult, before: Cursor, after: Cursor, r: Access<P.Decision>, pkt: Packet,
                           mods: Entries)
    requires ValidPath(before.root, before.path)
  {
    var a := AdvanceAll(before, tr.events);
    && after == a.cursor
    && if a.status != Done then r == Thrown(a.status)
       else match tr.outcome
         case OutOfRange => r == OutOfRange
         case Returned(d, pkt', mods') => r == Value(d) && pkt == pkt' && mods == mods'
  }

  /** Besides, the packet and the modifications are those up to the event that throws. */
  ghost predicate Executes(p: P.Policy, s: TState, mods: Entries, before: Cursor, after: Cursor, r: Access<P.Decision>,
                           pkt: Packet, mods': Entries)
    requires ValidPath(before.root, before.path)
  {
    && Executed(Trace(p, s, mods), before, after, r, pkt, mods')
    && (pkt, mods') == Halted(p, s, mods, Taken(before, Trace(p, s, mods).events))
  }

  lemma ExecutesNothing(p: P.Policy, s: TState, mods: Entries, view: Cursor)
    requires ValidPath(view.root, view.path)
    ensures p.Return? ==> Executes(p, s, mods, view, view, Value(p.decision), s.pkt, mods)
    ensures p.Load? && p.mask.t !in s.pkt ==> Executes(p, s, mods, view, view, OutOfRange, s.pkt, mods)
    ensures p.Test? && p.need.t !in s.pkt ==> Executes(p, s, mods, view, view, OutOfRange, s.pkt, mods)
    ensures p.Modify? && p.patch.t !in s.pkt ==> Executes(p, s, mods, view, view, OutOfRange, s.pkt, mods)
  {
    TakenNone(view);
  }

  lemma ExecutedConcat(tr: TraceResult, view: Cursor, es: seq<Event>, after: Cursor, r: Access<P.Decision>,
                       pkt: Packet, mods: Entries)
    requires ValidPath(view.root, view.path)
    ensures var a := AdvanceAll(view, es);
            if a.status == Done then Executed(tr, a.cursor, after, r, pkt, mods) ==>
              Executed(Cons(es, tr), view, after, r, pkt, mods)
            else Executed(Cons(es, tr), view, a.cursor, Thrown(a.status), pkt, mods)
  {
    AdvanceAllConcat(view, es, tr.events);
    hide AdvanceAll, ValidPath;
  }

  lemma TakenStep(view: Cursor, es: seq<Event>, more: seq<Event>)
    requires ValidPath(view.root, view.path) && |es| <= 1
    ensures var a, n := AdvanceAll(view, es), Taken(view, es + more);
            if a.status == Done then n == |es| + Taken(a.cursor, more) else n < |es|
  {
    TakenConcat(view, es, more);
    hide AdvanceAll, ValidPath, Taken;
  }

  /** From p the access with events es goes on to k. */
  ghost predicate GoesOn(p: P.Policy, s: TState, mods: Entries, es: seq<Event>, k: P.Policy, s': TState) {
    && |es| <= 1 && Trace(p, s, mods) == Cons(es, Trace(k, s', mods))
    && forall n: nat :: Halted(p, s, mods, n) == if |es| > n then (s.pkt, mods) else Halted(k, s', mods, n - |es|)
  }

  lemma ExecutesStep(p: P.Policy, s: TState, mods: Entries, view: Cursor, es: seq<Event>, k: P.Policy, s': TState,
                     after: Cursor, r: Access<P.Decision>, pkt: Packet, mods': Entries)
    requires ValidPath(view.root, view.path) && GoesOn(p, s, mods, es, k, s')
    ensures var a := AdvanceAll(view, es);
            if a.status == Done then
              Executes(k, s', mods, a.cursor, after, r, pkt, mods') ==> Executes(p, s, mods, view, after, r, pkt, mods')
            else Executes(p, s, mods, view, a.cursor, Thrown(a.status), s.pkt, mods)
  {
    hide AdvanceAll, Taken, ValidPath, Trace, Halted, Executed;
    var tr := Trace(k, s', mods);
    TakenStep(view, es, tr.events);
    ExecutedConcat(tr, view, es, after, r, pkt, mods');
    ExecutedConcat(tr, view, es, after, r, s.pkt, mods);
    assert Halted(p, s, mods, Taken(view, es + tr.events)) ==
           if |es| > Taken(view, es + tr.events)
             then (s.pkt, mods) else Halted(k, s', mods, Taken(view, es + tr.events) - |es|);
  }

  lemma LoadGoesOn(p: P.Policy, s: TState, mods: Entries)
    requires p.Load? && p.mask.t in s.pkt
    ensures GoesOn(p, s, mods, LoadEvents(s, p.mask), P.Answer(p, Read(s, p.mask).value), AfterLoad(s, p.mask))
  {
    hide AfterLoad, Fresh, P.Answer;
  }

  lemma TestGoesOn(p: P.Policy, s: TState, mods: Entries)
    requires p.Test? && p.need.t in s.pkt
    ensures GoesOn(p, s, mods, TestEvents(s, p.need), if TestResult(s, p.need) then p.positive else p.negative,
                   AfterTest(s, p.need))
  {
    hide AfterTest, Fresh, Settled, TestResult;
  }

  lemma ExecutesModify(p: P.Policy, s: TState, mods: Entries, view: Cursor, after: Cursor, r: Access<P.Decision>,
                       pkt: Packet, mods': Entries)
    requires ValidPath(view.root, view.path) && p.Modify? && p.patch.t in s.pkt
    ensures Executes(p.next, AfterModify(s, p.patch), Modified(mods, p.patch), view, after, r, pkt, mods') ==>
            Executes(p, s, mods, view, after, r, pkt, mods')
  {
    hide AdvanceAll, Taken, ValidPath, Modified;
  }

  /** Running a policy on a traceable packet drives the tracer through the trace's events. */
  method Execute(p: P.Policy, tpkt: TraceablePacket) returns (r: Access<P.Decision>)
    requires tpkt.Valid()
    modifies tpkt.pkt.pkt, tpkt.pkt.mods, tpkt.cache, tpkt.tracer, tpkt.tracer.tree, tpkt.tracer.matching,
             tpkt.tracer.backend
    ensures tpkt.Valid()
    ensures Executes(p, old(tpkt.State()), old(tpkt.pkt.mods.entries), old(tpkt.tracer.View()), tpkt.tracer.View(), r,
                     tpkt.pkt.pkt.bits, tpkt.pkt.mods.entries)
    decreases p
  {
    hide Executes, AdvanceAll, ValidPath, LoadEvents, TestEvents, AfterLoad, AfterTest, AfterModify, Modified,
         TestResult, GoesOn;
    ghost var view, s, mods := tpkt.tracer.View(), tpkt.State(), tpkt.pkt.mods.entries;
    ExecutesNothing(p, s, mods, view);
    match p
    case Return(d) =>
      r := Value(d);
    case Load(m, _, _) =>
      var v := tpkt.Load(m);
      if v.Value? {
        r := Execute(P.Answer(p, v.value.value), tpkt);
      } else {
        r := if v.OutOfRange? then OutOfRange else Thrown(v.status);
      }
      if m.t in s.pkt {
        LoadGoesOn(p, s, mods);
        ExecutesStep(p, s, mods, view, LoadEvents(s, m), P.Answer(p, Read(s, m).value), AfterLoad(s, m),
                     tpkt.tracer.View(), r, tpkt.pkt.pkt.bits, tpkt.pkt.mods.entries);
      }
    case Test(need, positive, negative) =>
      var hit := tpkt.Test(need);
      if hit.Value? {
        r := Execute(if hit.value then positive else negative, tpkt);
      } else {
        r := if hit.OutOfRange? then OutOfRange else Thrown(hit.status);
      }
      if need.t in s.pkt {
        TestGoesOn(p, s, mods);
        ExecutesStep(p, s, mods, view, TestEvents(s, need), if TestResult(s, need) then positive else negative,
                     AfterTest(s, need),
                     tpkt.tracer.View(), r, tpkt.pkt.pkt.bits, tpkt.pkt.mods.entries);
      }
    case Modify(patch, next) =>
      var done := tpkt.Modify(patch);
      if done.Value? {
        r := Execute(next, tpkt);
        ExecutesModify(p, s, mods, view, tpkt.tracer.View(), r, tpkt.pkt.pkt.bits, tpkt.pkt.mods.entries);
      } else {
        r := OutOfRange;
      }
  }
}
