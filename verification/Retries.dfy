/** The packet-in path as a whole (src/Maple.cc): a miss, and when priorities run out, rebalancing and a
    second attempt on the packet as the first one left it, with the modifications that it had collected. */
module Retries {
  import opened Wrappers
  import opened Oxm
  import opened FieldSets
  import P = Policies
  import opened Tracing
  import opened TraceTrees
  import opened Grafting
  import opened Priorities
  import opened Caching
  import opened FlowTables
  import opened Paths
  import opened Controllers

  /** The trace of a packet on which modifications have been collected before. */
  function TraceFrom(policy: P.Policy, pkt: Packet, mods: Entries): TraceResult {
    Trace(policy, TState(pkt, map[]), mods)
  }

  function GraftFrom(policy: P.Policy, c: Controller, pkt: Packet, mods: Entries, flow: FlowId): Grafted {
    var tr := TraceFrom(policy, pkt, mods);
    Graft(c.root, tr.events, Ending(tr.outcome, flow), c.left, c.right, [], c.nextId)
  }

  /** Runtime::augment, and the installer. */
  function Attempted(policy: P.Policy, c: Controller, pkt: Packet, mods: Entries, flow: FlowId): (Controller,
                     MissStatus) {
    var tr, g := TraceFrom(policy, pkt, mods), GraftFrom(policy, c, pkt, mods, flow);
    var c' := c.(root := g.node, nextId := g.nextId, table := InstallAll(c.table, Pushed(g)));
    if g.status != Done then (c', Exceeded)
    else if tr.outcome.OutOfRange? then (c', Threw)
    else (c'.(flows := c'.flows[flow := FlowRecord(tr.outcome.decision, tr.outcome.mods)]), Installed(flow))
  }

  lemma MissedIsAttempt(policy: P.Policy, c: Controller, pkt: Packet)
    ensures Missed(policy, c, pkt) ==
            if Lookup(c.root, pkt, c.flows.Keys) == OutOfRange then (c, Threw)
            else Attempted(policy, Started(c, pkt), pkt, map[], StartFlow(c, pkt))
  {
    hide Graft, Trace, InstallAll, Lookup;
  }

  /** Packet and modifications when the first attempt has failed. */
  function LeftBehind(policy: P.Policy, c: Controller, pkt: Packet): (Packet, Entries) {
    Halted(policy, TState(pkt, map[]), map[],
           Taken(Cursor(c.root, [], c.left, c.right, [], c.nextId, c.table), TraceOf(policy, pkt).events))
  }

  /** processPacketIn on a packet whose flow is new, idle or evicted. */
  ghost function Processed(policy: P.Policy, c: Controller, pkt: Packet): (Controller, MissStatus)
    requires Caches(policy, c)
  {
    var (c1, status) := Missed(policy, c, pkt);
    if status != Exceeded then (c1, status)
    else
      MissedCaches(policy, c, pkt);
      var (pkt', mods) := LeftBehind(policy, c, pkt);
      Attempted(policy, Updated(c1), pkt', mods, StartFlow(c, pkt))
  }

  // ---------- one attempt for a flow that is not in the tree ----------

  lemma JoinedToNone(mods: Entries)
    ensures Joined(mods, map[]) == mods
  {
  }

  lemma AttemptFits(policy: P.Policy, pkt: Packet, mods: Entries)
    ensures var tr := TraceFrom(policy, pkt, mods);
            && tr.outcome == P.Run(policy, pkt, mods)
            && tr.events == TraceOf(policy, pkt).events
            && (tr.outcome.Returned? <==> P.Run(policy, pkt, map[]).Returned?)
  {
    Opening(pkt);
    TraceTransparent(policy, TState(pkt, map[]), mods);
    TraceMods(policy, TState(pkt, map[]), mods, map[]);
    P.RunJoined(policy, pkt, mods, map[]);
    JoinedToNone(mods);
  }

  lemma AttemptAgrees(policy: P.Policy, c: Controller, pkt: Packet, flow: FlowId)
    requires Caches(policy, c) && flow in c.flows && !HasFlow(c.root, flow)
    ensures var c' := Attempted(policy, c, pkt, map[], flow).0;
            && Agrees(c'.root, policy, map[], map[], c'.flows)
            && GraftFrom(policy, c, pkt, map[], flow).status != InconsistentTrace
            && forall f: FlowId :: HasFlow(c'.root, f) ==> f < c'.nextFlow
  {
    hide Agrees, Graft, Trace, WellMasked, OneField, InstallAll, HasFlow, SeparateTypes, HasId, UniqueIds,
         NonEmptyLoads, UniqueFlows;
    var tr, g := TraceFrom(policy, pkt, map[]), GraftFrom(policy, c, pkt, map[], flow);
    var flows := if tr.outcome.Returned?
      then c.flows[flow := FlowRecord(tr.outcome.decision, tr.outcome.mods)] else c.flows;
    Opening(pkt);
    AgreesFrame(c.root, policy, map[], map[], c.flows, flows);
    GraftAgrees(c.root, policy, TState(pkt, map[]), map[], flows, flow, c.left, c.right, [], c.nextId);
    var c' := Attempted(policy, c, pkt, map[], flow).0;
    forall f: FlowId | HasFlow(g.node, f)
      ensures f < c'.nextFlow && (f in c'.flows ==> f in flows && flows[f] == c'.flows[f])
    {
      GraftFlows(c.root, tr.events, Ending(tr.outcome, flow), c.left, c.right, [], c.nextId, f);
    }
    AgreesFrame(g.node, policy, map[], map[], flows, c'.flows);
  }

  /** An attempt on a packet without earlier modifications keeps the cache right. */
  lemma AttemptCaches(policy: P.Policy, c: Controller, pkt: Packet, flow: FlowId)
    requires Caches(policy, c) && flow in c.flows && !HasFlow(c.root, flow)
    ensures Caches(policy, Attempted(policy, c, pkt, map[], flow).0)
  {
    hide Agrees, Graft, Trace, WellMasked, OneField, InstallAll, HasFlow, Separate, HasId, UniqueIds, NonEmptyLoads,
         UniqueFlows;
    var tr := TraceFrom(policy, pkt, map[]);
    AttemptAgrees(policy, c, pkt, flow);
    TraceFits(policy, pkt);
    GraftKeepsTree(c.root, tr.events, Ending(tr.outcome, flow), c.left, c.right, c.nextId);
    GraftKeepsFlows(c.root, tr.events, Ending(tr.outcome, flow), c.left, c.right, [], c.nextId);
    assert SeparateTypes(policy) ==> Separate([], tr.events, tr.outcome.Returned?);
  }

  // ---------- what the second attempt records ----------

  /** What is recorded for a flow installed on a packet with earlier modifications: the policy's own
      modifications joined to them. From then on lookup finds that flow for the packet. */
  lemma AttemptRecords(policy: P.Policy, c: Controller, pkt: Packet, mods: Entries, flow: FlowId)
    requires flow in c.flows && Attempted(policy, c, pkt, mods, flow).1 == Installed(flow)
    ensures var c', out := Attempted(policy, c, pkt, mods, flow).0, P.Run(policy, pkt, map[]);
            && out.Returned? && flow in c'.flows && c'.flows[flow] == FlowRecord(out.decision, Joined(mods, out.mods))
            && Lookup(c'.root, pkt, c'.flows.Keys) == Hit(flow)
  {
    hide Graft, Trace, InstallAll, Lookup;
    AttemptFits(policy, pkt, mods);
    TraceFits(policy, pkt);
    P.RunJoined(policy, pkt, mods, map[]);
    JoinedToNone(mods);
    var tr := TraceFrom(policy, pkt, mods);
    assert Attempted(policy, c, pkt, mods, flow).0.flows.Keys == c.flows.Keys;
    GraftCaches(c.root, tr.events, Ending(tr.outcome, flow), c.left, c.right, [], c.nextId, pkt, c.flows.Keys);
  }

  /** The policy overwrites every bit that was modified before. */
  predicate Repeats(out: P.Outcome, mods: Entries) {
    out.Returned? ==> Covers(out.mods, mods)
  }

  /** Earlier modifications change nothing else. */
  lemma AttemptShape(policy: P.Policy, c: Controller, pkt: Packet, mods: Entries, flow: FlowId)
    ensures var (c1, s1) := Attempted(policy, c, pkt, mods, flow);
            var (c0, s0) := Attempted(policy, c, pkt, map[], flow);
            && s1 == s0 && c1.(flows := c0.flows) == c0
            && (!s1.Installed? ==> c1 == c0)
            && (s1.Installed? && Repeats(P.Run(policy, pkt, map[]), mods) ==> c1 == c0)
  {
    hide Graft, Trace, InstallAll, Joined, Covers, P.Run;
    AttemptFits(policy, pkt, mods);
    AttemptFits(policy, pkt, map[]);
    P.RunJoined(policy, pkt, mods, map[]);
    JoinedToNone(mods);
    var out := P.Run(policy, pkt, map[]);
    if out.Returned? {
      JoinedExact(mods, out.mods);
    }
    var tr := TraceFrom(policy, pkt, map[]);
    assert GraftFrom(policy, c, pkt, mods, flow) == GraftFrom(policy, c, pkt, map[], flow);
  }

  /** After an attempt on a packet with earlier modifications the cache is right exactly if the policy
      overwrites them all. */
  lemma AttemptExact(policy: P.Policy, c: Controller, pkt: Packet, mods: Entries, flow: FlowId)
    requires Caches(policy, c) && flow in c.flows && !HasFlow(c.root, flow)
    ensures var (c', status) := Attempted(policy, c, pkt, mods, flow);
            Caches(policy, c') <==> (status.Installed? ==> Repeats(P.Run(policy, pkt, map[]), mods))
  {
    hide Graft, Trace, InstallAll, Lookup, Agrees, Covers, Joined, HasFlow, WellMasked, UniqueIds, OneField,
         NonEmptyLoads, HasId, SeparateTypes;
    AttemptShape(policy, c, pkt, mods, flow);
    AttemptCaches(policy, c, pkt, flow);
    var (c', status) := Attempted(policy, c, pkt, mods, flow);
    var out := P.Run(policy, pkt, map[]);
    if status.Installed? {
      AttemptRecords(policy, c, pkt, mods, flow);
      JoinedExact(mods, out.mods);
      if Caches(policy, c') {
        Opening(pkt);
        LookupSound(c'.root, policy, TState(pkt, map[]), pkt, map[], c'.flows);
      }
    }
  }

  lemma ExceededFlow(policy: P.Policy, c: Controller, pkt: Packet)
    requires Caches(policy, c) && Missed(policy, c, pkt).1 == Exceeded
    ensures var c2, flow := Updated(MissedC(policy, c, pkt)), StartFlow(c, pkt);
            Caches(policy, c2) && flow in c2.flows && !HasFlow(c2.root, flow)
  {
    hide Graft, Trace, InstallAll, Lookup, Agrees, WellMasked, UniqueIds, OneField, NonEmptyLoads, HasId,
         SeparateTypes, HasFlow, Rebalanced;
    var c1, flow := Missed(policy, c, pkt).0, StartFlow(c, pkt);
    var tr, g := TraceOf(policy, pkt), GraftOf(policy, c, pkt);
    MissAnswers(policy, c, pkt);
    MissedCaches(policy, c, pkt);
    UpdatedCaches(policy, c1);
    StartedCaches(policy, c, pkt);
    MissedShape(policy, c, pkt);
    SameIds(c1.root, Updated(c1).root);
    if HasFlow(g.node, flow) {
      GraftFlows(c.root, tr.events, Ending(tr.outcome, flow), c.left, c.right, [], c.nextId, flow);
    }
  }

  function MissedC(policy: P.Policy, c: Controller, pkt: Packet): (c': Controller)
    requires Caches(policy, c)
    ensures Caches(policy, c') && NonEmptyLoads(c'.root) && c'.left <= c'.right
  {
    MissedCaches(policy, c, pkt);
    Missed(policy, c, pkt).0
  }

  /** The first attempt sufficed, or the second installs nothing, or repeats the modifications of the first. */
  ghost predicate CleanRetry(policy: P.Policy, c: Controller, pkt: Packet)
    requires Caches(policy, c)
  {
    var (pkt', mods) := LeftBehind(policy, c, pkt);
    Missed(policy, c, pkt).1 == Exceeded && Processed(policy, c, pkt).1.Installed? ==>
      Repeats(P.Run(policy, pkt', map[]), mods)
  }

  /** The packet-in path keeps the cache right exactly if a second attempt that succeeds modifies again
      every bit that the first one has modified. */
  lemma ProcessedExact(policy: P.Policy, c: Controller, pkt: Packet)
    requires Caches(policy, c)
    ensures Caches(policy, Processed(policy, c, pkt).0) <==> CleanRetry(policy, c, pkt)
  {
    hide Missed, Attempted, Caches, Halted, Taken, P.Run, Repeats;
    MissedCaches(policy, c, pkt);
    if Missed(policy, c, pkt).1 == Exceeded {
      var (pkt', mods) := LeftBehind(policy, c, pkt);
      ExceededFlow(policy, c, pkt);
      AttemptExact(policy, Updated(MissedC(policy, c, pkt)), pkt', mods, StartFlow(c, pkt));
    }
  }

  /** What the packet-in path answers: a flow whose record is the policy's, with the modifications of a
      failed attempt joined, for the packet on which the last attempt ran; or the policy's exception; or,
      for the second time, that priorities have run out. */
  lemma ProcessedAnswers(policy: P.Policy, c: Controller, pkt: Packet)
    requires Caches(policy, c)
    ensures var (c', status) := Processed(policy, c, pkt);
            var (last, mods) := if Missed(policy, c, pkt).1 == Exceeded
              then LeftBehind(policy, c, pkt) else (pkt, map[]);
            var out := P.Run(policy, last, map[]);
            match status
            case Installed(flow) =>
              && out.Returned? && flow in c'.flows && c'.flows[flow] == FlowRecord(out.decision, Joined(mods, out.mods))
              && Lookup(c'.root, last, c'.flows.Keys) == Hit(flow)
            case Threw => out.OutOfRange?
            case Exceeded => Lookup(c.root, pkt, c.flows.Keys) == Miss
  {
    hide Missed, Attempted, Caches, Halted, Taken, P.Run, Lookup, Joined;
    MissAnswers(policy, c, pkt);
    MissedCaches(policy, c, pkt);
    var out := P.Run(policy, pkt, map[]);
    if Missed(policy, c, pkt).1 == Exceeded {
      var (pkt', mods) := LeftBehind(policy, c, pkt);
      var c2, flow := Updated(MissedC(policy, c, pkt)), StartFlow(c, pkt);
      ExceededFlow(policy, c, pkt);
      AttemptEnds(policy, c2, pkt', mods, flow);
      if Processed(policy, c, pkt).1.Installed? {
        AttemptRecords(policy, c2, pkt', mods, flow);
      }
    } else if out.Returned? {
      JoinedNone(out.mods);
    }
  }

  lemma JoinedNone(mods: Entries)
    ensures Joined(map[], mods) == mods
  {
  }

  lemma AttemptEnds(policy: P.Policy, c: Controller, pkt: Packet, mods: Entries, flow: FlowId)
    ensures var status := Attempted(policy, c, pkt, mods, flow).1;
            && (status.Installed? ==> status.flow == flow)
            && (status == Threw ==> P.Run(policy, pkt, map[]).OutOfRange?)
  {
    hide Graft, Trace, InstallAll;
    AttemptFits(policy, pkt, mods);
  }

  // ---------- by effect ----------

  /** If lookup answers q, then with the policy's decision, and with modifications that make of q the packet
      that the policy makes of it. */
  ghost predicate Answers(policy: P.Policy, c: Controller, q: Packet) {
    Lookup(c.root, q, c.flows.Keys).Hit? ==>
      var out, record := P.Run(policy, q, map[]), c.flows[Lookup(c.root, q, c.flows.Keys).flow];
      out.Returned? && record.decision == out.decision && ApplyEntries(record.mods, q) == out.pkt
  }

  lemma CachesAnswers(policy: P.Policy, c: Controller, q: Packet)
    requires Caches(policy, c) && UntracedBound(policy, q)
    ensures Answers(policy, c, q)
  {
    hide Agrees, WellMasked, UniqueIds, OneField, NonEmptyLoads, HasFlow, HasId, SeparateTypes, Lookup, UntracedBound;
    if Lookup(c.root, q, c.flows.Keys).Hit? {
      HitIsRight(policy, c, q);
      NothingApplied(q);
      P.ModsReplay(policy, q, q, map[]);
    }
  }

  lemma NothingApplied(q: Packet)
    ensures ApplyEntries(map[], q) == q
  {
  }

  ghost predicate TraceHolds(policy: P.Policy, pkt: Packet, q: Packet) {
    forall e :: e in TraceOf(policy, pkt).events ==> EventHolds(q, e)
  }

  /** The packets that the flow of an attempt answers are those of which its trace holds. */
  lemma AttemptReaches(policy: P.Policy, c: Controller, pkt: Packet, flow: FlowId, q: Packet)
    requires flow in c.flows && !HasFlow(c.root, flow) && Attempted(policy, c, pkt, map[], flow).1 == Installed(flow)
    ensures var c' := Attempted(policy, c, pkt, map[], flow).0;
            Lookup(c'.root, q, c'.flows.Keys) == Hit(flow) <==> TraceHolds(policy, pkt, q)
  {
    hide Graft, Trace, Lookup, HasFlow, EventHolds;
    var tr, c' := TraceFrom(policy, pkt, map[]), Attempted(policy, c, pkt, map[], flow).0;
    assert c'.flows.Keys == c.flows.Keys && c'.root == GraftFrom(policy, c, pkt, map[], flow).node;
    if TraceHolds(policy, pkt, q) {
      GraftCaches(c.root, tr.events, Some(flow), c.left, c.right, [], c.nextId, q, c.flows.Keys);
    }
    if Lookup(c'.root, q, c'.flows.Keys) == Hit(flow) {
      GraftReaches(c.root, tr.events, Some(flow), c.left, c.right, [], c.nextId, q, c.flows.Keys);
    }
  }

  /** After an attempt on a packet with earlier modifications, an answer is right by effect exactly if those
      that are not overwritten change nothing of the packet. */
  lemma AttemptByEffect(policy: P.Policy, c: Controller, pkt: Packet, mods: Entries, flow: FlowId, q: Packet)
    requires Caches(policy, c) && flow in c.flows && !HasFlow(c.root, flow) && UntracedBound(policy, q)
    requires Attempted(policy, c, pkt, mods, flow).1 == Installed(flow)
    ensures P.Run(policy, pkt, map[]).Returned?
    ensures Answers(policy, Attempted(policy, c, pkt, mods, flow).0, q) <==>
            (TraceHolds(policy, pkt, q) ==> Stays(mods, P.Run(policy, pkt, map[]).mods, q))
  {
    hide Attempted, Caches, Lookup, HasFlow, P.Run, UntracedBound, TraceHolds, ApplyEntries, Joined, Stays;
    AttemptShape(policy, c, pkt, mods, flow);
    AttemptRecords(policy, c, pkt, mods, flow);
    AttemptRecords(policy, c, pkt, map[], flow);
    AttemptReaches(policy, c, pkt, flow, q);
    AttemptCaches(policy, c, pkt, flow);
    var c1, c0 := Attempted(policy, c, pkt, mods, flow).0, Attempted(policy, c, pkt, map[], flow).0;
    var out := P.Run(policy, pkt, map[]);
    JoinedNone(out.mods);
    CachesAnswers(policy, c0, q);
    JoinedApplies(mods, out.mods, q);
    OtherRecords(policy, c, pkt, mods, flow);
  }

  lemma OtherRecords(policy: P.Policy, c: Controller, pkt: Packet, mods: Entries, flow: FlowId)
    requires flow in c.flows
    ensures var c1, c0 := Attempted(policy, c, pkt, mods, flow).0, Attempted(policy, c, pkt, map[], flow).0;
            && c1.root == c0.root && c1.flows.Keys == c0.flows.Keys == c.flows.Keys
            && forall f :: f in c.flows && f != flow ==> c1.flows[f] == c0.flows[f] == c.flows[f]
  {
    hide Graft, Trace, InstallAll;
    AttemptShape(policy, c, pkt, mods, flow);
    AttemptFits(policy, pkt, mods);
  }

  /** The modifications of a first attempt that a second one leaves change no packet that comes to its leaf
      and has the fields that the policy modifies. */
  ghost predicate HarmlessRetry(policy: P.Policy, c: Controller, pkt: Packet)
    requires Caches(policy, c)
  {
    var (last, mods) := LeftBehind(policy, c, pkt);
    Missed(policy, c, pkt).1 == Exceeded && Processed(policy, c, pkt).1.Installed? ==>
      var out := P.Run(policy, last, map[]);
      out.Returned? && forall q :: UntracedBound(policy, q) && TraceHolds(policy, last, q) ==> Stays(mods, out.mods, q)
  }

  /** After the packet-in path all answers are right by effect, for the packets with the fields that the policy
      modifies, exactly if a second attempt is harmless. */
  lemma ProcessedByEffect(policy: P.Policy, c: Controller, pkt: Packet)
    requires Caches(policy, c)
    ensures (forall q :: UntracedBound(policy, q) ==> Answers(policy, Processed(policy, c, pkt).0, q))
            <==> HarmlessRetry(policy, c, pkt)
  {
    hide Missed, Attempted, Caches, Halted, Taken, P.Run, Answers, UntracedBound, TraceHolds, Stays, Rebalanced,
         Repeats;
    var c' := Processed(policy, c, pkt).0;
    var (last, mods) := LeftBehind(policy, c, pkt);
    if Missed(policy, c, pkt).1 == Exceeded && Processed(policy, c, pkt).1.Installed? {
      ExceededFlow(policy, c, pkt);
      var c2, flow := Updated(MissedC(policy, c, pkt)), StartFlow(c, pkt);
      AttemptEnds(policy, c2, last, mods, flow);
      AttemptRecords(policy, c2, last, mods, flow);
      forall q | UntracedBound(policy, q)
        ensures Answers(policy, c', q) <==>
                (TraceHolds(policy, last, q) ==> Stays(mods, P.Run(policy, last, map[]).mods, q))
      {
        AttemptByEffect(policy, c2, last, mods, flow, q);
      }
    } else {
      ProcessedExact(policy, c, pkt);
      forall q | UntracedBound(policy, q) ensures Answers(policy, c', q) {
        CachesAnswers(policy, c', q);
      }
    }
  }

  // ---------- runs of the packet-in path ----------

  /** Packets in, expired flows, rebalancing in any range, and any change of the switch's table. (The
      states of runs are such that the steps are defined: RunCaches.) */
  ghost predicate Step(policy: P.Policy, c: Controller, c': Controller) {
    Caches(policy, c) ==>
      || (exists pkt :: CleanRetry(policy, c, pkt) && c' == Processed(policy, c, pkt).0)
      || (exists f :: c' == Expired(c, f))
      || c' == Updated(c)
      || c' == c.(table := c'.table)
  }

  lemma StepCaches(policy: P.Policy, c: Controller, c': Controller)
    requires Caches(policy, c) && Step(policy, c, c')
    ensures Caches(policy, c')
  {
    hide Agrees, WellMasked, UniqueIds, OneField, NonEmptyLoads, HasFlow, HasId, SeparateTypes, Processed, CleanRetry,
         Rebalanced;
    if pkt :| CleanRetry(policy, c, pkt) && c' == Processed(policy, c, pkt).0 {
      ProcessedExact(policy, c, pkt);
    } else if f :| c' == Expired(c, f) {
      ExpiredCaches(policy, c, f);
    } else if c' == Updated(c) {
      UpdatedCaches(policy, c);
    }
  }

  ghost predicate IsPacketRun(policy: P.Policy, run: seq<Controller>) {
    && run != [] && Init(run[0]) && run[0].left <= run[0].right
    && forall i :: 0 <= i < |run| - 1 ==> Step(policy, run[i], run[i + 1])
  }

  /** The cache stays right over every run in which second attempts repeat the modifications of the first,
      whatever the range and whatever stands in the table. */
  lemma {:induction false} RunCaches(policy: P.Policy, run: seq<Controller>)
    requires IsPacketRun(policy, run)
    ensures Caches(policy, run[|run| - 1])
    decreases |run|
  {
    if |run| == 1 {
      InitSound(policy, run[0]);
    } else {
      RunCaches(policy, run[..|run| - 1]);
      assert Step(policy, run[|run| - 2], run[|run| - 1]);
      StepCaches(policy, run[|run| - 2], run[|run| - 1]);
    }
  }

  /** At any point of any such run a flow that lookup finds for q is what the policy decides for q, exactly
      if q has the fields that the policy modifies, or touches without asking for a bit. */
  lemma PacketRunIsRight(policy: P.Policy, run: seq<Controller>, q: Packet)
    requires IsPacketRun(policy, run)
    requires var c := run[|run| - 1]; Lookup(c.root, q, c.flows.Keys).Hit?
    ensures var c, out := run[|run| - 1], P.Run(policy, q, map[]);
            var flow := Lookup(c.root, q, c.flows.Keys).flow;
            (out.Returned? && c.flows[flow] == FlowRecord(out.decision, out.mods)) <==> UntracedBound(policy, q)
  {
    RunCaches(policy, run);
    HitIsRight(policy, run[|run| - 1], q);
  }
}
