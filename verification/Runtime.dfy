/** The objects put together: Runtime and the packet-miss path of MapleImpl. */
module Runtime {
  import opened Wrappers
  import opened Oxm
  import opened FieldSets
  import P = Policies
  import opened Tracing
  import opened TraceTrees
  import opened Grafting
  import opened Priorities
  import opened Caching
  import opened FlowTables
  import opened Controllers
  import opened Retries
  import opened Paths
  import opened Tracers
  import opened TraceablePackets
  import opened Compilers

  /** Why the switch removed a flow's rules. */
  datatype Reason = IdleTimeout | HardTimeout | Deleted

  class Maple {
    const policy: P.Policy
    const left: nat
    const right: nat
    const tree: TreeStore
    const backend: Backend
    var flows: map<FlowId, FlowRecord>
    var nextFlow: FlowId

    ghost function Abs(): Controller
      reads this, tree, backend
    {
      Controller(tree.root, left, right, tree.nextId, flows, nextFlow, backend.table)
    }

    ghost predicate Valid()
      reads this, tree, backend
    {
      Caches(policy, Abs())
    }

    /** Runtime::operator(): the flow that the tree gives a packet. */
    function Answer(q: Packet): LookupResult
      reads this, tree
    {
      Lookup(tree.root, q, flows.Keys)
    }

    constructor (policy: P.Policy, left: nat, right: nat)
      requires left <= right
      ensures Valid() && Init(Abs()) && Sound(policy, Abs()) && fresh(tree) && fresh(backend)
      ensures this.policy == policy && this.left == left && this.right == right
    {
      this.policy, this.left, this.right := policy, left, right;
      flows, nextFlow := map[], 0;
      tree := new TreeStore();
      backend := new Backend();
      new;
      InitSound(policy, Abs());
    }

    /** Runtime::augment: run the policy on the packet through a tracer, then finish the trace with flow. */
    method Augment(mpkt: ModTrackingPacket, flow: FlowId) returns (r: Access<P.Decision>, installer: Installer)
      modifies tree, backend, mpkt.pkt, mpkt.mods
      ensures var tr := Trace(policy, TState(old(mpkt.pkt.bits), map[]), old(mpkt.mods.entries));
              var g := Graft(old(tree.root), tr.events, Ending(tr.outcome, flow), left, right, [], old(tree.nextId));
              && tree.root == g.node && tree.nextId == g.nextId
                 && backend.table == InstallAll(old(backend.table), g.barriers)
              && Concluded(tr, g, flow, r, installer, mpkt.mods.entries)
              && (mpkt.pkt.bits, mpkt.mods.entries) ==
                 Halted(policy, TState(old(mpkt.pkt.bits), map[]), old(mpkt.mods.entries),
                        Taken(Cursor(old(tree.root), [], left, right, [], old(tree.nextId), old(backend.table)),
                              tr.events))
    {
      hide Graft, Trace, AdvanceAll, Executed, InstallAll, Halted, Taken;
      ghost var before := Cursor(tree.root, [], left, right, [], tree.nextId, backend.table);
      ghost var tr := Trace(policy, TState(mpkt.pkt.bits, map[]), mpkt.mods.entries);
      ghost var g := Graft(tree.root, tr.events, Ending(tr.outcome, flow), left, right, [], tree.nextId);
      installer := Installer([], []);
      var tracer;
      r, tracer := TracePolicy(mpkt);
      ExecutedGraft(tr, before, tracer.View(), r, mpkt.pkt.bits, mpkt.mods.entries, flow, g);
      if r.Value? {
        var finished;
        finished, installer := tracer.Finish(flow);
        if finished != Done {
          r := Thrown(finished);
        }
      }
    }

    method TracePolicy(mpkt: ModTrackingPacket) returns (r: Access<P.Decision>, tracer: Tracer)
      modifies tree, backend, mpkt.pkt, mpkt.mods
      ensures fresh(tracer) && fresh(tracer.matching) && tracer.tree == tree && tracer.backend == backend
              && tracer.Valid()
      ensures Executes(policy, TState(old(mpkt.pkt.bits), map[]), old(mpkt.mods.entries),
                       Cursor(old(tree.root), [], left, right, [], old(tree.nextId), old(backend.table)),
                       tracer.View(), r, mpkt.pkt.bits, mpkt.mods.entries)
    {
      tracer := new Tracer(tree, backend, left, right);
      var tpkt := new TraceablePacket(mpkt, tracer);
      r := Execute(policy, tpkt);
    }

    /** One attempt: trace the policy into the tree for a flow, record it, run the installer. */
    method Attempt(mpkt: ModTrackingPacket, flow: FlowId) returns (status: MissStatus)
      requires flow in flows
      modifies this, tree, backend, mpkt.pkt, mpkt.mods
      ensures (Abs(), status) == Attempted(policy, old(Abs()), old(mpkt.pkt.bits), old(mpkt.mods.entries), flow)
      ensures (mpkt.pkt.bits, mpkt.mods.entries) ==
              Halted(policy, TState(old(mpkt.pkt.bits), map[]), old(mpkt.mods.entries),
                     Taken(Cursor(old(tree.root), [], left, right, [], old(tree.nextId), old(backend.table)),
                           TraceFrom(policy, old(mpkt.pkt.bits), old(mpkt.mods.entries)).events))
    {
      hide Graft, Trace, InstallAll, Lookup, ValidPath, At, Halted, Taken;
      ghost var c, g := Abs(), GraftFrom(policy, Abs(), mpkt.pkt.bits, mpkt.mods.entries, flow);
      var decision, installer := Augment(mpkt, flow);
      assert g.barriers + [] == g.barriers;
      match decision
      case Thrown(_) =>
        status := Exceeded;
      case OutOfRange =>
        status := Threw;
      case Value(d) =>
        flows := flows[flow := FlowRecord(d, mpkt.mods.entries)];
        RunInstaller(installer);
        InstallAllAppend(c.table, g.barriers, g.installed.value);
        status := Installed(flow);
    }

    /** processPacketIn on a packet whose flow is new, idle or evicted: find or make the flow and attempt;
        when priorities run out, rebalance the tree and attempt once more on the same packet object. */
    method ProcessPacketIn(bits: Packet) returns (status: MissStatus)
      requires Valid()
      modifies this, tree, backend
      ensures (Abs(), status) == Processed(policy, old(Abs()), bits)
      ensures CleanRetry(policy, old(Abs()), bits) ==> Valid()
    {
      hide Caches, Attempted, Halted, Taken, Lookup, Rebalanced, Trace, P.Run, Missed, Repeats, Count;
      ghost var c := Abs();
      MissedIsAttempt(policy, c, bits);
      MissedCaches(policy, c, bits);
      ProcessedExact(policy, c, bits);
      var found := Answer(bits);
      if found == LookupResult.OutOfRange {
        return Threw;
      }
      var flow;
      if found.Hit? {
        flow := found.flow;
      } else {
        flow := nextFlow;
        nextFlow := nextFlow + 1;
        flows := flows[flow := FlowRecord(P.Undefined, map[])];
      }
      StartedCaches(policy, c, bits);
      var pkt := new PacketBuffer(bits);
      var mpkt := new ModTrackingPacket(pkt);
      status := Attempt(mpkt, flow);
      if status == Exceeded {
        ExceededFlow(policy, c, bits);
        assert Caches(policy, Abs());
        Update();
        status := Attempt(mpkt, flow);
      }
    }

    /** The function that finish returns: compile the node where the trace ended, in the trace's match. */
    method RunInstaller(installer: Installer)
      requires ValidPath(tree.root, installer.path) && At(tree.root, installer.path).FlowNode?
      requires At(tree.root, installer.path).flow in flows
      modifies backend
      ensures var n := At(tree.root, installer.path);
              backend.table == Install(old(backend.table), Rule(n.prio, Elements(installer.included), Forward(n.flow)))
    {
      var n := At(tree.root, installer.path);
      var compiler := new Compiler(backend, flows.Keys, installer.included);
      compiler.Visit(n);
    }

    /** processFlowRemoved: the switch says that rules of a flow are gone. An unknown cookie is ignored; only a
        hard timeout makes the controller forget the flow. */
    method FlowRemoved(f: FlowId, reason: Reason)
      modifies this`flows
      ensures forall g :: g in flows <==> g in old(flows) && (g != f || reason != HardTimeout)
      ensures forall g | g in flows :: flows[g] == old(flows)[g]
    {
      if f in flows && reason == HardTimeout {
        flows := flows - {f};
      }
    }

    /** A flow's rules reach their hard timeout on the switch, and its message arrives. */
    method Expire(f: FlowId)
      requires Valid()
      modifies this`flows, backend
      ensures Valid() && Abs() == Expired(old(Abs()), f)
      ensures f !in flows && flows == old(flows) - {f}
      ensures forall k :: k in backend.table <==> k in old(backend.table) && old(backend.table)[k] != Forward(f)
      ensures forall k | k in backend.table :: backend.table[k] == old(backend.table)[k]
      ensures forall q :: Answer(q) == if old(Answer(q)) == Hit(f) then Miss else old(Answer(q))
    {
      hide Caches, Lookup;
      ghost var c := Abs();
      ExpiredCaches(policy, c, f);
      forall q ensures Lookup(c.root, q, Expired(c, f).flows.Keys) ==
                       if Lookup(c.root, q, c.flows.Keys) == Hit(f) then Miss else Lookup(c.root, q, c.flows.Keys)
      {
        ExpiredExact(c, f, q);
      }
      backend.RemoveFlow(f);
      FlowRemoved(f, HardTimeout);
      assert flows == c.flows - {f};
      assert backend.table == Expired(c, f).table;
    }

    /** A rule idles out on the switch, and its message arrives: records and answers stay. */
    method Idle(key: Key)
      requires Valid() && key in backend.table && backend.table[key].Forward?
      modifies this`flows, backend
      ensures Valid() && Abs() == IdledOut(old(Abs()), key)
      ensures flows == old(flows) && backend.table == old(backend.table) - {key}
      ensures forall q :: Answer(q) == old(Answer(q))
    {
      ghost var before := flows;
      var f := backend.table[key].flow;
      backend.RemoveRule(key);
      FlowRemoved(f, IdleTimeout);
      assert flows == before;
    }

    /** PriorityUpdater over the tree; the table keeps the old priorities until commit. */
    method Update()
      requires Valid()
      modifies tree
      ensures Valid() && Abs() == Updated(old(Abs()))
      ensures CanRebalance(old(Abs())) ==> TreeOk(tree.root, left, right, tree.nextId)
    {
      UpdatedCaches(policy, Abs());
      if CanRebalance(Abs()) {
        UpdatedTree(policy, Abs());
      }
      var counter := new DepthCounter();
      var count := counter.Visit(tree.root);
      var assigner := new PriorityAssigner(counter.depth, left, right);
      var root := assigner.Visit(tree.root);
      tree.root := root;
    }

    /** Remove everything and compile the whole tree. */
    method Commit()
      requires TreeOk(tree.root, left, right, tree.nextId)
      modifies backend
      ensures Committed(old(Abs()), Abs())
    {
      backend.RemoveAll();
      var compiler := new Compiler(backend, flows.Keys, []);
      forall a, b | Emits(tree.root, [], a, flows.Keys) && Emits(tree.root, [], b, flows.Keys) && KeyOf(a) == KeyOf(b)
        ensures a == b
      {
        KeysAreUnique(tree.root, left, right, a, b, flows.Keys);
      }
      compiler.Visit(tree.root);
    }
  }

  /** What augment returns, in terms of the grafted trace. */
  ghost predicate Concluded(tr: TraceResult, g: Grafted, flow: FlowId, r: Access<P.Decision>, installer: Installer,
                            mods: Entries) {
    if g.status != Done then r == Thrown(g.status) && g.installed == None
    else match tr.outcome
      case OutOfRange => r == Access.OutOfRange && g.installed == None
      case Returned(d, _, mods') => r == Value(d) && mods == mods' && Finished(g.node, installer, flow, g.installed)
  }

  lemma ExecutedGraft(tr: TraceResult, before: Cursor, after: Cursor, r: Access<P.Decision>, pkt: Packet,
                      mods: Entries, flow: FlowId, g: Grafted)
    requires before.path == [] && Executed(tr, before, after, r, pkt, mods)
    requires g == Graft(before.root, tr.events, Ending(tr.outcome, flow), before.left, before.right, before.ctx,
                        before.nextId)
    ensures ValidPath(after.root, after.path)
    ensures after.table == InstallAll(before.table, g.barriers) && after.nextId == g.nextId
    ensures if r.Value? then
              var f := FinishAt(after, Some(flow));
              && g.status == f.status && g.installed == f.installed && Put(after.root, after.path, f.node) == g.node
              && tr.outcome.Returned? && tr.outcome.decision == r.value && tr.outcome.mods == mods
            else
              && after.root == g.node && g.installed == None
              && ((r == Thrown(g.status) && g.status != Done)
                  || (r == Access.OutOfRange && g.status == Done && tr.outcome.OutOfRange?))
  {
    FromRootIsGraft(before, tr.events, Ending(tr.outcome, flow), g);
  }

  /** The installer points at the flow's leaf, whose rule in the installer's match is the given one. */
  predicate Finished(root: Node, installer: Installer, flow: FlowId, installed: Option<Rule>) {
    && ValidPath(root, installer.path) && At(root, installer.path).FlowNode? && At(root, installer.path).flow == flow
    && installed == Some(Rule(At(root, installer.path).prio, Elements(installer.included), Forward(flow)))
  }
}
