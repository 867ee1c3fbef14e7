/** The objects behind the trace tree: the backend, the tree, and the tracer that grafts one trace. */
module Tracers {
  import opened Wrappers
  import opened Oxm
  import opened FieldSets
  import opened Tracing
  import opened TraceTrees
  import opened Grafting
  import opened FlowTables
  import opened Paths

  /** The abstract backend, as the flow table it fills. */
  class Backend {
    var table: Table

    constructor ()
      ensures table == map[]
    {
      table := map[];
    }

    method Install(prio: nat, matching: MultiFieldSet, flow: FlowId)
      modifies this
      ensures table == FlowTables.Install(old(table), Rule(prio, Elements(matching.elements), Forward(flow)))
    {
      table := table[Key(prio, Elements(matching.elements)) := Forward(flow)];
    }

    method BarrierRule(prio: nat, matching: MultiFieldSet)
      modifies this
      ensures table == FlowTables.Install(old(table), Rule(prio, Elements(matching.elements), ToController))
    {
      table := table[Key(prio, Elements(matching.elements)) := ToController];
    }

    /** remove with an empty match removes everything. */
    method RemoveAll()
      modifies this
      ensures table == map[]
    {
      table := map[];
    }

    /** The switch drops the rules whose cookie is the flow's. */
    method RemoveFlow(flow: FlowId)
      modifies this
      ensures forall k :: k in table <==> k in old(table) && old(table)[k] != Forward(flow)
      ensures forall k | k in table :: table[k] == old(table)[k]
    {
      table := map k | k in table && table[k] != Forward(flow) :: table[k];
    }

    /** The switch drops one rule. */
    method RemoveRule(key: Key)
      modifies this
      ensures table == old(table) - {key}
    {
      table := table - {key};
    }
  }

  /** The root node, and the counter that test ids come from. */
  class TreeStore {
    var root: Node
    var nextId: nat

    constructor ()
      ensures root == Unexplored && nextId == 1
    {
      root, nextId := Unexplored, 1;
    }
  }

  /** A function that installs the finished flow when called. */
  datatype Installer = Installer(path: seq<Step>, included: seq<Field>)

  class Tracer {
    const tree: TreeStore
    const backend: Backend
    const matching: MultiFieldSet
    var path: seq<Step>
    var leftPrio: nat
    var rightPrio: nat

    ghost predicate Valid()
      reads this, tree, matching
    {
      ValidPath(tree.root, path) && matching.Valid()
    }

    constructor (tree: TreeStore, backend: Backend, left: nat, right: nat)
      ensures Valid() && this.tree == tree && this.backend == backend && fresh(matching)
      ensures path == [] && leftPrio == left && rightPrio == right && matching.elements == []
    {
      this.tree, this.backend := tree, backend;
      path, leftPrio, rightPrio := [], left, right;
      matching := new MultiFieldSet();
    }

    ghost function View(): Cursor
      reads this, tree, matching, backend
    {
      Cursor(tree.root, path, leftPrio, rightPrio, matching.elements, tree.nextId, backend.table)
    }

    method Load(data: Field) returns (status: Status)
      requires Valid()
      modifies this, tree, matching
      ensures Valid() && Advanced(View(), status) == Advance(old(View()), Loaded(data))
    {
      AdvanceValid(View(), Loaded(data));
      var cur := At(tree.root, path);
      if cur.Unexplored? {
        tree.root := Put(tree.root, path, LoadNode(MaskOf(data), map[data.value := Unexplored]));
      } else if cur.LoadNode? {
        if cur.mask != MaskOf(data) {
          return InconsistentTrace;
        }
        // an absent case is inserted unexplored
        tree.root := Put(tree.root, path, cur.(cases := cur.cases[data.value := Child(cur, data.value)]));
      } else {
        return InconsistentTrace;
      }
      path := path + [Case(data.value)];
      matching.Add(data);
      status := Done;
    }

    method Test(pred: Field, ret: bool) returns (status: Status)
      requires Valid()
      modifies this, tree, matching, backend
      ensures Valid() && Advanced(View(), status) == Advance(old(View()), Tested(pred, ret))
    {
      hide Put, At, ValidPath;
      AdvanceValid(View(), Tested(pred, ret));
      var cur := At(tree.root, path);
      var testPrio;
      if cur.Unexplored? {
        testPrio := (leftPrio + rightPrio) / 2;
        if testPrio <= leftPrio || testPrio >= rightPrio {
          return PriorityExceeded;
        }
        var id := tree.nextId;
        tree.nextId := tree.nextId + 1;
        tree.root := Put(tree.root, path, TestNode(pred, Unexplored, Unexplored, id, testPrio));
        path := path + [Branch(ret)];
        var copy := new MultiFieldSet.Copy(matching);
        copy.Add(pred);
        backend.BarrierRule(testPrio, copy);
      } else if cur.TestNode? {
        if cur.need != pred {
          return InconsistentTrace;
        }
        testPrio := cur.prio;
        path := path + [Branch(ret)];
      } else {
        return InconsistentTrace;
      }
      if ret {
        leftPrio := testPrio;
        matching.Add(pred);
      } else {
        rightPrio := testPrio;
      }
      status := Done;
    }

    method Finish(flow: FlowId) returns (status: Status, installer: Installer)
      requires Valid()
      modifies tree`root
      ensures var f := FinishAt(old(View()), Some(flow));
              && status == f.status
              && View() == old(View()).(root := Put(old(tree.root), path, f.node))
      ensures ValidPath(tree.root, path) && At(tree.root, path) == FinishAt(old(View()), Some(flow)).node
      ensures installer == Installer(path, matching.elements)
    {
      var cur := At(tree.root, path);
      PutAt(tree.root, path, cur, cur);
      installer := Installer(path, matching.elements);
      if cur.Unexplored? {
        var prio := (leftPrio + rightPrio) / 2;
        if prio <= leftPrio || prio >= rightPrio {
          return PriorityExceeded, installer;
        }
        PutAt(tree.root, path, FlowNode(flow, prio), cur);
        tree.root := Put(tree.root, path, FlowNode(flow, prio));
      } else if cur.FlowNode? {
        PutAt(tree.root, path, cur.(flow := flow), cur);
        tree.root := Put(tree.root, path, cur.(flow := flow));
      } else {
        return InconsistentTrace, installer;
      }
      status := Done;
    }
  }
}
