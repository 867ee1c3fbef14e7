/** Positions in a trace tree. The source keeps raw pointers to nodes; as its trees share no nodes
    (virtual loads aside), a pointer is a path from the root. */
module Paths {
  import opened Wrappers
  import opened Oxm
  import opened FieldSets
  import opened Tracing
  import opened TraceTrees
  import opened Grafting
  import opened FlowTables

  datatype Step = Case(v: Bits) | Branch(ret: bool)

  predicate HasStep(n: Node, s: Step) {
    match s
    case Case(v) => n.LoadNode? && v in n.cases
    case Branch(_) => n.TestNode?
  }

  function Follow(n: Node, s: Step): Node
    requires HasStep(n, s)
  {
    match s
    case Case(v) => n.cases[v]
    case Branch(ret) => if ret then n.positive else n.negative
  }

  function Replace(n: Node, s: Step, x: Node): Node
    requires HasStep(n, s)
  {
    match s
    case Case(v) => n.(cases := n.cases[v := x])
    case Branch(ret) => if ret then n.(positive := x) else n.(negative := x)
  }

  predicate ValidPath(n: Node, path: seq<Step>)
    decreases |path|
  {
    path == [] || (HasStep(n, path[0]) && ValidPath(Follow(n, path[0]), path[1..]))
  }

  function At(n: Node, path: seq<Step>): Node
    requires ValidPath(n, path)
    decreases |path|
  {
    if path == [] then n else At(Follow(n, path[0]), path[1..])
  }

  function Put(n: Node, path: seq<Step>, x: Node): Node
    requires ValidPath(n, path)
    decreases |path|
  {
    if path == [] then x else Replace(n, path[0], Put(Follow(n, path[0]), path[1..], x))
  }

  /** Writing through a path and reading it back. */
  lemma {:induction false} PutAt(n: Node, path: seq<Step>, x: Node, y: Node)
    requires ValidPath(n, path)
    ensures var n' := Put(n, path, x);
            ValidPath(n', path) && At(n', path) == x && Put(n', path, y) == Put(n, path, y)
    ensures Put(n, path, At(n, path)) == n
    decreases |path|
  {
    if path != [] {
      PutAt(Follow(n, path[0]), path[1..], x, y);
      if path[0].Case? {
        assert n.cases[path[0].v := n.cases[path[0].v]] == n.cases;
      }
    }
  }

  /** One more step at the end of a path. */
  lemma {:induction false} Extend(n: Node, path: seq<Step>, s: Step, x: Node)
    requires ValidPath(n, path) && HasStep(At(n, path), s)
    ensures ValidPath(n, path + [s]) && At(n, path + [s]) == Follow(At(n, path), s)
    ensures Put(n, path + [s], x) == Put(n, path, Replace(At(n, path), s, x))
    decreases |path|
  {
    if path == [] {
      assert [s][1..] == [];
    } else {
      assert (path + [s])[0] == path[0] && (path + [s])[1..] == path[1..] + [s];
      Extend(Follow(n, path[0]), path[1..], s, x);
    }
  }

  // ---------- the tracer, one event at a time ----------

  /** The tracer's position with everything its methods change. */
  datatype Cursor = Cursor(root: Node, path: seq<Step>, left: nat, right: nat, ctx: seq<Field>, nextId: nat,
                           table: Table)

  function Here(c: Cursor): Node
    requires ValidPath(c.root, c.path)
  {
    At(c.root, c.path)
  }

  datatype Advanced = Advanced(cursor: Cursor, status: Status)

  function LoadAt(n: Node, f: Field): Node {
    LoadNode(MaskOf(f), Cases(n)[f.value := Child(n, f.value)])
  }

  function TestAt(c: Cursor, f: Field): Node
    requires ValidPath(c.root, c.path)
  {
    if Here(c).Unexplored? then TestNode(f, Unexplored, Unexplored, c.nextId, Middle(c.left, c.right)) else Here(c)
  }

  function Advance(c: Cursor, e: Event): Advanced
    requires ValidPath(c.root, c.path)
  {
    match e
    case Loaded(f) =>
      if Here(c).Unexplored? || (Here(c).LoadNode? && Here(c).mask == MaskOf(f)) then
        Advanced(c.(root := Put(c.root, c.path, LoadAt(Here(c), f)), path := c.path + [Case(f.value)],
                    ctx := Added(c.ctx, f)), Done)
      else Advanced(c, InconsistentTrace)
    case Tested(f, ret) =>
      if Here(c).Unexplored? && Exceeded(c.left, c.right) then Advanced(c, PriorityExceeded)
      else if Here(c).Unexplored? || (Here(c).TestNode? && Here(c).need == f) then
        var t := TestAt(c, f);
        var c1 := if Here(c).Unexplored?
                  then c.(root := Put(c.root, c.path, t), nextId := c.nextId + 1,
                          table := Install(c.table, Rule(t.prio, Elements(Added(c.ctx, f)), ToController)))
                  else c;
        var c2 := c1.(path := c.path + [Branch(ret)]);
        Advanced(if ret then c2.(left := t.prio, ctx := Added(c.ctx, f)) else c2.(right := t.prio), Done)
      else Advanced(c, InconsistentTrace)
  }

  lemma AdvanceValid(c: Cursor, e: Event)
    requires ValidPath(c.root, c.path)
    ensures var a := Advance(c, e).cursor;
            ValidPath(a.root, a.path)
    ensures Advance(c, e).status == Done ==>
      var a := Advance(c, e).cursor;
      match e
      case Loaded(f) =>
        && Here(a) == Child(Here(c), f.value)
        && forall x :: Put(a.root, a.path, x) == Put(c.root, c.path, LoadNode(MaskOf(f), Cases(Here(c))[f.value := x]))
      case Tested(f, ret) =>
        && Here(a) == Follow(TestAt(c, f), Branch(ret))
        && forall x :: Put(a.root, a.path, x) == Put(c.root, c.path, Replace(TestAt(c, f), Branch(ret), x))
  {
    var a := Advance(c, e).cursor;
    if Advance(c, e).status == Done {
      var n := if e.Loaded? then LoadAt(Here(c), e.f) else TestAt(c, e.f);
      var s := if e.Loaded? then Case(e.f.value) else Branch(e.ret);
      PutAt(c.root, c.path, n, n);
      assert a.root == Put(c.root, c.path, n);
      Extend(a.root, c.path, s, n);
      forall x ensures Put(a.root, a.path, x) == Put(c.root, c.path, Replace(n, s, x)) {
        PutAt(c.root, c.path, n, Replace(n, s, x));
        Extend(a.root, c.path, s, x);
      }
      if e.Loaded? {
        forall x ensures Replace(n, s, x) == LoadNode(MaskOf(e.f), Cases(Here(c))[e.f.value := x]) {
          assert n.cases[e.f.value := x] == Cases(Here(c))[e.f.value := x];
        }
      }
    }
  }

  /** Events are taken one by one until one throws. */
  function AdvanceAll(c: Cursor, es: seq<Event>): (a: Advanced)
    requires ValidPath(c.root, c.path)
    ensures ValidPath(a.cursor.root, a.cursor.path)
    decreases |es|
  {
    if es == [] then Advanced(c, Done)
    else
      AdvanceValid(c, es[0]);
      var a := Advance(c, es[0]);
      if a.status == Done then AdvanceAll(a.cursor, es[1..]) else a
  }

  lemma {:induction false} AdvanceAllConcat(c: Cursor, es: seq<Event>, more: seq<Event>)
    requires ValidPath(c.root, c.path)
    ensures var a := AdvanceAll(c, es);
            AdvanceAll(c, es + more) == if a.status == Done then AdvanceAll(a.cursor, more) else a
    decreases |es|
  {
    if es == [] {
      assert es + more == more;
    } else {
      AdvanceValid(c, es[0]);
      assert (es + more)[0] == es[0] && (es + more)[1..] == es[1..] + more;
      if Advance(c, es[0]).status == Done { AdvanceAllConcat(Advance(c, es[0]).cursor, es[1..], more); }
    }
  }

  /** How many events are taken before one throws. */
  function Taken(c: Cursor, es: seq<Event>): (n: nat)
    requires ValidPath(c.root, c.path)
    ensures n <= |es| && (n == |es| <==> AdvanceAll(c, es).status == Done)
    decreases |es|
  {
    if es == [] || Advance(c, es[0]).status != Done then 0
    else
      AdvanceValid(c, es[0]);
      1 + Taken(Advance(c, es[0]).cursor, es[1..])
  }

  lemma {:induction false} TakenConcat(c: Cursor, es: seq<Event>, more: seq<Event>)
    requires ValidPath(c.root, c.path)
    ensures var a := AdvanceAll(c, es);
            Taken(c, es + more) == if a.status == Done then |es| + Taken(a.cursor, more) else Taken(c, es)
    decreases |es|
  {
    if es == [] {
      assert es + more == more;
    } else {
      AdvanceValid(c, es[0]);
      assert (es + more)[0] == es[0] && (es + more)[1..] == es[1..] + more;
      if Advance(c, es[0]).status == Done { TakenConcat(Advance(c, es[0]).cursor, es[1..], more); }
    }
  }

  function FinishAt(c: Cursor, fin: Option<FlowId>): Grafted
    requires ValidPath(c.root, c.path)
  {
    Finish(Here(c), fin, c.left, c.right, c.ctx, c.nextId)
  }

  /** One unfolding of the recursive graft, in terms of the position after the first event. */
  lemma GraftUnfold(c: Cursor, es: seq<Event>, fin: Option<FlowId>)
    requires ValidPath(c.root, c.path) && es != [] && Advance(c, es[0]).status == Done
    requires ValidPath(Advance(c, es[0]).cursor.root, Advance(c, es[0]).cursor.path)
    ensures var g := Graft(Here(c), es, fin, c.left, c.right, c.ctx, c.nextId);
            var a := Advance(c, es[0]).cursor;
            var g1 := Graft(Here(a), es[1..], fin, a.left, a.right, a.ctx, a.nextId);
            && g.node == (if es[0].Loaded? then LoadNode(MaskOf(es[0].f), Cases(Here(c))[es[0].f.value := g1.node])
                          else Replace(TestAt(c, es[0].f), Branch(es[0].ret), g1.node))
            && g.status == g1.status && g.installed == g1.installed && g.nextId == g1.nextId
            && g.barriers == (if es[0].Tested? && Here(c).Unexplored?
                              then [Rule(TestAt(c, es[0].f).prio, Elements(Added(c.ctx, es[0].f)), ToController)] +
                                g1.barriers
                              else g1.barriers)
  {
    AdvanceValid(c, es[0]);
    if es[0].Tested? {
      var f, ret := es[0].f, es[0].ret;
      var a := Advance(c, es[0]).cursor;
      var t := TestAt(c, f);
      assert a.left == (if ret then t.prio else c.left) && a.right == (if ret then c.right else t.prio);
      assert a.ctx == (if ret then Added(c.ctx, f) else c.ctx) && Here(a) == Follow(t, Branch(ret));
      var g1 := Graft(Here(a), es[1..], fin, a.left, a.right, a.ctx, a.nextId);
      assert [] + g1.barriers == g1.barriers;
    }
  }

  /** Walking the tree with a pointer, event by event, does what the recursive graft does. */
  lemma {:induction false} AdvanceIsGraft(c: Cursor, es: seq<Event>, fin: Option<FlowId>)
    requires ValidPath(c.root, c.path)
    ensures var g := Graft(Here(c), es, fin, c.left, c.right, c.ctx, c.nextId);
            var Advanced(a, status) := AdvanceAll(c, es);
            && a.table == InstallAll(c.table, g.barriers)
            && a.nextId == g.nextId
            && if status == Done then
                 var f := FinishAt(a, fin);
                 f.status == g.status && f.installed == g.installed
                   && Put(a.root, a.path, f.node) == Put(c.root, c.path, g.node)
               else status == g.status && g.installed == None && a.root == Put(c.root, c.path, g.node)
    decreases |es|
  {
    hide Added, AddFrom, At, ValidPath;
    if es != [] {
      AdvanceValid(c, es[0]);
      var Advanced(a, status) := Advance(c, es[0]);
      PutAt(c.root, c.path, Here(c), Here(c));
      if status == Done {
        AdvanceIsGraft(a, es[1..], fin);
        GraftUnfold(c, es, fin);
        if es[0].Tested? && Here(c).Unexplored? {
          var g1 := Graft(Here(a), es[1..], fin, a.left, a.right, a.ctx, a.nextId);
          var rule := Rule(TestAt(c, es[0].f).prio, Elements(Added(c.ctx, es[0].f)), ToController);
          assert ([rule] + g1.barriers)[0] == rule && ([rule] + g1.barriers)[1..] == g1.barriers;
        }
      }
    }
  }

  /** The whole trace, taken from the root, without finish when it ends in an exception. */
  lemma FromRootIsGraft(c: Cursor, es: seq<Event>, fin: Option<FlowId>, g: Grafted)
    requires c.path == [] && g == Graft(c.root, es, fin, c.left, c.right, c.ctx, c.nextId)
    ensures var Advanced(a, status) := AdvanceAll(c, es);
            && a.table == InstallAll(c.table, g.barriers) && a.nextId == g.nextId
            && (status != Done ==> g.status == status && g.installed == None && a.root == g.node)
            && (status == Done && fin.None? ==> g.status == Done && g.installed == None && a.root == g.node)
            && (status == Done && fin.Some? ==>
                  var f := FinishAt(a, fin);
                  g.status == f.status && g.installed == f.installed && Put(a.root, a.path, f.node) == g.node)
  {
    AdvanceIsGraft(c, es, fin);
    var a := AdvanceAll(c, es).cursor;
    PutAt(a.root, a.path, Here(a), Here(a));
  }
}
