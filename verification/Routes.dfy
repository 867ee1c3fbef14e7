/** Routes between hosts: computed from the predecessors of a shortest-path search (src/Topology.cc) and
    turned into a forwarding policy (src/LearningSwitch.cc). */
module Routes {
  import opened Wrappers
  import opened Sequences
  import opened LinkDiscoveries

  /** The link that the graph yields for a pair of adjacent switches, the same for both directions. */
  type Graph = map<(nat, nat), Link>

  predicate Joins(link: Link, u: nat, v: nat) {
    || (link.source.dpid == u && link.target.dpid == v)
    || (link.target.dpid == u && link.source.dpid == v)
  }

  ghost predicate WellFormed(g: Graph) {
    forall u, v :: (u, v) in g ==> u != v && Joins(g[(u, v)], u, v) && (v, u) in g && g[(v, u)] == g[(u, v)]
  }

  /** What the search from the root yields: distances, for the switches it reached, and predecessors. */
  datatype Search = Search(root: nat, dist: map<nat, nat>, pred: map<nat, nat>)

  ghost predicate IsSearch(g: Graph, s: Search) {
    && s.root in s.dist && s.dist[s.root] == 0 && s.root in s.pred && s.pred[s.root] == s.root
    && (forall v :: v in s.dist ==> v in s.pred)
    && (forall v :: v in s.pred && v !in s.dist ==> s.pred[v] == v)
    && (forall v :: v in s.dist && v != s.root ==>
          var p := s.pred[v]; (v, p) in g && p in s.dist && s.dist[v] == s.dist[p] + 1)
    && (forall u, v :: (u, v) in g && u in s.dist ==> v in s.dist && s.dist[v] <= s.dist[u] + 1)
  }

  // ---------- computeRoute ----------

  /** The ends of the link on the way from u to v, u's first. */
  function Hop(link: Link, u: nat): seq<Port> {
    if link.source.dpid == u then [link.source, link.target] else [link.target, link.source]
  }

  function RouteFrom(g: Graph, s: Search, v: nat): seq<Port>
    requires WellFormed(g) && IsSearch(g, s) && v in s.pred
    decreases if v in s.dist then s.dist[v] else 0
  {
    if s.pred[v] == v then [] else Hop(g[(v, s.pred[v])], v) + RouteFrom(g, s, s.pred[v])
  }

  /** One round of the loop: the assertions of the source hold, and the distance goes down. */
  lemma RouteStep(g: Graph, s: Search, v: nat)
    requires WellFormed(g) && IsSearch(g, s) && v in s.pred && s.pred[v] != v
    ensures var u := s.pred[v];
            && v in s.dist && u in s.dist && u in s.pred && s.dist[u] + 1 == s.dist[v]
            && (v, u) in g && Joins(g[(v, u)], v, u) && v != u
            && RouteFrom(g, s, v) == Hop(g[(v, u)], v) + RouteFrom(g, s, u)
  {
  }

  method ComputeRoute(g: Graph, s: Search, from: nat) returns (route: seq<Port>)
    requires WellFormed(g) && IsSearch(g, s) && from in s.pred
    ensures route == RouteFrom(g, s, from)
  {
    var v := from;
    route := [];
    while v != s.pred[v]
      invariant v in s.pred && RouteFrom(g, s, from) == route + RouteFrom(g, s, v)
      decreases if v in s.dist then s.dist[v] else 0
    {
      RouteStep(g, s, v);
      hide WellFormed, IsSearch, RouteFrom;
      var link := g[(v, s.pred[v])];
      ghost var before := route;
      if link.source.dpid == v {
        assert link.target.dpid == s.pred[v];
        route := route + [link.source];
        route := route + [link.target];
      } else {
        assert link.target.dpid == v && link.source.dpid == s.pred[v];
        route := route + [link.target];
        route := route + [link.source];
      }
      assert route == before + Hop(link, v);
      Regroup(before, Hop(link, v), RouteFrom(g, s, s.pred[v]));
      v := s.pred[v];
    }
  }

  /** The link of the graph between the two switches has exactly these ends, in one order or the other. */
  predicate Linked(g: Graph, a: Port, b: Port) {
    (a.dpid, b.dpid) in g && (g[(a.dpid, b.dpid)] == Link(a, b) || g[(a.dpid, b.dpid)] == Link(b, a))
  }

  /** A way from one switch to another over links of the graph. */
  predicate IsTrail(g: Graph, route: seq<Port>, from: nat, to: nat) {
    if route == [] then from == to
    else
      && |route| >= 2 && route[0].dpid == from && Linked(g, route[0], route[1])
      && IsTrail(g, route[2..], route[1].dpid, to)
  }

  /** The route is a trail to the root, over as many links as the switch is away. */
  lemma {:induction false} RouteIsTrail(g: Graph, s: Search, v: nat)
    requires WellFormed(g) && IsSearch(g, s) && v in s.dist
    ensures IsTrail(g, RouteFrom(g, s, v), v, s.root) && |RouteFrom(g, s, v)| == 2 * s.dist[v]
    decreases s.dist[v]
  {
    if s.pred[v] != v {
      RouteIsTrail(g, s, s.pred[v]);
      var route := RouteFrom(g, s, v);
      assert route[2..] == RouteFrom(g, s, s.pred[v]);
      assert route[..2] == Hop(g[(v, s.pred[v])], v);
    }
  }

  /** No trail is shorter. */
  lemma {:induction false} RouteIsShortest(g: Graph, s: Search, trail: seq<Port>, v: nat)
    requires WellFormed(g) && IsSearch(g, s) && IsTrail(g, trail, v, s.root)
    ensures v in s.dist && 2 * s.dist[v] <= |trail|
  {
    if trail != [] {
      RouteIsShortest(g, s, trail[2..], trail[1].dpid);
      assert (trail[1].dpid, v) in g;
    }
  }

  /** An unreachable switch gets an empty route. */
  lemma RouteEmptyExact(g: Graph, s: Search, v: nat)
    requires WellFormed(g) && IsSearch(g, s) && v in s.pred
    ensures RouteFrom(g, s, v) == [] <==> v == s.root || v !in s.dist
  {
  }

  // ---------- route_policy ----------

  /** One term of the policy: packets that come to the switch through inPort leave through outPort. */
  datatype Forward = Forward(switchId: nat, inPort: nat, outPort: nat)

  function Policy(route: seq<Port>): (p: Option<seq<Forward>>) {
    if |route| == 0 then Some([])
    else if |route| == 1 || route[0].dpid != route[1].dpid then None
    else
      var rest := Policy(route[2..]);
      if rest.None? then None else Some([Forward(route[0].dpid, route[0].port, route[1].port)] + rest.value)
  }

  predicate Throws(route: seq<Port>) {
    |route| % 2 != 0 || exists i :: 0 <= i < |route| / 2 && Torn(route, i)
  }

  predicate Torn(route: seq<Port>, i: nat)
    requires 2 * i + 1 < |route|
  {
    route[2 * i].dpid != route[2 * i + 1].dpid
  }

  /** invalid_argument is thrown exactly for an odd number of ports, or a pair on two switches. */
  lemma {:induction false} PolicyThrows(route: seq<Port>)
    ensures Policy(route).None? <==> Throws(route)
    ensures Policy(route).Some? ==> |Policy(route).value| == |route| / 2
    ensures Policy(route).Some? ==> forall i :: 0 <= i < |route| / 2 ==>
              Policy(route).value[i] == Forward(route[2 * i].dpid, route[2 * i].port, route[2 * i + 1].port)
  {
    if |route| >= 2 {
      PolicyThrows(route[2..]);
      assert forall i :: 0 <= i < |route| / 2 - 1 ==> Torn(route[2..], i) == Torn(route, i + 1);
      assert Throws(route) <==> Torn(route, 0) || Throws(route[2..]) by {
        if Throws(route) && |route| % 2 == 0 {
          var i :| 0 <= i < |route| / 2 && Torn(route, i);
          assert i > 0 ==> Torn(route[2..], i - 1);
        }
      }
    }
  }

  method RoutePolicy(route: seq<Port>) returns (p: Option<seq<Forward>>)
    ensures p == Policy(route)
  {
    if |route| % 2 != 0 {
      PolicyThrows(route);
      return None;
    }
    var terms: seq<Forward>, i := [], 0;
    assert route[0..] == route && (Policy(route).Some? ==> terms + Policy(route).value == Policy(route).value);
    while i < |route|
      invariant i <= |route| && i % 2 == 0 && |route| % 2 == 0
      invariant Policy(route) == if Policy(route[i..]).None? then None else Some(terms + Policy(route[i..]).value)
    {
      assert route[i..][0] == route[i] && route[i..][1] == route[i + 1] && route[i..][2..] == route[i + 2..];
      if route[i].dpid != route[i + 1].dpid {
        return None;
      }
      var term := Forward(route[i].dpid, route[i].port, route[i + 1].port);
      if Policy(route[i + 2..]).Some? {
        Regroup(terms, [term], Policy(route[i + 2..]).value);
      }
      terms := terms + [term];
      i := i + 2;
    }
    assert route[i..] == [] && terms + [] == terms;
    return Some(terms);
  }

  // ---------- forwarding along the route ----------

  /** From a host to another: the port of the source, the hops, the port of the target. */
  function Assembled(route: seq<Port>, source: Port, target: Port): seq<Port> {
    [source] + route + [target]
  }

  /** Where the policy sends a packet that comes in through the port. */
  function Outs(p: seq<Forward>, at: Port): set<Port> {
    set f | f in p && f.switchId == at.dpid && f.inPort == at.port :: Port(at.dpid, f.outPort)
  }

  lemma {:induction false} TrailPairs(g: Graph, route: seq<Port>, from: nat, to: nat, i: nat)
    requires IsTrail(g, route, from, to) && 2 * i < |route|
    ensures |route| % 2 == 0 && Linked(g, route[2 * i], route[2 * i + 1])
    ensures route[2 * i].dpid == if i == 0 then from else route[2 * i - 1].dpid
    ensures route[|route| - 1].dpid == to
    decreases |route|
  {
    if i > 0 {
      TrailPairs(g, route[2..], route[1].dpid, to, i - 1);
    } else if |route| > 2 {
      TrailPairs(g, route[2..], route[1].dpid, to, 0);
    }
  }

  /** The switches along the route come nearer to the root: none comes twice. */
  lemma {:induction false} RouteDescends(g: Graph, s: Search, v: nat, i: nat)
    requires WellFormed(g) && IsSearch(g, s) && v in s.dist && 2 * i < |RouteFrom(g, s, v)|
    ensures var route := RouteFrom(g, s, v);
            && 2 * i + 1 < |route| && route[2 * i].dpid in s.dist && route[2 * i + 1].dpid in s.dist
            && s.dist[route[2 * i].dpid] == s.dist[v] - i && s.dist[route[2 * i + 1].dpid] == s.dist[v] - i - 1
    decreases s.dist[v]
  {
    RouteIsTrail(g, s, v);
    hide IsTrail, Linked, WellFormed;
    if s.pred[v] != v {
      var route, rest := RouteFrom(g, s, v), RouteFrom(g, s, s.pred[v]);
      assert route == Hop(g[(v, s.pred[v])], v) + rest;
      if i > 0 {
        RouteDescends(g, s, s.pred[v], i - 1);
        assert route[2 * i] == rest[2 * (i - 1)] && route[2 * i + 1] == rest[2 * (i - 1) + 1];
      }
    }
  }

  /** Whenever there is a way, route_policy accepts the assembled route, and the policy takes a packet of
      the source, switch after switch, over existing links, out of the port of the target: on each of
      the switches it has one term. */
  lemma Delivered(g: Graph, s: Search, source: Port, target: Port)
    requires WellFormed(g) && IsSearch(g, s) && target.dpid == s.root && source.dpid in s.dist
    ensures var route := Assembled(RouteFrom(g, s, source.dpid), source, target);
            var p := Policy(route);
            var n := s.dist[source.dpid];
            && p.Some? && |p.value| == n + 1 && |route| == 2 * n + 2
            && route[0] == source && route[2 * n + 1] == target
            && (forall i :: 0 <= i <= n ==> Outs(p.value, route[2 * i]) == {route[2 * i + 1]})
            && (forall i :: 0 <= i < n ==> Linked(g, route[2 * i + 1], route[2 * i + 2]))
            && (forall i, j :: 0 <= i < j <= n ==> p.value[i].switchId != p.value[j].switchId)
  {
    assert source.dpid in s.pred;
    hide WellFormed, IsSearch, RouteFrom, IsTrail, Linked, Outs, Policy;
    var trail := RouteFrom(g, s, source.dpid);
    var route := Assembled(trail, source, target);
    var n := s.dist[source.dpid];
    RouteIsTrail(g, s, source.dpid);
    forall i | 0 <= i <= n
      ensures OnSwitch(s, route, n, i)
      ensures i < n ==> Linked(g, route[2 * i + 1], route[2 * i + 2])
    {
      AssembledPair(g, s, source, target, i);
    }
    StepwisePolicy(s, route, n);
  }

  /** The i-th two ports are on one switch, n - i links away from the root. */
  predicate OnSwitch(s: Search, route: seq<Port>, n: nat, i: nat)
    requires |route| == 2 * n + 2 && i <= n
  {
    route[2 * i].dpid == route[2 * i + 1].dpid && route[2 * i].dpid in s.dist && s.dist[route[2 * i].dpid] == n - i
  }

  lemma StepwisePolicy(s: Search, route: seq<Port>, n: nat)
    requires |route| == 2 * n + 2 && forall i :: 0 <= i <= n ==> OnSwitch(s, route, n, i)
    ensures Policy(route).Some? && |Policy(route).value| == n + 1
    ensures forall i :: 0 <= i <= n ==> Outs(Policy(route).value, route[2 * i]) == {route[2 * i + 1]}
    ensures forall i, j :: 0 <= i < j <= n ==> Policy(route).value[i].switchId != Policy(route).value[j].switchId
  {
    hide Policy, Outs;
    forall i | 0 <= i < |route| / 2 ensures !Torn(route, i) {
      assert OnSwitch(s, route, n, i);
    }
    PolicyThrows(route);
    var p := Policy(route).value;
    forall i, j | 0 <= i < j <= n ensures p[i].switchId != p[j].switchId {
      assert OnSwitch(s, route, n, i) && OnSwitch(s, route, n, j);
    }
    forall i | 0 <= i <= n ensures Outs(p, route[2 * i]) == {route[2 * i + 1]} {
      assert OnSwitch(s, route, n, i);
      OneTerm(p, i, route[2 * i], route[2 * i + 1]);
    }
  }

  lemma OneTerm(p: seq<Forward>, i: nat, at: Port, to: Port)
    requires i < |p| && p[i] == Forward(at.dpid, at.port, to.port) && at.dpid == to.dpid
    requires forall i, j :: 0 <= i < j < |p| ==> p[i].switchId != p[j].switchId
    ensures Outs(p, at) == {to}
  {
    forall f | f in p && f.switchId == at.dpid ensures f == p[i] {
      var j :| 0 <= j < |p| && p[j] == f;
      assert i == j;
    }
    assert p[i] in p && Port(at.dpid, p[i].outPort) == to;
  }

  lemma AssembledAt(trail: seq<Port>, source: Port, target: Port)
    ensures var route := Assembled(trail, source, target);
            && |route| == |trail| + 2 && route[0] == source && route[|trail| + 1] == target
            && forall k :: 1 <= k <= |trail| ==> route[k] == trail[k - 1]
  {
  }

  lemma RootOnly(g: Graph, s: Search, v: nat)
    requires IsSearch(g, s) && v in s.dist
    ensures v in s.pred && s.root in s.dist && s.dist[s.root] == 0 && (s.dist[v] == 0 ==> v == s.root)
  {
  }

  lemma AssembledPair(g: Graph, s: Search, source: Port, target: Port, i: nat)
    requires WellFormed(g) && IsSearch(g, s) && target.dpid == s.root && source.dpid in s.dist
             && i <= s.dist[source.dpid]
    ensures var n := s.dist[source.dpid];
            var route := Assembled(RouteFrom(g, s, source.dpid), source, target);
            && |route| == 2 * n + 2 && OnSwitch(s, route, n, i)
            && (i < n ==> Linked(g, route[2 * i + 1], route[2 * i + 2]))
  {
    hide WellFormed, IsSearch, RouteFrom, IsTrail, Linked, Assembled;
    RootOnly(g, s, source.dpid);
    RouteIsTrail(g, s, source.dpid);
    var trail, n := RouteFrom(g, s, source.dpid), s.dist[source.dpid];
    if i < n {
      TrailPairs(g, trail, source.dpid, s.root, i);
      RouteDescends(g, s, source.dpid, i);
    } else if n > 0 {
      TrailPairs(g, trail, source.dpid, s.root, n - 1);
    }
    AssembledAt(trail, source, target);
  }
}
