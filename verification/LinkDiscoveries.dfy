/** Link discovery (src/LinkDiscovery.cc): the set of links, ordered by the time until which they are
    valid, and the index from ports to links are updated side by side, and every link that comes or
    goes is signalled. */
module LinkDiscoveries {
  datatype Port = Port(dpid: nat, port: nat)

  predicate Before(a: Port, b: Port) {
    a.dpid < b.dpid || (a.dpid == b.dpid && a.port < b.port)
  }

  datatype Link = Link(source: Port, target: Port)

  predicate Ends(link: Link, p: Port) {
    p == link.source || p == link.target
  }

  datatype Signal = Discovered(link: Link) | Broken(link: Link)

  /** m_links holds at most one link a time, because links are compared by time alone; an iterator into
      it is a time. */
  datatype State = State(links: map<nat, Link>, edges: map<Port, nat>, signals: seq<Signal>)

  // ---------- the operations on values ----------

  /** What remains after the older edge at the beacon's source is removed. */
  function Forgotten(s: State, from: Port, to: Port): State {
    if from in s.edges then State(s.links - {s.edges[from]}, s.edges - {from, to}, s.signals) else s
  }

  /** Inserting a link whose time is taken leaves the set as it is and yields the link that is there. */
  function Beaconed(s: State, from: Port, to: Port, time: nat): State {
    var f := Forgotten(s, from, to);
    State(if time in f.links then f.links else f.links[time := Link(from, to)],
          f.edges[from := time][to := time],
          if from in s.edges then s.signals else s.signals + [Discovered(Link(from, to))])
  }

  function Dropped(s: State, time: nat): State
    requires time in s.links
  {
    var link := s.links[time];
    State(s.links - {time}, s.edges - {link.source, link.target}, s.signals + [Broken(link)])
  }

  function Cleared(s: State, at: Port): State {
    if at in s.edges && s.edges[at] in s.links then Dropped(s, s.edges[at]) else s
  }

  /** A beacon leads both ends to its time, takes away the link that was at the source, and leaves all else. The
      time keeps a link that already had it. Listeners hear of it only if the source had no link. */
  lemma BeaconEffect(s: State, from: Port, to: Port, time: nat)
    ensures var s' := Beaconed(s, from, to, time);
            && (forall p :: p in s'.edges <==> p in s.edges || p == from || p == to)
            && (forall p | p in s'.edges :: s'.edges[p] == if p == from || p == to then time else s.edges[p])
            && (forall t :: t in s'.links <==>
                            t == time || (t in s.links && !(from in s.edges && s.edges[from] == t)))
            && (forall t | t in s'.links && t != time :: s'.links[t] == s.links[t])
            && s'.links[time] == (if time in s.links && !(from in s.edges && s.edges[from] == time)
                                  then s.links[time] else Link(from, to))
            && (from in s.edges ==> s'.signals == s.signals)
            && (from !in s.edges ==> s'.signals == s.signals + [Discovered(Link(from, to))])
  {
  }

  ghost predicate IsFirst(links: map<nat, Link>, time: nat) {
    time in links && forall t :: t in links ==> time <= t
  }

  lemma FirstExists(links: map<nat, Link>)
    requires links != map[]
    ensures exists time :: IsFirst(links, time)
    decreases |links|
  {
    var t :| t in links;
    var rest := links - {t};
    if rest == map[] {
      assert forall u :: u in links ==> u == t by {
        forall u | u in links ensures u == t {
          assert u == t || u in rest;
        }
      }
      assert IsFirst(links, t);
    } else {
      assert |rest| < |links| by { assert rest.Keys == links.Keys - {t}; assert |rest.Keys| < |links.Keys|; }
      FirstExists(rest);
      var f :| IsFirst(rest, f);
      var first := if f < t then f else t;
      forall u | u in links ensures first <= u {
        assert u == t || u in rest;
      }
      assert IsFirst(links, first);
    }
  }

  ghost function First(links: map<nat, Link>): (time: nat)
    requires links != map[]
    ensures IsFirst(links, time)
  {
    FirstExists(links);
    var time :| IsFirst(links, time);
    time
  }

  /** The loop of timerEvent. */
  ghost function TimedOut(s: State, now: nat): State
    decreases |s.links|
  {
    if s.links == map[] || First(s.links) >= now then s
    else
      Shrinks(s.links, First(s.links));
      TimedOut(Dropped(s, First(s.links)), now)
  }

  lemma TimedOutStep(s: State, now: nat)
    ensures TimedOut(s, now) ==
            if s.links == map[] || First(s.links) >= now then s else TimedOut(Dropped(s, First(s.links)), now)
  {
  }

  lemma Shrinks(links: map<nat, Link>, time: nat)
    requires time in links
    ensures |links - {time}| == |links| - 1
  {
    assert (links - {time}).Keys == links.Keys - {time};
    assert |(links - {time}).Keys| < |links.Keys|;
  }

  // ---------- the two indexes ----------

  /** Every link is found from its two ends, and nothing else is found. */
  predicate LinksIndexed(s: State) {
    forall t :: t in s.links ==>
      var link := s.links[t];
      && Before(link.source, link.target)
      && link.source in s.edges && s.edges[link.source] == t
      && link.target in s.edges && s.edges[link.target] == t
  }

  predicate EdgesLinked(s: State) {
    forall p :: p in s.edges ==> s.edges[p] in s.links && Ends(s.links[s.edges[p]], p)
  }

  predicate Agree(s: State) {
    LinksIndexed(s) && EdgesLinked(s)
  }

  /** Each end of the beacon is free or linked to the other end. */
  predicate Paired(s: State, from: Port, to: Port) {
    && (from in s.edges <==> to in s.edges)
    && (from in s.edges ==> s.edges[from] == s.edges[to])
  }

  lemma ForgottenAgrees(s: State, from: Port, to: Port)
    requires Agree(s) && from != to && Paired(s, from, to)
    ensures Agree(Forgotten(s, from, to)) && from !in Forgotten(s, from, to).edges
            && to !in Forgotten(s, from, to).edges
    ensures from in s.edges && Before(from, to) ==> s.links[s.edges[from]] == Link(from, to)
  {
    if from in s.edges {
      var link := s.links[s.edges[from]];
      assert Ends(link, from) && Ends(link, to);
    }
  }

  /** A beacon keeps the two indexes in agreement exactly when its ends are two ports that are free or
      linked to each other, and no other link has its time. */
  lemma BeaconExact(s: State, from: Port, to: Port, time: nat)
    requires Agree(s) && (Before(from, to) || from == to)
    ensures Agree(Beaconed(s, from, to, time)) <==>
            from != to && Paired(s, from, to) && time !in Forgotten(s, from, to).links
  {
    if from == to {
      LoopDisagrees(s, from, time);
    } else {
      var f, s' := Forgotten(s, from, to), Beaconed(s, from, to, time);
      if Paired(s, from, to) && time !in f.links {
        ForgottenAgrees(s, from, to);
        BeaconAgrees(f, s', from, to, time);
      }
      if Agree(s') {
        AgreedPaired(s, from, to, time);
      }
    }
  }

  /** The link that a port's edge leads to was not there before, under its time. */
  lemma TimeIsNew(s: State, from: Port, to: Port, time: nat)
    requires Agree(s) && Ends(Beaconed(s, from, to, time).links[time], from)
    ensures time !in Forgotten(s, from, to).links
  {
    if time in s.links && Ends(s.links[time], from) {
      assert s.edges[from] == time;
    }
  }

  lemma LoopDisagrees(s: State, port: Port, time: nat)
    requires Agree(s)
    ensures !Agree(Beaconed(s, port, port, time))
  {
    var s' := Beaconed(s, port, port, time);
    if Ends(s'.links[time], port) {
      TimeIsNew(s, port, port, time);
      assert s'.links[time] == Link(port, port);
    } else {
      assert s'.edges[port] == time;
    }
  }

  lemma BeaconAgrees(f: State, s': State, from: Port, to: Port, time: nat)
    requires Agree(f) && Before(from, to) && from !in f.edges && to !in f.edges && time !in f.links
    requires s'.links == f.links[time := Link(from, to)] && s'.edges == f.edges[from := time][to := time]
    ensures Agree(s')
  {
  }

  lemma TargetTaken(s: State, from: Port, to: Port, time: nat)
    requires Agree(s) && from !in s.edges && to in s.edges
    ensures !Agree(Beaconed(s, from, to, time))
  {
    var s', t := Beaconed(s, from, to, time), s.edges[to];
    assert s'.links[t] == s.links[t] && s'.edges[to] == time && s'.edges[from] == time;
    if t == time {
      assert !Ends(s'.links[time], from);
    }
  }

  lemma SourceTaken(s: State, from: Port, to: Port, time: nat)
    requires Agree(s) && from in s.edges && from != to && !Paired(s, from, to)
    ensures !Agree(Beaconed(s, from, to, time))
  {
    var s', t := Beaconed(s, from, to, time), s.edges[from];
    var link := s.links[t];
    var other := if link.source == from then link.target else link.source;
    assert s.edges[other] == t && other != from && other != to;
    assert s'.edges[other] == t && s'.edges[from] == time;
    if t == time {
      assert !Ends(s'.links[time], other);
    }
  }

  lemma AgreedPaired(s: State, from: Port, to: Port, time: nat)
    requires Agree(s) && Before(from, to) && Agree(Beaconed(s, from, to, time))
    ensures Paired(s, from, to) && time !in Forgotten(s, from, to).links
  {
    assert Beaconed(s, from, to, time).edges[from] == time;
    TimeIsNew(s, from, to, time);
    if !Paired(s, from, to) {
      if from in s.edges {
        SourceTaken(s, from, to, time);
      } else {
        TargetTaken(s, from, to, time);
      }
    }
  }

  // ---------- the signals ----------

  function Links(links: map<nat, Link>): set<Link> {
    set t | t in links :: links[t]
  }

  /** The links that listeners believe in. */
  function Standing(signals: seq<Signal>): set<Link> {
    if signals == [] then {}
    else
      var before, last := Standing(signals[..|signals| - 1]), signals[|signals| - 1];
      match last
      case Discovered(link) => before + {link}
      case Broken(link) => before - {link}
  }

  /** Each link is discovered and broken in turn, and its ends are in order. */
  predicate Alternating(signals: seq<Signal>) {
    forall i :: 0 <= i < |signals| ==>
      && Before(signals[i].link.source, signals[i].link.target)
      && (signals[i].Discovered? <==> signals[i].link !in Standing(signals[..i]))
  }

  function Count(signals: seq<Signal>, signal: Signal): nat {
    if signals == [] then 0
    else Count(signals[..|signals| - 1], signal) + if signals[|signals| - 1] == signal then 1 else 0
  }

  /** Discovered minus broken: a link has been discovered as often as broken, or once more if it stands. */
  lemma {:induction false} CountsBalance(signals: seq<Signal>, link: Link)
    requires Alternating(signals)
    ensures Count(signals, Discovered(link)) ==
            Count(signals, Broken(link)) + if link in Standing(signals) then 1 else 0
  {
    if signals != [] {
      var n := |signals| - 1;
      assert forall i :: 0 <= i < n ==> signals[..n][..i] == signals[..i];
      CountsBalance(signals[..n], link);
    }
  }

  lemma Signalled(signals: seq<Signal>, signal: Signal)
    requires Alternating(signals) && Before(signal.link.source, signal.link.target)
    requires signal.Discovered? <==> signal.link !in Standing(signals)
    ensures Alternating(signals + [signal])
    ensures Standing(signals + [signal]) ==
            if signal.Discovered? then Standing(signals) + {signal.link} else Standing(signals) - {signal.link}
  {
    var signals' := signals + [signal];
    assert forall i :: 0 <= i <= |signals| ==> signals'[..i] == signals[..i];
    assert signals[..|signals|] == signals;
  }

  /** The indexes agree, and the signals tell exactly the links. */
  predicate Sound(s: State) {
    Agree(s) && Alternating(s.signals) && Standing(s.signals) == Links(s.links)
  }

  lemma DroppedLinks(s: State, time: nat)
    requires Agree(s) && time in s.links
    ensures Links(s.links - {time}) == Links(s.links) - {s.links[time]} && s.links[time] in Links(s.links)
  {
    var links' := s.links - {time};
    forall t | t in links' ensures links'[t] != s.links[time] {
      assert s.edges[s.links[t].source] == t && s.edges[s.links[time].source] == time;
    }
    forall link | link in Links(s.links) && link != s.links[time] ensures link in Links(links') {
      var t :| t in s.links && s.links[t] == link;
      assert t in links' && links'[t] == link;
    }
  }

  lemma DroppedAgrees(s: State, time: nat)
    requires Agree(s) && time in s.links
    ensures Agree(Dropped(s, time))
  {
  }

  lemma DroppedSound(s: State, time: nat)
    requires Sound(s) && time in s.links
    ensures Sound(Dropped(s, time))
  {
    DroppedAgrees(s, time);
    DroppedLinks(s, time);
    Signalled(s.signals, Broken(s.links[time]));
  }

  lemma ClearedSound(s: State, at: Port)
    requires Sound(s)
    ensures Sound(Cleared(s, at)) && at !in Cleared(s, at).edges
  {
    if at in s.edges {
      DroppedSound(s, s.edges[at]);
    }
  }

  /** When a port goes down its link goes, from both ends, and listeners hear of it; all others stay. */
  lemma ClearedExact(s: State, at: Port)
    requires Agree(s)
    ensures var s' := Cleared(s, at);
            && (forall t :: t in s'.links <==> t in s.links && !Ends(s.links[t], at))
            && (forall t | t in s'.links :: s'.links[t] == s.links[t])
            && (forall p :: p in s'.edges <==> p in s.edges && !Ends(s.links[s.edges[p]], at))
            && (forall p | p in s'.edges :: s'.edges[p] == s.edges[p])
            && (at in s.edges ==> s'.signals == s.signals + [Broken(s.links[s.edges[at]])])
            && (at !in s.edges ==> s' == s)
  {
    if at in s.edges {
      forall t | t in s.links && Ends(s.links[t], at) ensures s.edges[at] == t { }
    }
  }

  lemma BeaconedSound(s: State, from: Port, to: Port, time: nat)
    requires Sound(s) && Before(from, to) && Paired(s, from, to) && time !in Forgotten(s, from, to).links
    ensures Sound(Beaconed(s, from, to, time))
  {
    var link, f, s' := Link(from, to), Forgotten(s, from, to), Beaconed(s, from, to, time);
    BeaconExact(s, from, to, time);
    ForgottenAgrees(s, from, to);
    assert Links(s'.links) == Links(f.links) + {link} by {
      assert s'.links[time] == link;
      forall l | l in Links(f.links) ensures l in Links(s'.links) {
        var t :| t in f.links && f.links[t] == l;
        assert s'.links[t] == l;
      }
    }
    if from in s.edges {
      DroppedLinks(s, s.edges[from]);
      assert Links(s'.links) == Links(s.links);
    } else {
      forall t | t in s.links ensures s.links[t] != link {
        assert s.links[t].source in s.edges;
      }
      Signalled(s.signals, Discovered(link));
    }
  }

  function LinksFrom(links: map<nat, Link>, now: nat): map<nat, Link> {
    map t | t in links && t >= now :: links[t]
  }

  function EdgesFrom(edges: map<Port, nat>, now: nat): map<Port, nat> {
    map p | p in edges && edges[p] >= now :: edges[p]
  }

  lemma DroppedFrom(s: State, time: nat, now: nat)
    requires Agree(s) && time in s.links && time < now
    ensures LinksFrom(Dropped(s, time).links, now) == LinksFrom(s.links, now)
    ensures EdgesFrom(Dropped(s, time).edges, now) == EdgesFrom(s.edges, now)
  {
    var link := s.links[time];
    assert s.edges[link.source] == time && s.edges[link.target] == time;
  }

  lemma AllFrom(s: State, now: nat)
    requires Agree(s) && forall t :: t in s.links ==> t >= now
    ensures LinksFrom(s.links, now) == s.links && EdgesFrom(s.edges, now) == s.edges
  {
  }

  /** The timer removes exactly the links whose time has passed, from both indexes, and signals each
      of them once. */
  lemma {:induction false} TimedOutExact(s: State, now: nat)
    requires Sound(s)
    ensures Sound(TimedOut(s, now))
    ensures TimedOut(s, now).links == LinksFrom(s.links, now) && TimedOut(s, now).edges == EdgesFrom(s.edges, now)
    ensures s.signals <= TimedOut(s, now).signals
    ensures |TimedOut(s, now).signals| == |s.signals| + |s.links| - |TimedOut(s, now).links|
    decreases |s.links|
  {
    hide LinksFrom, EdgesFrom, Alternating, Standing, Links, LinksIndexed, EdgesLinked;
    if s.links != map[] && First(s.links) < now {
      Shrinks(s.links, First(s.links));
      DroppedSound(s, First(s.links));
      DroppedFrom(s, First(s.links), now);
      TimedOutExact(Dropped(s, First(s.links)), now);
    } else {
      AllFrom(s, now);
    }
  }

  /** The signals after the first n break links of l, in the order of their times. */
  ghost predicate BrokenInOrder(links: map<nat, Link>, signals: seq<Signal>, n: nat) {
    && (forall i | n <= i < |signals| :: signals[i].Broken? && signals[i].link in Links(links))
    && forall i, j, t, u | n <= i < j < |signals| && t in links && u in links ::
         Broken(links[t]) == signals[i] && Broken(links[u]) == signals[j] ==> t < u
  }

  lemma {:induction false} TimedOutInOrder(s: State, now: nat)
    requires Sound(s)
    ensures BrokenInOrder(s.links, TimedOut(s, now).signals, |s.signals|)
    decreases |s.links|
  {
    hide Alternating, Standing;
    if s.links != map[] && First(s.links) < now {
      var first := First(s.links);
      var d := Dropped(s, first);
      Shrinks(s.links, first);
      DroppedSound(s, first);
      TimedOutExact(d, now);
      TimedOutInOrder(d, now);
      DroppedLinks(s, first);
      FirstBroken(s, d, first, TimedOut(d, now).signals);
    }
  }

  lemma FirstBroken(s: State, d: State, first: nat, signals: seq<Signal>)
    requires Sound(s) && IsFirst(s.links, first) && d == Dropped(s, first) && d.signals <= signals
    requires BrokenInOrder(d.links, signals, |d.signals|) && Links(d.links) == Links(s.links) - {s.links[first]}
    ensures BrokenInOrder(s.links, signals, |s.signals|)
  {
    hide Alternating, Standing;
    assert signals[|s.signals|] == d.signals[|s.signals|] == Broken(s.links[first]);
    forall t | t in s.links && s.links[t] == s.links[first] ensures t == first {
      assert s.edges[s.links[t].source] == t;
    }
    forall i, j, t, u | |s.signals| <= i < j < |signals| && t in s.links && u in s.links
                        && Broken(s.links[t]) == signals[i] && Broken(s.links[u]) == signals[j]
      ensures t < u
    {
      assert signals[j].link in Links(d.links);
      assert u != first && u in d.links;
      if i > |s.signals| {
        assert signals[i].link in Links(d.links);
        assert t in d.links;
      }
    }
  }

  /** Two edges a link. */
  lemma {:induction false} TwoEdges(s: State)
    requires Agree(s)
    ensures |s.edges| == 2 * |s.links|
    decreases |s.links|
  {
    if s.links == map[] {
      assert s.edges == map[];
    } else {
      var t :| t in s.links;
      var d := Dropped(s, t);
      Shrinks(s.links, t);
      DroppedAgrees(s, t);
      TwoEdges(d);
      assert s.links.Keys == d.links.Keys + {t};
      assert s.edges.Keys == d.edges.Keys + {s.links[t].source, s.links[t].target};
      assert |s.links.Keys| == |d.links.Keys| + 1;
      assert |s.edges.Keys| == |d.edges.Keys| + 2;
    }
  }

  // ---------- runs ----------

  datatype Step = Beacon(from: Port, to: Port, at: nat) | Down(port: Port) | Timer(now: nat)

  ghost function Next(s: State, step: Step, poll: nat): State {
    match step
    case Beacon(from, to, at) => Beaconed(s, from, to, at + 2 * poll)
    case Down(port) => Cleared(s, port)
    case Timer(now) => TimedOut(s, now)
  }

  /** Beacons come at different times, from one port to a later one, and a port keeps its peer until it
      is cleared. */
  ghost predicate Allowed(s: State, step: Step, clock: nat) {
    step.Beacon? ==> Before(step.from, step.to) && Paired(s, step.from, step.to) && step.at > clock
  }

  function Clock(step: Step, clock: nat): nat {
    if step.Beacon? then step.at else clock
  }

  function LastBeacon(steps: seq<Step>): nat {
    if steps == [] then 0
    else Clock(steps[|steps| - 1], LastBeacon(steps[..|steps| - 1]))
  }

  ghost function Reached(steps: seq<Step>, poll: nat): State {
    if steps == [] then State(map[], map[], [])
    else Next(Reached(steps[..|steps| - 1], poll), steps[|steps| - 1], poll)
  }

  ghost predicate Possible(steps: seq<Step>, poll: nat) {
    steps != [] ==>
      var before := steps[..|steps| - 1];
      Possible(before, poll) && Allowed(Reached(before, poll), steps[|steps| - 1], LastBeacon(before))
  }

  predicate Bounded(s: State, time: nat) {
    forall t :: t in s.links ==> t <= time
  }

  lemma BeaconBounded(s: State, step: Step, poll: nat, clock: nat)
    requires Bounded(s, clock + 2 * poll) && Allowed(s, step, clock) && !step.Timer?
    ensures Bounded(Next(s, step, poll), Clock(step, clock) + 2 * poll)
    ensures step.Beacon? ==> step.at + 2 * poll !in Forgotten(s, step.from, step.to).links
  {
  }

  lemma NextSound(s: State, step: Step, poll: nat, clock: nat)
    requires Sound(s) && Bounded(s, clock + 2 * poll) && Allowed(s, step, clock)
    ensures Sound(Next(s, step, poll)) && Bounded(Next(s, step, poll), Clock(step, clock) + 2 * poll)
  {
    hide Sound, Agree, Paired, TimedOut;
    if !step.Timer? {
      BeaconBounded(s, step, poll, clock);
    }
    match step
    case Beacon(from, to, at) => BeaconedSound(s, from, to, at + 2 * poll);
    case Down(port) => ClearedSound(s, port);
    case Timer(now) => TimedOutExact(s, now);
  }

  lemma RunStep(steps: seq<Step>, poll: nat)
    requires steps != [] && Possible(steps, poll)
    ensures var before, last := steps[..|steps| - 1], steps[|steps| - 1];
            && Possible(before, poll) && Allowed(Reached(before, poll), last, LastBeacon(before))
            && Reached(steps, poll) == Next(Reached(before, poll), last, poll)
            && LastBeacon(steps) == Clock(last, LastBeacon(before))
  {
    hide Next, Allowed, Clock;
  }

  /** In every run the two indexes agree, and the links discovered and not broken are those known. */
  lemma {:induction false} RunSound(steps: seq<Step>, poll: nat)
    requires Possible(steps, poll)
    ensures Sound(Reached(steps, poll)) && Bounded(Reached(steps, poll), LastBeacon(steps) + 2 * poll)
  {
    if steps != [] {
      hide Next, Allowed, Sound, Bounded, Clock, Possible, Reached, LastBeacon;
      RunStep(steps, poll);
      var before := steps[..|steps| - 1];
      RunSound(before, poll);
      NextSound(Reached(before, poll), steps[|steps| - 1], poll, LastBeacon(before));
    }
  }

  /** A port that was linked to b sends a beacon to c without having gone down: unless c is b, the edge of b
      stays behind and leads to a link that is no longer there. Listeners hear nothing, and believe in the
      link to b. */
  lemma PeerLeftBehind(a: Port, b: Port, c: Port, first: nat, second: nat, poll: nat)
    requires Before(a, b) && Before(a, c) && 0 < first < second
    ensures Possible([Beacon(a, b, first)], poll)
    ensures var s' := Next(Reached([Beacon(a, b, first)], poll), Beacon(a, c, second), poll);
            b in s'.edges && (s'.edges[b] !in s'.links <==> b != c)
    ensures var s' := Next(Reached([Beacon(a, b, first)], poll), Beacon(a, c, second), poll);
            && s'.signals == [Discovered(Link(a, b))] && Standing(s'.signals) == {Link(a, b)}
            && Links(s'.links) == {Link(a, c)}
  {
    OneStep(Beacon(a, b, first), poll);
    var s' := Next(Reached([Beacon(a, b, first)], poll), Beacon(a, c, second), poll);
    assert s'.signals == [Discovered(Link(a, b))];
    assert s'.signals[..0] == [];
    assert s'.links == map[second + 2 * poll := Link(a, c)];
    assert s'.links[second + 2 * poll] == Link(a, c);
  }

  lemma OneStep(step: Step, poll: nat)
    requires Allowed(State(map[], map[], []), step, 0)
    ensures Possible([step], poll) && Reached([step], poll) == Next(State(map[], map[], []), step, poll)
  {
    hide Next, Allowed;
    var none: seq<Step>, steps := [], [step];
    assert steps[..|steps| - 1] == none;
    assert Reached(none, poll) == State(map[], map[], []) && LastBeacon(none) == 0 && Possible(none, poll);
  }

  // ---------- the application ----------

  lemma EndsIndexed(s: State, time: nat)
    requires Agree(s) && time in s.links
    ensures var link := s.links[time];
            link.source in s.edges && link.target in s.edges && Before(link.source, link.target)
  {
  }

  lemma DropTwo(edges: map<Port, nat>, link: Link)
    ensures edges - {link.source} - {link.target} == edges - {link.source, link.target}
    ensures edges - {link.target} - {link.source} == edges - {link.source, link.target}
  {
  }

  class LinkDiscovery {
    const poll: nat
    var links: map<nat, Link>
    var edges: map<Port, nat>
    var signals: seq<Signal>

    constructor (poll: nat)
      ensures this.poll == poll && Value() == State(map[], map[], [])
    {
      this.poll, links, edges, signals := poll, map[], map[], [];
    }

    function Value(): State
      reads this
    {
      State(links, edges, signals)
    }

    method HandleBeacon(from: Port, to: Port, now: nat)
      requires Agree(Value())
      modifies this
      ensures Value() == Beaconed(old(Value()), from, to, now + 2 * poll)
      ensures edges == old(edges)[from := now + 2 * poll][to := now + 2 * poll]
      ensures signals == if from in old(edges) then old(signals) else old(signals) + [Discovered(Link(from, to))]
    {
      hide Agree;
      var link, time, isNew := Link(from, to), now + 2 * poll, true;
      if from in edges {
        DropTwo(edges, link);
        links := links - {edges[from]};
        edges := edges - {from};
        edges := edges - {to};
        isNew := false;
      }
      if time !in links {
        links := links[time := link];
      }
      edges := edges[from := time];
      edges := edges[to := time];
      if isNew {
        signals := signals + [Discovered(link)];
      }
    }

    /** The checks that both ends are in the index never fail. */
    method ClearLinkAt(source: Port)
      requires Agree(Value())
      modifies this
      ensures Agree(Value()) && Value() == Cleared(old(Value()), source)
      ensures source !in edges
    {
      if source !in edges {
        return;
      }
      assert edges[source] in links && Ends(links[edges[source]], source);
      var edge := links[edges[source]];
      EndsIndexed(Value(), edges[source]);
      DropTwo(edges, edge);
      DroppedAgrees(Value(), edges[source]);
      hide LinksIndexed, EdgesLinked;
      var target := if edge.source == source then edge.target else edge.source;
      assert edge.source == source || edge.target == source;
      links := links - {edges[source]};
      assert source in edges;
      edges := edges - {source};
      assert target in edges;
      edges := edges - {target};
      if Before(source, target) {
        signals := signals + [Broken(Link(source, target))];
      } else {
        signals := signals + [Broken(Link(target, source))];
      }
    }

    method TimerEvent(now: nat)
      requires Sound(Value())
      modifies this
      ensures Value() == TimedOut(old(Value()), now) && Sound(Value())
    {
      hide TimedOut, Alternating, Standing, Links, LinksIndexed, EdgesLinked;
      TimedOutStep(Value(), now);
      while links != map[]
        invariant Sound(Value()) && TimedOut(Value(), now) == TimedOut(old(Value()), now)
        decreases |links|
      {
        FirstExists(links);
        var top :| top in links && forall t :: t in links ==> top <= t;
        assert top == First(links);
        TimedOutStep(Value(), now);
        if top >= now {
          return;
        }
        Shrinks(links, top);
        DroppedSound(Value(), top);
        EndsIndexed(Value(), top);
        DropTwo(edges, links[top]);
        var link := links[top];
        assert link.source in edges;
        edges := edges - {link.source};
        assert link.target in edges;
        edges := edges - {link.target};
        signals := signals + [Broken(link)];
        links := links - {top};
      }
      TimedOutStep(Value(), now);
    }
  }
}
