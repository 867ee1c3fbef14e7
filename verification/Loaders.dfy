/** The application loader (src/Loader.cc): a depth-first walk over the dependencies initialises each
    application after those it depends on. */
module Loaders {
  datatype AppState = Registered | Initializing | Initialized

  /** The registered applications with what they depend on, the threads that some are pinned to, and the
      number of threads. */
  datatype Config = Config(deps: map<string, seq<string>>, pins: map<string, int>, threads: nat)

  /** A call of an application's init on a thread. */
  datatype Init = Init(app: string, thread: nat)

  datatype World = World(apps: map<string, AppState>, lastThread: nat, inits: seq<Init>)

  /** No application, its entry, or the end of the process. */
  datatype Outcome = Missing | Found(state: AppState) | Fatal

  datatype Run = Run(world: World, outcome: Outcome)

  // ---------- the operations on values ----------

  function Waiting(w: World): set<string> {
    set a | a in w.apps && w.apps[a] == Registered
  }

  predicate Pinned(c: Config, app: string) {
    app in c.pins && 0 <= c.pins[app] < c.threads
  }

  /** Pinned applications go where they are pinned to, the others around the threads in turn. */
  function Launched(c: Config, w: World, app: string): World {
    if Pinned(c, app) then
      World(w.apps[app := Initialized], w.lastThread, w.inits + [Init(app, c.pins[app])])
    else
      World(w.apps[app := Initialized], if w.lastThread + 1 == c.threads then 0 else w.lastThread + 1,
            w.inits + [Init(app, w.lastThread)])
  }

  /** What a walk leaves alone: only waiting applications change. */
  predicate Walks(w: World, w': World) {
    && w'.apps.Keys == w.apps.Keys
    && (forall a :: a in w.apps && w.apps[a] != Registered ==> w'.apps[a] == w.apps[a])
    && w.inits <= w'.inits
    && Waiting(w') <= Waiting(w)
  }

  function Walk(c: Config, w: World, app: string): (r: Run)
    requires w.apps.Keys == c.deps.Keys
    ensures Walks(w, r.world) && r.outcome != Found(Registered)
    decreases |Waiting(w)|, 0
  {
    if app !in w.apps then Run(w, Missing)
    else if w.apps[app] != Registered then Run(w, Found(w.apps[app]))
    else
      var w' := w.(apps := w.apps[app := Initializing]);
      Fewer(w, app);
      var r := WalkAll(c, w', c.deps[app]);
      if r.outcome == Found(Initialized) then Run(Launched(c, r.world, app), r.outcome) else r
  }

  lemma Fewer(w: World, app: string)
    requires app in w.apps && w.apps[app] == Registered
    ensures |Waiting(w.(apps := w.apps[app := Initializing]))| < |Waiting(w)|
  {
    var w' := w.(apps := w.apps[app := Initializing]);
    assert Waiting(w') == Waiting(w) - {app};
  }

  lemma NoMore(w: World, w': World)
    requires Walks(w, w')
    ensures |Waiting(w')| <= |Waiting(w)|
  {
    Subset(Waiting(w'), Waiting(w));
  }

  lemma {:induction false} Subset<T>(a: set<T>, b: set<T>)
    requires a <= b
    ensures |a| <= |b|
  {
    if a != {} {
      var x :| x in a;
      Subset(a - {x}, b - {x});
    }
  }

  /** The loop over the dependencies, up to the first that is missing or under way. */
  function WalkAll(c: Config, w: World, apps: seq<string>): (r: Run)
    requires w.apps.Keys == c.deps.Keys
    ensures Walks(w, r.world)
    ensures r.outcome.Found? ==> r.outcome.state == Initialized
    decreases |Waiting(w)|, |apps|
  {
    if apps == [] then Run(w, Found(Initialized))
    else
      var r := Walk(c, w, apps[0]);
      if r.outcome.Missing? || r.outcome.Fatal? then r
      else if r.outcome.state == Initializing then Run(r.world, Fatal)
      else
        NoMore(w, r.world);
        WalkAll(c, r.world, apps[1..])
  }

  /** startAll asks for one service after the other. */
  function Started(c: Config, w: World, services: seq<string>): (r: Run)
    requires w.apps.Keys == c.deps.Keys
    ensures Walks(w, r.world)
    decreases |services|
  {
    if services == [] then Run(w, Found(Initialized))
    else
      var r := Walk(c, w, services[0]);
      if r.outcome.Fatal? then r else Started(c, r.world, services[1..])
  }

  // ---------- the order of initialisation ----------

  function Names(inits: seq<Init>): set<string> {
    set i | 0 <= i < |inits| :: inits[i].app
  }

  /** Each application is initialised once, after all that it depends on. */
  predicate Ordered(c: Config, inits: seq<Init>) {
    && (forall i, j :: 0 <= i < j < |inits| ==> inits[i].app != inits[j].app)
    && forall i :: 0 <= i < |inits| ==>
         inits[i].app in c.deps && forall d :: d in c.deps[inits[i].app] ==> d in Names(inits[..i])
  }

  /** The number of applications whose configuration names no thread that there is. */
  function Roaming(c: Config, inits: seq<Init>): nat {
    if inits == [] then 0
    else
      var app := inits[|inits| - 1].app;
      Roaming(c, inits[..|inits| - 1]) + if app in c.pins && 0 <= c.pins[app] < c.threads then 0 else 1
  }

  function Turn(k: nat, threads: nat): nat
    requires threads > 0
  {
    k % threads
  }

  /** An application runs on the thread that its configuration names; if that names none that there is, the k-th
      of these runs on thread k modulo their number. */
  predicate Spread(c: Config, inits: seq<Init>)
    requires c.threads > 0
  {
    forall i :: 0 <= i < |inits| ==>
      inits[i].thread == if inits[i].app in c.pins && 0 <= c.pins[inits[i].app] < c.threads
        then c.pins[inits[i].app] else Turn(Roaming(c, inits[..i]), c.threads)
  }

  predicate Sound(c: Config, w: World) {
    && w.apps.Keys == c.deps.Keys && c.threads > 0
    && Ordered(c, w.inits) && Spread(c, w.inits)
    && w.lastThread == Turn(Roaming(c, w.inits), c.threads)
    && (forall a :: a in w.apps ==> (w.apps[a] == Initialized <==> a in Names(w.inits)))
  }

  lemma NamesAppend(inits: seq<Init>, init: Init)
    ensures Names(inits + [init]) == Names(inits) + {init.app}
  {
    var inits' := inits + [init];
    forall a | a in Names(inits) ensures a in Names(inits') {
      var i :| 0 <= i < |inits| && inits[i].app == a;
      assert inits'[i].app == a;
    }
    assert inits'[|inits|] == init;
  }

  lemma LaunchedOrdered(c: Config, inits: seq<Init>, init: Init)
    requires Ordered(c, inits) && init.app in c.deps && init.app !in Names(inits)
    requires forall d :: d in c.deps[init.app] ==> d in Names(inits)
    ensures Ordered(c, inits + [init])
  {
    var inits' := inits + [init];
    forall i | 0 <= i < |inits'|
      ensures inits'[i].app in c.deps && forall d :: d in c.deps[inits'[i].app] ==> d in Names(inits'[..i])
    {
      assert inits'[..i] == inits[..i];
      assert i == |inits| ==> inits[..i] == inits;
    }
    forall i, j | 0 <= i < j < |inits'| ensures inits'[i].app != inits'[j].app {
      assert inits'[i].app == inits[i].app && inits[i].app in Names(inits);
    }
  }

  lemma LaunchedSpread(c: Config, inits: seq<Init>, init: Init)
    requires c.threads > 0 && Spread(c, inits)
    requires init.thread == if Pinned(c, init.app) then c.pins[init.app] else Turn(Roaming(c, inits), c.threads)
    ensures Spread(c, inits + [init])
    ensures Roaming(c, inits + [init]) == Roaming(c, inits) + if Pinned(c, init.app) then 0 else 1
  {
    hide Turn;
    var inits' := inits + [init];
    assert inits'[..|inits|] == inits;
    forall i | 0 <= i < |inits'|
      ensures inits'[i].thread == if Pinned(c, inits'[i].app)
              then c.pins[inits'[i].app] else Turn(Roaming(c, inits'[..i]), c.threads)
    {
      assert inits'[..i] == inits[..i];
      assert i == |inits| ==> inits[..i] == inits;
    }
  }

  lemma NextThread(n: nat, threads: nat)
    requires threads > 0
    ensures Turn(n + 1, threads) == if Turn(n, threads) + 1 == threads then 0 else Turn(n, threads) + 1
  {
    var q, r := n / threads, n % threads;
    assert n == q * threads + r;
    if r + 1 == threads {
      assert n + 1 == (q + 1) * threads;
      Modulo(q + 1, 0, threads);
    } else {
      Modulo(q, r + 1, threads);
    }
  }

  lemma Modulo(q: nat, r: nat, m: nat)
    requires r < m
    ensures (q * m + r) % m == r
  {
    var n := q * m + r;
    assert n == (n / m) * m + n % m;
    assert (n / m - q) * m == r - n % m;
    Multiple(n / m - q, m);
  }

  lemma Multiple(k: int, m: nat)
    ensures k == 0 || k * m >= m || k * m + m <= 0
  {
    if k > 0 {
      assert (k - 1) * m >= 0;
    } else if k < 0 {
      assert (-k - 1) * m >= 0;
    }
  }

  lemma LaunchedSound(c: Config, w: World, app: string)
    requires Sound(c, w) && app in w.apps && w.apps[app] == Initializing
    requires forall d :: d in c.deps[app] ==> d in Names(w.inits)
    ensures Sound(c, Launched(c, w, app))
  {
    hide Turn, Ordered, Spread, Names;
    var init := Init(app, if Pinned(c, app) then c.pins[app] else w.lastThread);
    LaunchedInits(c, w, app);
    LaunchedOrdered(c, w.inits, init);
    LaunchedSpread(c, w.inits, init);
    NextThread(Roaming(c, w.inits), c.threads);
    LaunchedNames(c, w, app);
  }

  lemma LaunchedInits(c: Config, w: World, app: string)
    ensures Launched(c, w, app).inits == w.inits + [Init(app, if Pinned(c, app) then c.pins[app] else w.lastThread)]
  {
  }

  lemma LaunchedNames(c: Config, w: World, app: string)
    requires app in w.apps && forall a :: a in w.apps ==> (w.apps[a] == Initialized <==> a in Names(w.inits))
    ensures var w' := Launched(c, w, app);
            forall a :: a in w'.apps ==> (w'.apps[a] == Initialized <==> a in Names(w'.inits))
  {
    var w' := Launched(c, w, app);
    NamesAppend(w.inits, w'.inits[|w.inits|]);
    hide Names, Ordered, Spread, Roaming;
    assert w'.inits == w.inits + [w'.inits[|w.inits|]];
  }

  lemma StartedSound(c: Config, w: World, app: string)
    requires Sound(c, w) && app in w.apps && w.apps[app] == Registered
    ensures Sound(c, w.(apps := w.apps[app := Initializing]))
  {
  }

  /** The walk keeps the order, and succeeds only with an application that is initialised. */
  lemma {:induction false} InitializeSound(c: Config, w: World, app: string)
    requires w.apps.Keys == c.deps.Keys && Sound(c, w)
    ensures var r := Walk(c, w, app);
            Sound(c, r.world) && (r.outcome == Found(Initialized) ==> app in Names(r.world.inits))
    decreases |Waiting(w)|, 0
  {
    hide Sound, Names;
    if app in w.apps && w.apps[app] == Registered {
      var w' := w.(apps := w.apps[app := Initializing]);
      Fewer(w, app);
      StartedSound(c, w, app);
      InitializeAllSound(c, w', c.deps[app]);
      var r := WalkAll(c, w', c.deps[app]);
      if r.outcome == Found(Initialized) {
        LaunchedSound(c, r.world, app);
      }
    }
    if app in w.apps {
      SoundNames(c, Walk(c, w, app).world, app);
    }
  }

  lemma SoundNames(c: Config, w: World, app: string)
    requires Sound(c, w) && app in w.apps
    ensures w.apps[app] == Initialized <==> app in Names(w.inits)
  {
  }

  lemma {:induction false} InitializeAllSound(c: Config, w: World, apps: seq<string>)
    requires w.apps.Keys == c.deps.Keys && Sound(c, w)
    ensures var r := WalkAll(c, w, apps);
            Sound(c, r.world) && (r.outcome.Found? ==> AllIn(apps, Names(r.world.inits)))
    decreases |Waiting(w)|, |apps|
  {
    hide Sound, Names, Walk, WalkAll, Waiting, AllIn;
    InitializeAllStep(c, w, apps, Names(w.inits));
    if apps != [] {
      var r := Walk(c, w, apps[0]);
      InitializeSound(c, w, apps[0]);
      if r.outcome == Found(Initialized) {
        NoMore(w, r.world);
        InitializeAllSound(c, r.world, apps[1..]);
        var w' := WalkAll(c, r.world, apps[1..]).world;
        KeptNames(c, r.world, w');
        FirstIn(apps, Names(w'.inits));
      }
    }
  }

  lemma InitializeAllStep(c: Config, w: World, apps: seq<string>, names: set<string>)
    requires w.apps.Keys == c.deps.Keys
    ensures apps == [] ==> WalkAll(c, w, apps) == Run(w, Found(Initialized)) && AllIn(apps, names)
    ensures apps != [] ==>
      var r := Walk(c, w, apps[0]);
      WalkAll(c, w, apps) ==
        if r.outcome.Missing? || r.outcome.Fatal? then r
        else if r.outcome.state == Initializing then Run(r.world, Fatal)
        else WalkAll(c, r.world, apps[1..])
  {
  }

  lemma WalkRegistered(c: Config, w: World, app: string)
    requires w.apps.Keys == c.deps.Keys && app in w.apps && w.apps[app] == Registered
    ensures var w1 := w.(apps := w.apps[app := Initializing]);
            && |Waiting(w1)| < |Waiting(w)| && w1.apps.Keys == c.deps.Keys
            && var r := WalkAll(c, w1, c.deps[app]);
               Walk(c, w, app) == if r.outcome == Found(Initialized)
                 then Run(Launched(c, r.world, app), r.outcome) else r
  {
    Fewer(w, app);
  }

  predicate AllIn(apps: seq<string>, names: set<string>) {
    forall d :: d in apps ==> d in names
  }

  lemma FirstIn(apps: seq<string>, names: set<string>)
    requires apps != [] && apps[0] in names
    ensures AllIn(apps[1..], names) ==> AllIn(apps, names)
  {
    assert apps == [apps[0]] + apps[1..];
  }

  lemma KeptNames(c: Config, w: World, w': World)
    requires w.inits <= w'.inits
    ensures Names(w.inits) <= Names(w'.inits)
  {
    forall i | 0 <= i < |w.inits| ensures w.inits[i].app in Names(w'.inits) {
      assert w'.inits[i] == w.inits[i];
    }
  }

  lemma {:induction false} StartAllSound(c: Config, w: World, services: seq<string>)
    requires w.apps.Keys == c.deps.Keys && Sound(c, w)
    ensures Sound(c, Started(c, w, services).world)
    decreases |services|
  {
    if services != [] {
      hide Sound, Names, Walk;
      InitializeSound(c, w, services[0]);
      var r := Walk(c, w, services[0]);
      if !r.outcome.Fatal? {
        StartAllSound(c, r.world, services[1..]);
      }
    }
  }

  // ---------- which applications get initialised ----------

  /** The ranked applications are registered, and depend on ranked applications of lower rank only. */
  predicate Ranked(c: Config, rank: map<string, nat>) {
    forall a :: a in rank ==> a in c.deps && forall d :: d in c.deps[a] ==> d in rank && rank[d] < rank[a]
  }

  ghost predicate Rankable(c: Config, app: string) {
    exists rank :: Ranked(c, rank) && app in rank
  }

  /** No application of rank below k is under way. */
  predicate Clear(w: World, rank: map<string, nat>, k: nat) {
    forall a :: a in rank && rank[a] < k ==> a in w.apps && w.apps[a] != Initializing
  }

  /** Nothing is left under way that was not before. */
  predicate Settled(w: World, w': World)
    requires w'.apps.Keys == w.apps.Keys
  {
    forall a :: a in w.apps && w'.apps[a] == Initializing ==> w.apps[a] == Initializing
  }

  lemma {:induction false} RankedSucceeds(c: Config, w: World, app: string, rank: map<string, nat>)
    requires w.apps.Keys == c.deps.Keys && Ranked(c, rank) && app in rank && Clear(w, rank, rank[app] + 1)
    ensures var r := Walk(c, w, app);
            r.outcome == Found(Initialized) && Settled(w, r.world)
    decreases |Waiting(w)|, 0
  {
    if w.apps[app] == Registered {
      hide Walk, WalkAll, Waiting;
      WalkRegistered(c, w, app);
      RankedAllSucceed(c, w.(apps := w.apps[app := Initializing]), c.deps[app], rank, rank[app]);
    }
  }

  lemma {:induction false} RankedAllSucceed(c: Config, w: World, apps: seq<string>, rank: map<string, nat>, k: nat)
    requires w.apps.Keys == c.deps.Keys && Ranked(c, rank) && Clear(w, rank, k)
    requires forall d :: d in apps ==> d in rank && rank[d] < k
    ensures var r := WalkAll(c, w, apps);
            r.outcome == Found(Initialized) && Settled(w, r.world)
    decreases |Waiting(w)|, |apps|
  {
    hide Walk, WalkAll, Waiting, AllIn, Ranked;
    InitializeAllStep(c, w, apps, {});
    if apps != [] {
      RankedSucceeds(c, w, apps[0], rank);
      var r := Walk(c, w, apps[0]);
      NoMore(w, r.world);
      RankedAllSucceed(c, r.world, apps[1..], rank, k);
    }
  }

  /** The place of each application in the order of initialisation. */
  function Places(inits: seq<Init>): (places: map<string, nat>)
    ensures places.Keys == Names(inits)
    ensures forall a :: a in places ==> places[a] < |inits| && inits[places[a]].app == a
  {
    if inits == [] then map[]
    else
      NamesAppend(inits[..|inits| - 1], inits[|inits| - 1]);
      assert inits == inits[..|inits| - 1] + [inits[|inits| - 1]];
      Places(inits[..|inits| - 1])[inits[|inits| - 1].app := |inits| - 1]
  }

  lemma PlacesRank(c: Config, inits: seq<Init>)
    requires Ordered(c, inits)
    ensures Ranked(c, Places(inits))
  {
    var places := Places(inits);
    forall a, d | a in places && d in c.deps[a] ensures d in places && places[d] < places[a] {
      assert d in Names(inits[..places[a]]);
      var j :| 0 <= j < places[a] && inits[..places[a]][j].app == d;
      assert inits[j].app == d && d in Names(inits);
      assert inits[places[d]].app == inits[j].app;
    }
  }

  lemma NamedIsRankable(c: Config, w: World, app: string)
    requires Sound(c, w) && app in Names(w.inits)
    ensures Rankable(c, app)
  {
    PlacesRank(c, w.inits);
    assert app in Places(w.inits);
  }

  predicate Idle(w: World) {
    forall a :: a in w.apps ==> w.apps[a] != Initializing
  }

  lemma RankableSucceeds(c: Config, w: World, app: string)
    requires Sound(c, w) && Idle(w) && Rankable(c, app)
    ensures Walk(c, w, app).outcome == Found(Initialized)
  {
    hide Walk, Ordered, Spread, Names;
    var rank :| Ranked(c, rank) && app in rank;
    RankedSucceeds(c, w, app, rank);
  }

  predicate Fresh(c: Config, w: World) {
    Sound(c, w) && forall a :: a in w.apps ==> w.apps[a] == Registered
  }

  /** From a fresh start, a service is initialised exactly when it and all that it depends on, directly
      or not, are registered and free of cycles. */
  lemma InitializeExact(c: Config, w: World, app: string)
    requires Fresh(c, w)
    ensures Walk(c, w, app).outcome == Found(Initialized) <==> Rankable(c, app)
  {
    hide Walk, Ordered, Spread, Names, Rankable;
    if Rankable(c, app) {
      RankableSucceeds(c, w, app);
    } else if Walk(c, w, app).outcome == Found(Initialized) {
      InitializeSound(c, w, app);
      NamedIsRankable(c, Walk(c, w, app).world, app);
    }
  }

  /** Following dependencies. */
  predicate IsPath(c: Config, path: seq<string>) {
    path != [] && forall i :: 0 <= i < |path| - 1 ==>
      path[i] in c.deps && var next := path[i + 1]; next in c.deps[path[i]]
  }

  lemma {:induction false} PathDescends(c: Config, rank: map<string, nat>, path: seq<string>, i: nat, j: nat)
    requires Ranked(c, rank) && IsPath(c, path) && i < j < |path| && path[i] in rank
    ensures path[j] in rank && rank[path[j]] < rank[path[i]]
    decreases j
  {
    if i + 1 < j {
      PathDescends(c, rank, path, i, j - 1);
    }
    var next := path[j - 1 + 1];
    assert next in c.deps[path[j - 1]];
  }

  /** An application that leads to one that is not registered, or to a cycle, is never initialised,
      whatever services are asked for. */
  lemma BrokenNeverStarts(c: Config, w: World, services: seq<string>, path: seq<string>, j: nat)
    requires Sound(c, w) && IsPath(c, path) && j < |path|
    requires path[|path| - 1] !in c.deps || (j < |path| - 1 && path[j] == path[|path| - 1])
    ensures path[0] !in Names(Started(c, w, services).world.inits)
  {
    var inits := Started(c, w, services).world.inits;
    StartAllSound(c, w, services);
    PlacesRank(c, inits);
    BrokenUnranked(c, Places(inits), path, j);
  }

  lemma BrokenUnranked(c: Config, rank: map<string, nat>, path: seq<string>, j: nat)
    requires Ranked(c, rank) && IsPath(c, path) && j < |path|
    requires path[|path| - 1] !in c.deps || (j < |path| - 1 && path[j] == path[|path| - 1])
    ensures path[0] !in rank
  {
    var last := |path| - 1;
    if path[0] in rank && j < last && path[last] in c.deps {
      if j > 0 {
        PathDescends(c, rank, path, 0, j);
      }
      PathDescends(c, rank, path, j, last);
    } else if path[0] in rank && last > 0 {
      PathDescends(c, rank, path, 0, last);
    }
  }

  /** Services are started in turn: what the first of them initialise comes first. */
  lemma {:induction false} ServicesInTurn(c: Config, w: World, services: seq<string>, k: nat)
    requires w.apps.Keys == c.deps.Keys && k <= |services|
    ensures Started(c, w, services[..k]).world.inits <= Started(c, w, services).world.inits
    decreases |services|
  {
    hide Walk;
    if k > 0 {
      var r := Walk(c, w, services[0]);
      assert services[..k][0] == services[0] && services[..k][1..] == services[1..][..k - 1];
      if !r.outcome.Fatal? { ServicesInTurn(c, r.world, services[1..], k - 1); }
    }
  }

  /** So are the dependencies of an application. */
  lemma {:induction false} DependenciesInTurn(c: Config, w: World, apps: seq<string>, k: nat)
    requires w.apps.Keys == c.deps.Keys && k <= |apps|
    ensures WalkAll(c, w, apps[..k]).world.inits <= WalkAll(c, w, apps).world.inits
    decreases |apps|
  {
    hide Walk;
    if k > 0 {
      var r := Walk(c, w, apps[0]);
      assert apps[..k][0] == apps[0] && apps[..k][1..] == apps[1..][..k - 1];
      if r.outcome == Found(Initialized) { DependenciesInTurn(c, r.world, apps[1..], k - 1); }
    }
  }

  /** Some application of the list leads to app. */
  ghost predicate Needed(c: Config, apps: seq<string>, app: string) {
    exists path :: IsPath(c, path) && path[0] in apps && path[|path| - 1] == app
  }

  lemma NeededBefore(c: Config, app: string, d: string)
    requires app in c.deps && Needed(c, c.deps[app], d)
    ensures Needed(c, [app], d)
  {
    var path :| IsPath(c, path) && path[0] in c.deps[app] && path[|path| - 1] == d;
    var longer := [app] + path;
    assert longer[|longer| - 1] == d;
    forall k | 0 <= k < |longer| - 1
      ensures longer[k] in c.deps && var next := longer[k + 1]; next in c.deps[longer[k]]
    {
      assert longer[k + 1] == path[k];
      if k > 0 {
        var next := path[k - 1 + 1];
        assert longer[k] == path[k - 1] && next in c.deps[path[k - 1]];
      }
    }
    assert IsPath(c, longer);
  }

  /** Nothing is initialised that no service leads to. */
  ghost predicate OnlyNeeded(c: Config, w: World, w': World, apps: seq<string>) {
    w.inits <= w'.inits && forall i | |w.inits| <= i < |w'.inits| :: Needed(c, apps, w'.inits[i].app)
  }

  lemma NeededMore(c: Config, few: seq<string>, many: seq<string>)
    requires forall a :: a in few ==> a in many
    ensures forall app | Needed(c, few, app) :: Needed(c, many, app)
  {
    forall app | Needed(c, few, app) ensures Needed(c, many, app) {
      var path :| IsPath(c, path) && path[0] in few && path[|path| - 1] == app;
    }
  }

  lemma {:induction false} WalkNeeds(c: Config, w: World, app: string)
    requires w.apps.Keys == c.deps.Keys
    ensures OnlyNeeded(c, w, Walk(c, w, app).world, [app])
    decreases |Waiting(w)|, 0
  {
    if app in w.apps && w.apps[app] == Registered {
      hide Waiting, Needed;
      var w' := w.(apps := w.apps[app := Initializing]);
      Fewer(w, app);
      WalkAllNeeds(c, w', c.deps[app]);
      forall d | Needed(c, c.deps[app], d) ensures Needed(c, [app], d) { NeededBefore(c, app, d); }
      NeedsItself(c, app);
      hide WalkAll;
    }
  }

  lemma NeedsItself(c: Config, app: string)
    ensures Needed(c, [app], app)
  {
    assert IsPath(c, [app]);
  }

  lemma {:induction false} WalkAllNeeds(c: Config, w: World, apps: seq<string>)
    requires w.apps.Keys == c.deps.Keys
    ensures OnlyNeeded(c, w, WalkAll(c, w, apps).world, apps)
    decreases |Waiting(w)|, |apps|
  {
    hide Walk, Needed, Waiting;
    if apps != [] {
      WalkNeeds(c, w, apps[0]);
      NeededMore(c, [apps[0]], apps);
      NeededMore(c, apps[1..], apps);
      var r := Walk(c, w, apps[0]);
      if r.outcome == Found(Initialized) {
        NoMore(w, r.world);
        WalkAllNeeds(c, r.world, apps[1..]);
      }
    }
  }

  lemma {:induction false} StartsOnlyNeeded(c: Config, w: World, services: seq<string>)
    requires w.apps.Keys == c.deps.Keys
    ensures OnlyNeeded(c, w, Started(c, w, services).world, services)
    decreases |services|
  {
    hide Walk, Needed;
    if services != [] {
      WalkNeeds(c, w, services[0]);
      NeededMore(c, [services[0]], services);
      NeededMore(c, services[1..], services);
      var r := Walk(c, w, services[0]);
      if !r.outcome.Fatal? { StartsOnlyNeeded(c, r.world, services[1..]); }
    }
  }

  // ---------- when the process ends ----------

  /** Every dependency is registered. */
  predicate Closed(c: Config) {
    forall a :: a in c.deps ==> forall d :: d in c.deps[a] ==> d in c.deps
  }

  lemma {:induction false} ClosedFinds(c: Config, w: World, app: string)
    requires w.apps.Keys == c.deps.Keys && Closed(c) && app in c.deps
    ensures var r := Walk(c, w, app);
            !r.outcome.Missing? && (r.outcome.Found? ==> Settled(w, r.world))
    decreases |Waiting(w)|, 0
  {
    if w.apps[app] == Registered {
      hide Walk, WalkAll, Waiting;
      WalkRegistered(c, w, app);
      ClosedFindsAll(c, w.(apps := w.apps[app := Initializing]), c.deps[app]);
    }
  }

  lemma {:induction false} ClosedFindsAll(c: Config, w: World, apps: seq<string>)
    requires w.apps.Keys == c.deps.Keys && Closed(c) && forall d :: d in apps ==> d in c.deps
    ensures var r := WalkAll(c, w, apps);
            !r.outcome.Missing? && (r.outcome.Found? ==> Settled(w, r.world))
    decreases |Waiting(w)|, |apps|
  {
    hide Walk, WalkAll, Waiting, AllIn, Closed;
    InitializeAllStep(c, w, apps, {});
    if apps != [] {
      ClosedFinds(c, w, apps[0]);
      var r := Walk(c, w, apps[0]);
      if r.outcome == Found(Initialized) {
        NoMore(w, r.world);
        ClosedFindsAll(c, r.world, apps[1..]);
      }
    }
  }

  /** When every dependency is registered, the process ends exactly when a service that is asked for
      leads to a cycle. */
  lemma {:induction false} FatalExact(c: Config, w: World, services: seq<string>)
    requires Sound(c, w) && Idle(w) && Closed(c) && forall s :: s in services ==> s in c.deps
    ensures Started(c, w, services).outcome.Fatal? <==> exists s :: s in services && !Rankable(c, s)
    decreases |services|
  {
    assert w.apps.Keys == c.deps.Keys;
    hide Sound, Rankable, Walk, Closed;
    if services != [] {
      var s, r := services[0], Walk(c, w, services[0]);
      ServiceExact(c, w, s);
      assert forall t :: t in services <==> t == s || t in services[1..];
      if !r.outcome.Fatal? {
        FatalExact(c, r.world, services[1..]);
      }
    }
  }

  lemma ServiceExact(c: Config, w: World, s: string)
    requires Sound(c, w) && Idle(w) && Closed(c) && s in c.deps
    ensures var r := Walk(c, w, s);
            && Sound(c, r.world) && (r.outcome.Fatal? <==> !Rankable(c, s))
            && (!r.outcome.Fatal? ==> Idle(r.world))
  {
    hide WalkAll, Ordered, Spread, Names, Rankable, Closed;
    var r := Walk(c, w, s);
    InitializeSound(c, w, s);
    ClosedFinds(c, w, s);
    if r.outcome == Found(Initialized) {
      NamedIsRankable(c, r.world, s);
    }
    if Rankable(c, s) {
      RankableSucceeds(c, w, s);
    }
  }

  /** With a missing dependency the process also ends without any cycle: the application that misses it
      stays under way, and the next that depends on this one is taken for a part of a cycle. */
  lemma FatalWithoutCycle()
    ensures var c := Config(map["a" := ["m"], "b" := ["a"]], map[], 1);
            var w := World(map["a" := Registered, "b" := Registered], 0, []);
            Started(c, w, ["a"]).outcome == Found(Initialized) && Started(c, w, ["a", "b"]).outcome == Fatal
  {
    var c := Config(map["a" := ["m"], "b" := ["a"]], map[], 1);
    var w := World(map["a" := Registered, "b" := Registered], 0, []);
    var w1 := w.(apps := w.apps["a" := Initializing]);
    var w2 := w1.(apps := w1.apps["b" := Initializing]);
    assert Walk(c, w1, "m") == Run(w1, Missing);
    assert WalkAll(c, w1, ["m"]) == Run(w1, Missing);
    assert Walk(c, w, "a") == Run(w1, Missing);
    assert Walk(c, w2, "a") == Run(w2, Found(Initializing));
    assert WalkAll(c, w2, ["a"]) == Run(w2, Fatal);
    assert Walk(c, w1, "b") == Run(w2, Fatal);
    assert ["a"][1..] == [] && ["a", "b"][1..] == ["b"];
  }

  // ---------- which configurations end the process for a cycle only ----------

  ghost predicate LeadsToCycle(c: Config, app: string) {
    exists path, i, j :: IsPath(c, path) && path[0] == app && 0 <= i < j < |path| && path[i] == path[j]
  }

  lemma CycleBefore(c: Config, app: string, next: string)
    requires app in c.deps && next in c.deps[app] && LeadsToCycle(c, next)
    ensures LeadsToCycle(c, app)
  {
    var path, i, j :| IsPath(c, path) && path[0] == next && 0 <= i < j < |path| && path[i] == path[j];
    var longer := [app] + path;
    assert longer[i + 1] == path[i] && longer[j + 1] == path[j];
    forall k | 0 <= k < |longer| - 1 ensures longer[k] in c.deps && var d := longer[k + 1]; d in c.deps[longer[k]] {
      if k > 0 {
        assert longer[k] == path[k - 1] && longer[k + 1] == path[k];
        var d := path[k - 1 + 1];
        assert d in c.deps[path[k - 1]];
      }
    }
    assert IsPath(c, longer);
  }

  lemma RankedHasNoCycle(c: Config, app: string)
    requires Rankable(c, app)
    ensures !LeadsToCycle(c, app)
  {
    var rank :| Ranked(c, rank) && app in rank;
    if path, i, j :| IsPath(c, path) && path[0] == app && 0 <= i < j < |path| && path[i] == path[j] {
      if i > 0 {
        PathDescends(c, rank, path, 0, i);
      }
      PathDescends(c, rank, path, i, j);
    }
  }

  lemma {:induction false} Bound(rank: map<string, nat>) returns (b: nat)
    ensures forall a :: a in rank ==> rank[a] < b
    decreases |rank.Keys|
  {
    if rank.Keys == {} {
      b := 0;
    } else {
      var a :| a in rank;
      var rest := rank - {a};
      assert rest.Keys == rank.Keys - {a};
      var b0 := Bound(rest);
      assert forall x :: x in rank ==> x == a || (x in rest && rest[x] == rank[x]);
      b := if b0 > rank[a] then b0 else rank[a] + 1;
    }
  }

  /** One ranking for what two rankings rank. */
  lemma Merged(c: Config, r1: map<string, nat>, r2: map<string, nat>) returns (rank: map<string, nat>)
    requires Ranked(c, r1) && Ranked(c, r2)
    ensures Ranked(c, rank) && rank.Keys == r1.Keys + r2.Keys
  {
    var b := Bound(r1);
    rank := map a | a in r1.Keys + r2.Keys :: if a in r1 then r1[a] else r2[a] + b;
  }

  lemma {:induction false} RankedTogether(c: Config, apps: seq<string>) returns (rank: map<string, nat>)
    requires forall d :: d in apps ==> Rankable(c, d)
    ensures Ranked(c, rank) && AllIn(apps, rank.Keys)
    decreases |apps|
  {
    if apps == [] {
      rank := map[];
    } else {
      assert Rankable(c, apps[0]);
      var r1 :| Ranked(c, r1) && apps[0] in r1;
      assert forall d :: d in apps[1..] ==> d in apps;
      var r2 := RankedTogether(c, apps[1..]);
      rank := Merged(c, r1, r2);
      FirstIn(apps, rank.Keys);
    }
  }

  /** A registered application that cannot be ranked has a dependency that cannot. */
  lemma UnrankedNext(c: Config, app: string)
    requires app in c.deps && !Rankable(c, app)
    ensures exists d :: d in c.deps[app] && !Rankable(c, d)
  {
    if forall d :: d in c.deps[app] ==> Rankable(c, d) {
      var rank := RankedTogether(c, c.deps[app]);
      if app !in rank {
        var b := Bound(rank);
        var all := rank[app := b];
        assert Ranked(c, all) && app in all;
      }
    }
  }

  ghost function FirstUnranked(c: Config, apps: seq<string>): (d: string)
    requires exists d :: d in apps && !Rankable(c, d)
    ensures d in apps && !Rankable(c, d)
  {
    if !Rankable(c, apps[0]) then apps[0]
    else
      assert apps == [apps[0]] + apps[1..];
      FirstUnranked(c, apps[1..])
  }

  /** The dependency at which the walk over the dependencies of an application gets stuck. */
  ghost function Next(c: Config, app: string): (d: string)
    requires app in c.deps && !Rankable(c, app)
    ensures d in c.deps[app] && !Rankable(c, d)
  {
    UnrankedNext(c, app);
    FirstUnranked(c, c.deps[app])
  }

  /** Going on from one such dependency to the next ends at a name that is not registered, before it comes
      to one that was seen. */
  ghost predicate EndsMissing(c: Config, app: string, seen: set<string>)
    requires !Rankable(c, app)
    decreases c.deps.Keys - seen
  {
    app !in c.deps || (app !in seen && EndsMissing(c, Next(c, app), seen + {app}))
  }

  lemma {:induction false} EndsSooner(c: Config, app: string, seen: set<string>, more: set<string>)
    requires !Rankable(c, app) && seen <= more && EndsMissing(c, app, more)
    ensures EndsMissing(c, app, seen)
    decreases c.deps.Keys - more
  {
    if app in c.deps {
      EndsSooner(c, Next(c, app), seen + {app}, more + {app});
    }
  }

  /** If it does not, it comes to a cycle. */
  lemma {:induction false} ChainCycles(c: Config, path: seq<string>, seen: set<string>)
    requires IsPath(c, path) && seen == (set k | 0 <= k < |path| - 1 :: path[k])
    requires !Rankable(c, path[|path| - 1]) && !EndsMissing(c, path[|path| - 1], seen)
    ensures LeadsToCycle(c, path[0])
    decreases c.deps.Keys - seen
  {
    var last := |path| - 1;
    var app := path[last];
    if app in seen {
      var k :| 0 <= k < last && path[k] == app;
    } else {
      var longer := path + [Next(c, app)];
      forall k | 0 <= k < |longer| - 1 ensures longer[k] in c.deps && var d := longer[k + 1]; d in c.deps[longer[k]] {
        if k < last {
          assert longer[k] == path[k] && longer[k + 1] == path[k + 1];
          var d := path[k + 1];
          assert d in c.deps[path[k]];
        }
      }
      assert IsPath(c, longer);
      assert seen + {app} == (set k | 0 <= k < |longer| - 1 :: longer[k]) by {
        forall k | 0 <= k < |longer| - 1 ensures longer[k] in seen + {app} {
          assert longer[k] == path[k];
        }
        forall a | a in seen + {app} ensures a in (set k | 0 <= k < |longer| - 1 :: longer[k]) {
          var k :| 0 <= k <= last && path[k] == a;
          assert longer[k] == a;
        }
      }
      ChainCycles(c, longer, seen + {app});
    }
  }

  function UnderWay(w: World): set<string> {
    set a | a in w.apps && w.apps[a] == Initializing
  }

  /** What is under way can never be initialised. */
  ghost predicate Blocked(c: Config, w: World) {
    Sound(c, w) && forall a :: a in UnderWay(w) ==> !Rankable(c, a)
  }

  lemma InitializedIsRankable(c: Config, w: World, app: string)
    requires Sound(c, w) && app in w.apps && w.apps[app] == Initialized
    ensures Rankable(c, app)
  {
    SoundNames(c, w, app);
    NamedIsRankable(c, w, app);
  }

  /** A walk that succeeds leaves alone all that cannot be initialised. */
  lemma RankableWalk(c: Config, w: World, app: string)
    requires Blocked(c, w) && Rankable(c, app)
    ensures var r := Walk(c, w, app);
            && r.outcome == Found(Initialized) && Blocked(c, r.world) && UnderWay(r.world) == UnderWay(w)
            && forall z :: z in w.apps && w.apps[z] == Registered && !Rankable(c, z) ==> r.world.apps[z] == Registered
  {
    hide Walk, Ordered, Spread;
    var rank :| Ranked(c, rank) && app in rank;
    forall a | a in rank ensures a in w.apps && w.apps[a] != Initializing {
      assert a in UnderWay(w) ==> !Rankable(c, a);
    }
    RankedSucceeds(c, w, app, rank);
    InitializeSound(c, w, app);
    var w' := Walk(c, w, app).world;
    forall z | z in w.apps && w.apps[z] == Registered && !Rankable(c, z) ensures w'.apps[z] == Registered {
      if w'.apps[z] == Initialized { InitializedIsRankable(c, w', z); }
    }
  }

  /** The loop over the dependencies comes to the first that cannot be initialised. */
  lemma {:induction false} WalkToNext(c: Config, w: World, apps: seq<string>) returns (v: World)
    requires Blocked(c, w) && exists d :: d in apps && !Rankable(c, d)
    ensures Blocked(c, v) && UnderWay(v) == UnderWay(w) && |Waiting(v)| <= |Waiting(w)|
    ensures forall z :: z in w.apps && w.apps[z] == Registered && !Rankable(c, z) ==> v.apps[z] == Registered
    ensures var r := Walk(c, v, FirstUnranked(c, apps));
            && (r.outcome.Missing? || r.outcome.Fatal? ==> WalkAll(c, w, apps) == r)
            && (r.outcome == Found(Initializing) ==> WalkAll(c, w, apps) == Run(r.world, Fatal))
    decreases |apps|
  {
    hide Sound, Rankable, Walk, WalkAll, Waiting, UnderWay;
    SoundKeys(c, w);
    InitializeAllStep(c, w, apps, {});
    if !Rankable(c, apps[0]) {
      v := w;
    } else {
      assert apps == [apps[0]] + apps[1..];
      RankableWalk(c, w, apps[0]);
      NoMore(w, Walk(c, w, apps[0]).world);
      v := WalkToNext(c, Walk(c, w, apps[0]).world, apps[1..]);
    }
  }

  lemma SoundKeys(c: Config, w: World)
    requires Sound(c, w)
    ensures w.apps.Keys == c.deps.Keys
  {
  }

  /** The walk from an application that cannot be initialised ends where the chain of first unranked
      dependencies ends; what stays under way lies on that chain. */
  lemma {:induction false} WalkChain(c: Config, w: World, app: string)
    requires Blocked(c, w) && app in w.apps && w.apps[app] == Registered && !Rankable(c, app)
    ensures var r := Walk(c, w, app);
            && r.outcome == (if EndsMissing(c, app, UnderWay(w)) then Missing else Fatal)
            && Blocked(c, r.world) && app in UnderWay(r.world) && UnderWay(w) <= UnderWay(r.world)
            && forall z ::
               z in w.apps && w.apps[z] == Registered && !Rankable(c, z) && EndsMissing(c, app, UnderWay(w) + {z}) ==>
                             r.world.apps[z] == Registered
    decreases |Waiting(w)|
  {
    hide Rankable, Sound, EndsMissing, Walk, WalkAll, Waiting;
    var w1 := w.(apps := w.apps[app := Initializing]);
    SoundKeys(c, w);
    WalkRegistered(c, w, app);
    StartedSound(c, w, app);
    assert UnderWay(w1) == UnderWay(w) + {app};
    UnrankedNext(c, app);
    var next := Next(c, app);
    var v := WalkToNext(c, w1, c.deps[app]);
    SoundKeys(c, v);
    EndsStep(c, app, UnderWay(w));
    EndsStep(c, next, UnderWay(v));
    if next in v.apps && v.apps[next] == Registered {
      WalkChain(c, v, next);
    } else {
      WalkOther(c, v, next);
    }
    forall z | z in w.apps && w.apps[z] == Registered && !Rankable(c, z) && EndsMissing(c, app, UnderWay(w) + {z})
      ensures Walk(c, w, app).world.apps[z] == Registered
    {
      EndsStep(c, app, UnderWay(w) + {z});
      assert UnderWay(w) + {z} + {app} == UnderWay(v) + {z};
      EndsStep(c, next, UnderWay(v) + {z});
    }
  }

  lemma WalkOther(c: Config, w: World, app: string)
    requires Sound(c, w) && !Rankable(c, app) && (app in w.apps ==> w.apps[app] != Registered)
    ensures Walk(c, w, app) == Run(w, if app in w.apps then Found(Initializing) else Missing)
    ensures app in w.apps <==> app in UnderWay(w)
  {
    hide Rankable;
    if app in w.apps && w.apps[app] == Initialized {
      InitializedIsRankable(c, w, app);
    }
  }

  lemma EndsStep(c: Config, app: string, seen: set<string>)
    requires !Rankable(c, app)
    ensures EndsMissing(c, app, seen) <==>
            app !in c.deps || (app !in seen && EndsMissing(c, Next(c, app), seen + {app}))
  {
  }

  ghost predicate AsksForCycle(c: Config, services: seq<string>) {
    exists s :: s in services && LeadsToCycle(c, s)
  }

  /** An application whose walk comes to a missing name misses that name itself, and leads to no cycle. */
  ghost predicate MissesAtOnce(c: Config) {
    forall a :: a in c.deps && !Rankable(c, a) && EndsMissing(c, a, {}) ==> Next(c, a) !in c.deps && !LeadsToCycle(c, a)
  }

  /** In such a configuration, what is under way is what misses a dependency itself. */
  ghost predicate Stuck(c: Config, w: World) {
    Blocked(c, w) && forall a :: a in UnderWay(w) ==> a in c.deps && EndsMissing(c, a, {}) && Next(c, a) !in c.deps
  }

  lemma StuckWalk(c: Config, w: World, s: string)
    requires MissesAtOnce(c) && Stuck(c, w)
    ensures var r := Walk(c, w, s);
            && (r.outcome.Fatal? <==> LeadsToCycle(c, s))
            && (!r.outcome.Fatal? ==> Stuck(c, r.world))
  {
    hide Rankable, Sound, EndsMissing, Walk, WalkAll, LeadsToCycle;
    SoundKeys(c, w);
    if Rankable(c, s) {
      RankedHasNoCycle(c, s);
      RankableWalk(c, w, s);
    } else if s !in w.apps || w.apps[s] != Registered {
      WalkOther(c, w, s);
      if s !in w.apps { UnregisteredHasNoCycle(c, s); }
    } else {
      WalkChain(c, w, s);
      if EndsMissing(c, s, UnderWay(w)) {
        EndsSooner(c, s, {}, UnderWay(w));
        var w' := Walk(c, w, s).world;
        forall a | a in UnderWay(w') ensures a == s || a in UnderWay(w) {
          if a != s {
            EndsStep(c, s, UnderWay(w) + {a});
            EndsStep(c, Next(c, s), UnderWay(w) + {a} + {s});
            EndsStep(c, s, UnderWay(w));
            NotInitialized(c, w, w', a);
          }
        }
      } else if EndsMissing(c, s, {}) {
        EndsStep(c, s, UnderWay(w));
        EndsStep(c, Next(c, s), UnderWay(w) + {s});
        assert false;
      } else {
        ChainCycles(c, [s], {});
      }
    }
  }

  lemma NotInitialized(c: Config, w: World, w': World, a: string)
    requires Sound(c, w) && Walks(w, w') && a in UnderWay(w') && !Rankable(c, a)
    ensures a in w.apps && (a in UnderWay(w) || w.apps[a] == Registered)
  {
  }

  lemma UnregisteredHasNoCycle(c: Config, s: string)
    requires s !in c.deps
    ensures !LeadsToCycle(c, s)
  {
  }

  lemma {:induction false} StuckRun(c: Config, w: World, services: seq<string>)
    requires MissesAtOnce(c) && Stuck(c, w)
    ensures Started(c, w, services).outcome.Fatal? <==> AsksForCycle(c, services)
    decreases |services|
  {
    hide MissesAtOnce, Walk, LeadsToCycle, Sound;
    SoundKeys(c, w);
    if services != [] {
      StuckWalk(c, w, services[0]);
      assert forall s :: s in services <==> s == services[0] || s in services[1..];
      var r := Walk(c, w, services[0]);
      if !r.outcome.Fatal? {
        StuckRun(c, r.world, services[1..]);
      }
    }
  }

  lemma FreshBlocked(c: Config, w: World)
    requires Fresh(c, w)
    ensures Blocked(c, w) && UnderWay(w) == {}
  {
  }

  /** Otherwise some service whose walk comes to a missing name is passed over although it leads to a cycle,
      or makes the process end for an application that does not. */
  lemma MissedLater(c: Config, w: World, a: string) returns (services: seq<string>)
    requires Fresh(c, w) && a in c.deps && !Rankable(c, a) && EndsMissing(c, a, {})
    requires Next(c, a) in c.deps || LeadsToCycle(c, a)
    ensures Started(c, w, services).outcome.Fatal? <==> !AsksForCycle(c, services)
  {
    hide Rankable, Sound, EndsMissing, Walk, WalkAll, LeadsToCycle;
    FreshBlocked(c, w);
    SoundKeys(c, w);
    if LeadsToCycle(c, a) {
      services := [a];
      WalkChain(c, w, a);
      StartedOne(c, w, a);
    } else {
      var next := Next(c, a);
      services := [next, a];
      EndsStep(c, a, {});
      EndsSooner(c, next, {}, {} + {a});
      if LeadsToCycle(c, next) { CycleBefore(c, a, next); }
      WalkChain(c, w, next);
      var v := Walk(c, w, next).world;
      assert v.apps[a] == Registered;
      WalkChain(c, v, a);
      EndsStep(c, a, UnderWay(v));
      EndsStep(c, next, UnderWay(v) + {a});
      StartedOne(c, v, a);
      assert [next, a][1..] == [a];
    }
  }

  lemma StartedOne(c: Config, w: World, s: string)
    requires w.apps.Keys == c.deps.Keys
    ensures Started(c, w, [s]).outcome.Fatal? <==> Walk(c, w, s).outcome.Fatal?
  {
  }

  /** Whatever services are asked for, the process ends exactly if one of them leads to a cycle: this holds
      exactly of the configurations in which each application whose walk comes to a missing name misses
      that name itself, and leads to no cycle. */
  lemma FatalForCyclesExact(c: Config, w: World)
    requires Fresh(c, w)
    ensures (forall services :: Started(c, w, services).outcome.Fatal? <==> AsksForCycle(c, services)) <==>
            MissesAtOnce(c)
  {
    hide Rankable, Sound, EndsMissing, LeadsToCycle, AsksForCycle, Started;
    FreshBlocked(c, w);
    SoundKeys(c, w);
    if MissesAtOnce(c) {
      forall services ensures Started(c, w, services).outcome.Fatal? <==> AsksForCycle(c, services) {
        StuckRun(c, w, services);
      }
    } else {
      var a :| a in c.deps && !Rankable(c, a) && EndsMissing(c, a, {})
        && !(Next(c, a) !in c.deps && !LeadsToCycle(c, a));
      var services := MissedLater(c, w, a);
    }
  }

  // ---------- the loader ----------

  class Loader {
    const config: Config
    var apps: map<string, AppState>
    var lastThread: nat
    var inits: seq<Init>

    /** Every application in the registry starts out registered. */
    constructor (config: Config)
      requires config.threads > 0
      ensures this.config == config && Sound(config, Value()) && Idle(Value())
      ensures forall a :: a in apps ==> apps[a] == Registered
    {
      this.config := config;
      apps, lastThread, inits := map a | a in config.deps :: Registered, 0, [];
    }

    function Value(): World
      reads this
    {
      World(apps, lastThread, inits)
    }

    method Launch(app: string)
      modifies this
      ensures Value() == Launched(config, old(Value()), app)
    {
      var thread := lastThread;
      if Pinned(config, app) {
        thread := config.pins[app];
      } else {
        lastThread := lastThread + 1;
        if lastThread == config.threads {
          lastThread := 0;
        }
      }
      inits := inits + [Init(app, thread)];
      apps := apps[app := Initialized];
    }

    method Initialize(app: string) returns (outcome: Outcome)
      requires apps.Keys == config.deps.Keys
      modifies this
      ensures Run(Value(), outcome) == Walk(config, old(Value()), app)
      decreases |Waiting(Value())|, 0
    {
      if app !in apps {
        return Missing;
      }
      if apps[app] != Registered {
        return Found(apps[app]);
      }
      Fewer(Value(), app);
      apps := apps[app := Initializing];
      ghost var start := Value();
      var deps, i := config.deps[app], 0;
      assert deps[0..] == deps;
      while i < |deps|
        invariant i <= |deps| && Walks(start, Value())
        invariant WalkAll(config, Value(), deps[i..]) == WalkAll(config, start, deps)
      {
        NoMore(start, Value());
        InitializeAllStep(config, Value(), deps[i..], {});
        assert deps[i..][0] == deps[i] && deps[i..][1..] == deps[i + 1..];
        var dependency := Initialize(deps[i]);
        if dependency.Missing? || dependency.Fatal? {
          return dependency;
        }
        if dependency.state == Initializing {
          return Fatal;
        }
        i := i + 1;
      }
      Launch(app);
      return Found(Initialized);
    }

    /** The services of the configuration, in order; a missing one is passed over. */
    method StartAll(services: seq<string>) returns (fatal: bool)
      requires Sound(config, Value())
      modifies this
      ensures Value() == Started(config, old(Value()), services).world && Sound(config, Value())
      ensures fatal <==> Started(config, old(Value()), services).outcome.Fatal?
    {
      var i := 0;
      assert services[0..] == services;
      while i < |services|
        invariant i <= |services| && Sound(config, Value())
        invariant Started(config, Value(), services[i..]) == Started(config, old(Value()), services)
      {
        InitializeSound(config, Value(), services[i]);
        assert services[i..][0] == services[i] && services[i..][1..] == services[i + 1..];
        var outcome := Initialize(services[i]);
        if outcome.Fatal? {
          return true;
        }
        i := i + 1;
      }
      return false;
    }
  }
}
