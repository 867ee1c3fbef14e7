/** The flow manager and the REST event log together (src/FlowManager.cc, src/Event.cc): whatever other
    applications log in between, a client that polls ends up with exactly the stored rules. */
module FlowRuns {
  import opened Wrappers
  import E = Events
  import opened FlowManagers

  /** The name and the hash of the application in the log. */
  datatype Owner = Owner(app: string, hash: bv32)

  function ObjectOf(owner: Owner, r: Rule): E.Object {
    E.Object(owner.app, r.id)
  }

  /** addEvent of the application, under the next event id. (An Add is always found for a Delete:
      EmittedFollows.) */
  function Logged(log: seq<E.Entry>, c: Call, owner: Owner, id: nat): seq<E.Entry> {
    if c.kind == E.Delete && E.FindAdd(log, ObjectOf(owner, c.rule)) < 0 then log
    else E.Appended(log, c.kind, ObjectOf(owner, c.rule), owner.hash, owner.app, id)
  }

  /** The calls logged one after the other. */
  function Emitted(log: seq<E.Entry>, calls: seq<Call>, owner: Owner, lastEvent: nat): seq<E.Entry>
    decreases |calls|
  {
    if calls == [] then log
    else Emitted(Logged(log, calls[0], owner, lastEvent + 1), calls[1..], owner, lastEvent + 1)
  }

  // ---------- what the log tells about the rules ----------

  /** An entry that might be the application's is about a rule that was announced. */
  ghost predicate Owned(e: E.Entry, calls: seq<Call>, owner: Owner) {
    e.app == owner.app || e.obj.owner == owner.app ==>
      && e.app == owner.app && e.hash == owner.hash
      && exists c :: c in calls && e.obj == ObjectOf(owner, c.rule)
  }

  /** The rules that are live in the log are those added and not deleted. */
  ghost predicate Follows(log: seq<E.Entry>, calls: seq<Call>, owner: Owner) {
    && E.WellFormed(log)
    && (forall i :: 0 <= i < |log| ==> Owned(log[i], calls, owner))
    && forall c :: c in calls ==>
       (E.Live(log, ObjectOf(owner, c.rule)) <==> Added(calls, c.rule) && !Deleted(calls, c.rule))
  }

  /** The client is not ahead of the log, and the log not ahead of the event ids. */
  ghost predicate Watched(log: seq<E.Entry>, lastEvent: nat, mask: bv32, app: string, last: nat,
                          objects: set<E.Object>) {
    && (forall i :: 0 <= i < |log| ==> log[i].id <= lastEvent)
    && E.Behind(log, mask, app, last, objects) && E.KnownLast(log, last)
  }

  lemma AppendedLive(log: seq<E.Entry>, kind: E.Kind, obj: E.Object, hash: bv32, app: string, id: nat, o: E.Object)
    requires kind == E.Delete ==> E.FindAdd(log, obj) >= 0
    ensures var log' := E.Appended(log, kind, obj, hash, app, id);
            E.Live(log', o) <==> if o == obj && kind != E.Change then kind == E.Add else E.Live(log, o)
  {
    var log' := E.Appended(log, kind, obj, hash, app, id);
    E.LastOfUnique(log', o, if o == obj && kind != E.Change then |log| else E.LastOf(log, o));
  }

  lemma AppendedLooks(log: seq<E.Entry>, kind: E.Kind, obj: E.Object, hash: bv32, app: string, id: nat)
    requires kind == E.Delete ==> E.FindAdd(log, obj) >= 0
    ensures var log' := E.Appended(log, kind, obj, hash, app, id);
            E.ExtendsByOne(log, log') && log'[|log|].(brother := None) == E.Entry(id, kind, obj, hash, app, None)
  {
  }

  lemma AnnouncedPrefix(calls: seq<Call>, c: Call)
    requires Announced(calls + [c])
    ensures Announced(calls) && c !in calls && c.kind != E.Change && (c.kind == E.Delete ==> Added(calls, c.rule))
  {
    var calls' := calls + [c];
    assert forall i :: 0 <= i < |calls| ==> calls'[i] == calls[i] && calls'[..i] == calls[..i];
    assert calls'[|calls|] == c && calls'[..|calls|] == calls;
  }

  /** The log knows a rule only from its calls. */
  lemma FollowedRule(log: seq<E.Entry>, calls: seq<Call>, c: Call, owner: Owner, lastId: nat, i: nat)
    requires Follows(log, calls, owner) && Numbered(calls + [c], lastId)
    requires i < |log| && log[i].obj == ObjectOf(owner, c.rule)
    ensures log[i].app == owner.app && log[i].hash == owner.hash && exists d :: d in calls && d.rule == c.rule
  {
    hide E.WellFormed;
    assert Owned(log[i], calls, owner);
    var d :| d in calls && log[i].obj == ObjectOf(owner, d.rule);
    assert d in calls + [c] && c in calls + [c];
  }

  /** The flow manager never breaks the alternation that the event log counts on. */
  lemma CallAllowed(log: seq<E.Entry>, calls: seq<Call>, c: Call, owner: Owner, lastId: nat)
    requires Follows(log, calls, owner) && Announced(calls + [c]) && Numbered(calls + [c], lastId)
    ensures E.MayAppend(log, c.kind, ObjectOf(owner, c.rule), owner.hash, owner.app)
  {
    hide E.WellFormed, Announced, Numbered, Owned;
    AnnouncedPrefix(calls, c);
    var obj := ObjectOf(owner, c.rule);
    forall i | 0 <= i < |log| && log[i].obj == obj
      ensures log[i].hash == owner.hash && log[i].app == owner.app && exists d :: d in calls && d.rule == c.rule
    {
      FollowedRule(log, calls, c, owner, lastId, i);
    }
    assert c == Call(c.kind, c.rule);
  }

  lemma CallOwned(log: seq<E.Entry>, log': seq<E.Entry>, calls: seq<Call>, c: Call, owner: Owner, id: nat)
    requires forall i :: 0 <= i < |log| ==> Owned(log[i], calls, owner)
    requires E.ExtendsByOne(log, log')
    requires log'[|log|].(brother := None) == E.Entry(id, c.kind, ObjectOf(owner, c.rule), owner.hash, owner.app, None)
    ensures forall i :: 0 <= i < |log'| ==> Owned(log'[i], calls + [c], owner)
  {
    forall i | 0 <= i < |log'| ensures Owned(log'[i], calls + [c], owner) {
      if i < |log| {
        assert Owned(log[i], calls, owner) && log'[i].(brother := None) == log[i].(brother := None);
        if log[i].app == owner.app || log[i].obj.owner == owner.app {
          var d :| d in calls && log[i].obj == ObjectOf(owner, d.rule);
          assert d in calls + [c];
        }
      } else {
        assert c in calls + [c];
      }
    }
  }

  lemma CallFollows(log: seq<E.Entry>, calls: seq<Call>, c: Call, owner: Owner, lastId: nat, id: nat)
    requires Follows(log, calls, owner) && Announced(calls + [c]) && Numbered(calls + [c], lastId)
    requires id >= 1 && forall i :: 0 <= i < |log| ==> log[i].id < id
    ensures c.kind == E.Delete ==> E.FindAdd(log, ObjectOf(owner, c.rule)) >= 0
    ensures Follows(Logged(log, c, owner, id), calls + [c], owner)
  {
    hide E.WellFormed, E.MayAppend, Announced, Owned, E.Live, E.FindAdd, E.Appended, E.ExtendsByOne;
    var obj := ObjectOf(owner, c.rule);
    CallAllowed(log, calls, c, owner, lastId);
    AnnouncedPrefix(calls, c);
    E.AppendWellFormed(log, c.kind, obj, owner.hash, owner.app, id);
    AppendedLooks(log, c.kind, obj, owner.hash, owner.app, id);
    var log' := Logged(log, c, owner, id);
    CallOwned(log, log', calls, c, owner, id);
    forall d | d in calls + [c]
      ensures E.Live(log', ObjectOf(owner, d.rule)) <==> Added(calls + [c], d.rule) && !Deleted(calls + [c], d.rule)
    {
      AppendedLive(log, c.kind, obj, owner.hash, owner.app, id, ObjectOf(owner, d.rule));
      assert ObjectOf(owner, d.rule) == obj ==> d.rule == c.rule;
      assert forall x :: x in calls + [c] <==> x in calls || x == c;
      if d.rule == c.rule && c.kind == E.Add && Deleted(calls, c.rule) {
        DeletedWasAdded(calls, c.rule);
        assert false;
      }
    }
  }

  lemma DeletedWasAdded(calls: seq<Call>, r: Rule)
    requires Announced(calls) && Deleted(calls, r)
    ensures Added(calls, r)
  {
    var j :| 0 <= j < |calls| && calls[j] == Call(E.Delete, r);
    assert Added(calls[..j], r);
  }

  // ---------- the calls of one step ----------

  lemma FirstCalls(calls: seq<Call>, more: seq<Call>, lastId: nat)
    requires more != [] && Announced(calls + more) && Numbered(calls + more, lastId)
    ensures Announced(calls + [more[0]]) && Numbered(calls + [more[0]], lastId)
    ensures calls + [more[0]] + more[1..] == calls + more
  {
    var some, all := calls + [more[0]], calls + more;
    assert all == some + more[1..];
    assert forall i :: 0 <= i < |some| ==> some[i] == all[i] && some[..i] == all[..i];
    assert forall c :: c in some ==> c in all;
  }

  lemma LoggedWatched(log: seq<E.Entry>, kind: E.Kind, obj: E.Object, hash: bv32, app': string, lastEvent: nat, id: nat,
                      mask: bv32, app: string, last: nat, objects: set<E.Object>)
    requires E.WellFormed(log) && Watched(log, lastEvent, mask, app, last, objects) && id > lastEvent
    requires E.MayAppend(log, kind, obj, hash, app') && (kind == E.Delete ==> E.FindAdd(log, obj) >= 0)
    ensures Watched(E.Appended(log, kind, obj, hash, app', id), id, mask, app, last, objects)
  {
    hide E.WellFormed, E.MayAppend, E.Behind, E.KnownLast, E.Appended, E.FindAdd;
    E.LoggedKeepsBehind(log, kind, obj, hash, app', id, mask, app, last, objects);
    AppendedLooks(log, kind, obj, hash, app', id);
    var log' := E.Appended(log, kind, obj, hash, app', id);
    assert forall i :: 0 <= i < |log| ==> log'[i].(brother := None) == log[i].(brother := None);
  }

  /** Logging the calls of one step, each Delete finding its Add. */
  lemma {:induction false} EmittedFollows(log: seq<E.Entry>, calls: seq<Call>, more: seq<Call>, owner: Owner,
                                          lastId: nat,
                                          lastEvent: nat, mask: bv32, last: nat, objects: set<E.Object>)
    requires Follows(log, calls, owner) && Announced(calls + more) && Numbered(calls + more, lastId)
    requires Watched(log, lastEvent, mask, owner.app, last, objects)
    ensures var log' := Emitted(log, more, owner, lastEvent);
            Follows(log', calls + more, owner) && Watched(log', lastEvent + |more|, mask, owner.app, last, objects)
    decreases |more|
  {
    hide E.WellFormed, E.MayAppend, Announced, Numbered, Owned, E.Live, E.FindAdd, E.Appended, E.Behind, E.KnownLast;
    if more == [] {
      assert calls + more == calls;
    } else {
      var c, id := more[0], lastEvent + 1;
      FirstCalls(calls, more, lastId);
      CallAllowed(log, calls, c, owner, lastId);
      CallFollows(log, calls, c, owner, lastId, id);
      LoggedWatched(log, c.kind, ObjectOf(owner, c.rule), owner.hash, owner.app, lastEvent, id, mask, owner.app, last,
                    objects);
      EmittedFollows(Logged(log, c, owner, id), calls + [c], more[1..], owner, lastId, id, mask, last, objects);
    }
  }

  // ---------- runs ----------

  /** The flow manager, the event log with the last event id given out, and a client of the log. */
  datatype World = World(rules: map<nat, seq<Rule>>, calls: seq<Call>, lastRule: nat,
                         log: seq<E.Entry>, lastEvent: nat, last: nat, objects: set<E.Object>)

  /** updateSwitchRules with the rules that it creates, cleanSwitchRules, an event of another application,
      or a poll of the client. */
  datatype Action =
    | Updated(dp: nat, flows: seq<FlowStats>, added: seq<Rule>)
    | Cleaned(dp: nat)
    | Other(kind: E.Kind, obj: E.Object, hash: bv32, app: string, id: nat)
    | Polled

  /** The switch's rules become the given ones, some are deleted and some added. */
  function Reconcile(w: World, dp: nat, kept: seq<Rule>, gone: seq<Rule>, added: seq<Rule>, owner: Owner): World {
    var more := Calls(E.Delete, gone) + Calls(E.Add, added);
    w.(rules := w.rules[dp := kept + added], calls := Reconciled(w.calls, gone, added),
       lastRule := w.lastRule + |added|,
       log := Emitted(w.log, more, owner, w.lastEvent), lastEvent := w.lastEvent + |more|)
  }

  function Step(w: World, a: Action, owner: Owner, mask: bv32): World {
    match a
    case Updated(dp, flows, added) =>
      var m := Match(At(w.rules, dp), flows);
      Reconcile(w, dp, m.kept, m.gone, added, owner)
    case Cleaned(dp) => Reconcile(w, dp, [], At(w.rules, dp), [], owner)
    case Other(kind, obj, hash, app, id) =>
      if kind == E.Delete && E.FindAdd(w.log, obj) < 0 then w
      else w.(log := E.Appended(w.log, kind, obj, hash, app, id), lastEvent := id)
    case Polled =>
      w.(last := E.NewLast(w.log, mask, w.last),
         objects := E.Apply(w.objects, E.Reports(w.log, mask, owner.app, w.last)))
  }

  /** Each reported flow left over gets a rule, with the next number; other applications log events of
      their own objects, under fresh ids, and in turn for each object. */
  ghost predicate Allowed(w: World, a: Action, owner: Owner) {
    match a
    case Updated(dp, flows, added) =>
      var rest := Match(At(w.rules, dp), flows).rest;
      Fresh(added, dp, w.lastRule) && |added| == |rest| && forall i :: 0 <= i < |rest| ==> added[i].flow == rest[i]
    case Other(kind, obj, hash, app, id) =>
      app != owner.app && obj.owner != owner.app && id > w.lastEvent && E.MayAppend(w.log, kind, obj, hash, app)
    case _ => true
  }

  ghost predicate IsRun(ws: seq<World>, actions: seq<Action>, owner: Owner, mask: bv32) {
    && |ws| == |actions| + 1 && ws[0] == World(map[], [], 0, [], 0, 0, {})
    && forall i :: 0 <= i < |actions| ==>
       Allowed(ws[i], actions[i], owner) && ws[i + 1] == Step(ws[i], actions[i], owner, mask)
  }

  ghost predicate Sound(w: World, owner: Owner, mask: bv32) {
    && Kept(w.rules, w.calls, w.lastRule) && Follows(w.log, w.calls, owner)
    && Watched(w.log, w.lastEvent, mask, owner.app, w.last, w.objects)
  }

  lemma ReconcileSound(w: World, dp: nat, kept: seq<Rule>, gone: seq<Rule>, added: seq<Rule>, owner: Owner, mask: bv32)
    requires Sound(w, owner, mask) && Fresh(added, dp, w.lastRule) && Splits(At(w.rules, dp), kept, gone)
    ensures Sound(Reconcile(w, dp, kept, gone, added, owner), owner, mask)
  {
    hide Follows, Watched, Announced, Numbered, Books, Calls, Emitted, Fresh, Splits, At;
    var more := Calls(E.Delete, gone) + Calls(E.Add, added);
    ReconciledKept(w.rules, w.calls, w.lastRule, dp, kept, gone, added);
    assert Reconciled(w.calls, gone, added) == w.calls + more;
    EmittedFollows(w.log, w.calls, more, owner, w.lastRule + |added|, w.lastEvent, mask, w.last, w.objects);
  }

  lemma OtherSound(w: World, a: Action, owner: Owner, mask: bv32)
    requires Sound(w, owner, mask) && a.Other? && Allowed(w, a, owner)
    ensures Sound(Step(w, a, owner, mask), owner, mask)
  {
    hide E.WellFormed, E.MayAppend, Kept, E.Live, E.FindAdd, E.Appended, Watched, E.ExtendsByOne;
    var Other(kind, obj, hash, app, id) := a;
    assert forall i :: 0 <= i < |w.log| ==> w.log[i].id < id by { WatchedIds(w, owner, mask); }
    E.AppendWellFormed(w.log, kind, obj, hash, app, id);
    AppendedLooks(w.log, kind, obj, hash, app, id);
    LoggedWatched(w.log, kind, obj, hash, app, w.lastEvent, id, mask, owner.app, w.last, w.objects);
    var log' := E.Appended(w.log, kind, obj, hash, app, id);
    forall c | c in w.calls ensures E.Live(log', ObjectOf(owner, c.rule)) <==> E.Live(w.log, ObjectOf(owner, c.rule)) {
      AppendedLive(w.log, kind, obj, hash, app, id, ObjectOf(owner, c.rule));
    }
    OtherOwned(w.log, log', w.calls, owner);
  }

  lemma WatchedIds(w: World, owner: Owner, mask: bv32)
    requires Watched(w.log, w.lastEvent, mask, owner.app, w.last, w.objects)
    ensures forall i :: 0 <= i < |w.log| ==> w.log[i].id <= w.lastEvent
  {
  }

  lemma OtherOwned(log: seq<E.Entry>, log': seq<E.Entry>, calls: seq<Call>, owner: Owner)
    requires (forall i :: 0 <= i < |log| ==> Owned(log[i], calls, owner)) && E.ExtendsByOne(log, log')
    requires log'[|log|].app != owner.app && log'[|log|].obj.owner != owner.app
    ensures forall i :: 0 <= i < |log'| ==> Owned(log'[i], calls, owner)
  {
    forall i | 0 <= i < |log'| ensures Owned(log'[i], calls, owner) {
      if i < |log| {
        assert Owned(log[i], calls, owner) && log'[i].(brother := None) == log[i].(brother := None);
      }
    }
  }

  lemma PolledSound(w: World, owner: Owner, mask: bv32)
    requires Sound(w, owner, mask)
    ensures Sound(Step(w, Polled, owner, mask), owner, mask)
  {
    hide E.WellFormed, E.Behind, E.KnownLast, Kept, E.Live, Owned, E.Apply, E.Reports;
    E.PollSynchronises(w.log, mask, owner.app, w.last, w.objects);
    E.NewLastKnown(w.log, mask, w.last);
  }

  lemma StepSound(w: World, a: Action, owner: Owner, mask: bv32)
    requires Sound(w, owner, mask) && Allowed(w, a, owner)
    ensures Sound(Step(w, a, owner, mask), owner, mask)
  {
    hide Sound, Match, Reconcile;
    match a
    case Updated(dp, flows, added) =>
      StoredUnique(w, owner, mask, dp);
      MatchSplits(At(w.rules, dp), flows);
      ReconcileSound(w, dp, Match(At(w.rules, dp), flows).kept, Match(At(w.rules, dp), flows).gone, added, owner, mask);
    case Cleaned(dp) =>
      StoredUnique(w, owner, mask, dp);
      ReconcileSound(w, dp, [], At(w.rules, dp), [], owner, mask);
    case Other(_, _, _, _, _) => OtherSound(w, a, owner, mask);
    case Polled => PolledSound(w, owner, mask);
  }

  lemma StoredUnique(w: World, owner: Owner, mask: bv32, dp: nat)
    requires Sound(w, owner, mask)
    ensures Unique(At(w.rules, dp))
  {
    StoredAlive(w.rules, w.calls, w.lastRule, dp);
  }

  lemma {:induction false} RunSound(ws: seq<World>, actions: seq<Action>, owner: Owner, mask: bv32)
    requires IsRun(ws, actions, owner, mask)
    ensures Sound(ws[|actions|], owner, mask)
    decreases |actions|
  {
    if actions != [] {
      hide Sound, Step, Allowed;
      var n := |actions| - 1;
      RunSound(ws[..n + 1], actions[..n], owner, mask);
      assert Allowed(ws[n], actions[n], owner) && ws[n + 1] == Step(ws[n], actions[n], owner, mask);
      StepSound(ws[n], actions[n], owner, mask);
    }
  }

  /** The objects of the rules stored for any switch. */
  ghost function StoredObjects(rules: map<nat, seq<Rule>>, owner: Owner): set<E.Object> {
    set dp, r | dp in rules && r in rules[dp] :: ObjectOf(owner, r)
  }

  /** In any interleaving of reconciliations, switches going down, events of other applications and polls,
      a client that selects the application holds exactly the stored rules after each of its polls. */
  lemma ClientSeesRules(ws: seq<World>, actions: seq<Action>, owner: Owner, mask: bv32, i: nat)
    requires IsRun(ws, actions, owner, mask) && E.Masked(owner.hash, mask)
    requires i < |actions| && actions[i] == Polled
    ensures ws[i + 1].objects == StoredObjects(ws[i + 1].rules, owner)
  {
    hide Sound, Step, Allowed, StoredObjects, E.Masked;
    assert IsRun(ws[..i + 1], actions[..i], owner, mask);
    RunSound(ws[..i + 1], actions[..i], owner, mask);
    assert ws[i + 1] == Step(ws[i], actions[i], owner, mask);
    PollShowsStored(ws[i], owner, mask);
  }

  lemma PollShowsStored(w: World, owner: Owner, mask: bv32)
    requires Sound(w, owner, mask) && E.Masked(owner.hash, mask)
    ensures var w' := Step(w, Polled, owner, mask); w'.objects == StoredObjects(w'.rules, owner)
  {
    hide E.WellFormed, E.Behind, E.KnownLast, E.Live, E.Apply, E.Reports, E.Masked, StoredObjects, Kept;
    E.PollSynchronises(w.log, mask, owner.app, w.last, w.objects);
    forall o: E.Object ensures E.LiveObject(w.log, mask, owner.app, o) <==> o in StoredObjects(w.rules, owner) {
      StoredIsLive(w.log, w.rules, w.calls, w.lastRule, owner, mask, o);
    }
  }

  lemma StoredIsLive(log: seq<E.Entry>, rules: map<nat, seq<Rule>>, calls: seq<Call>, lastId: nat, owner: Owner,
                     mask: bv32,
                     o: E.Object)
    requires Follows(log, calls, owner) && Kept(rules, calls, lastId) && E.Masked(owner.hash, mask)
    ensures E.LiveObject(log, mask, owner.app, o) <==> o in StoredObjects(rules, owner)
  {
    hide E.WellFormed, Announced, Numbered, E.Masked;
    if E.LiveObject(log, mask, owner.app, o) {
      assert Owned(log[E.LastOf(log, o)], calls, owner);
      var c :| c in calls && o == ObjectOf(owner, c.rule);
      assert c.rule in At(rules, c.rule.switchId);
    }
    if o in StoredObjects(rules, owner) {
      var dp, r :| dp in rules && r in rules[dp] && ObjectOf(owner, r) == o;
      assert Call(E.Add, r) in calls;
      assert E.Live(log, ObjectOf(owner, Call(E.Add, r).rule));
      assert Owned(log[E.LastOf(log, o)], calls, owner);
    }
  }
}
