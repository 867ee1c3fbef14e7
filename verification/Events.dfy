/** The REST event log (src/Event.cc): clients poll it for what happened since the last event they know,
    and an Add that has been followed by its Delete is not reported to those who never saw it. */
module Events {
  import opened Wrappers

  datatype Kind = Add | Delete | Change

  /** An object of an application, with the number that the application gives it. */
  datatype Object = Object(owner: string, id: nat)

  /** An event as it stands in the log. The brother of a Delete is the Add it takes back, and vice versa. */
  datatype Entry = Entry(id: nat, kind: Kind, obj: Object, hash: bv32, app: string, brother: Option<nat>)

  /** What to_json tells a client. */
  datatype Report = Report(id: nat, kind: Kind, obj: Object)

  function ReportOf(e: Entry): Report {
    Report(e.id, e.kind, e.obj)
  }

  // ---------- the operations on values ----------

  /** The last Add of the object. */
  function FindAdd(log: seq<Entry>, obj: Object): (i: int)
    ensures -1 <= i < |log|
    ensures i >= 0 ==> log[i].kind == Add && log[i].obj == obj
    ensures forall j :: i < j < |log| ==> !(log[j].kind == Add && log[j].obj == obj)
  {
    if log == [] then -1
    else if log[|log| - 1].kind == Add && log[|log| - 1].obj == obj then |log| - 1
    else FindAdd(log[..|log| - 1], obj)
  }

  function Appended(log: seq<Entry>, kind: Kind, obj: Object, hash: bv32, app: string, id: nat): seq<Entry>
    requires kind == Delete ==> FindAdd(log, obj) >= 0
  {
    if kind == Delete then
      var i := FindAdd(log, obj);
      log[i := log[i].(brother := Some(id))] + [Entry(id, kind, obj, hash, app, Some(log[i].id))]
    else log + [Entry(id, kind, obj, hash, app, None)]
  }

  /** checkOverlap: the event need not be told to a client that knows everything up to last. */
  predicate Overlaps(e: Entry, last: nat) {
    match e.kind
    case Add => e.brother.Some?
    case Delete => e.brother.Some? && e.brother.value > last
    case Change => false
  }

  predicate Masked(hash: bv32, mask: bv32) {
    hash & mask != 0
  }

  predicate Reported(e: Entry, mask: bv32, last: nat) {
    Masked(e.hash, mask) && e.id > last && !Overlaps(e, last)
  }

  function Reports(log: seq<Entry>, mask: bv32, app: string, last: nat): seq<Report> {
    if log == [] then []
    else
      var e := log[|log| - 1];
      Reports(log[..|log| - 1], mask, app, last) + if e.app == app && Reported(e, mask, last) then [ReportOf(e)] else []
  }

  /** The highest id reported, or last. */
  function NewLast(log: seq<Entry>, mask: bv32, last: nat): (l: nat)
    ensures l >= last
  {
    if log == [] then last
    else
      var l := NewLast(log[..|log| - 1], mask, last);
      var e := log[|log| - 1];
      if Reported(e, mask, last) && e.id > l then e.id else l
  }

  /** A client applies the reports of one application in order. */
  function Apply(objects: set<Object>, reports: seq<Report>): set<Object> {
    if reports == [] then objects
    else
      var before, r := Apply(objects, reports[..|reports| - 1]), reports[|reports| - 1];
      match r.kind
      case Add => before + {r.obj}
      case Delete => before - {r.obj}
      case Change => before
  }

  // ---------- well-formed logs ----------

  /** The last Add or Delete of the object. */
  function LastOf(log: seq<Entry>, obj: Object): (i: int)
    ensures -1 <= i < |log|
    ensures i >= 0 ==> log[i].kind != Change && log[i].obj == obj
    ensures forall j :: i < j < |log| ==> !(log[j].kind != Change && log[j].obj == obj)
  {
    if log == [] then -1
    else if log[|log| - 1].kind != Change && log[|log| - 1].obj == obj then |log| - 1
    else LastOf(log[..|log| - 1], obj)
  }

  predicate Live(log: seq<Entry>, obj: Object) {
    var i := LastOf(log, obj);
    i >= 0 && log[i].kind == Add
  }

  /** An object's events belong to one application. */
  predicate Home(log: seq<Entry>, obj: Object, hash: bv32, app: string) {
    forall i :: 0 <= i < |log| && log[i].obj == obj ==> log[i].hash == hash && log[i].app == app
  }

  /** Each object's events alternate Add, Delete, starting with Add. */
  predicate MayAppend(log: seq<Entry>, kind: Kind, obj: Object, hash: bv32, app: string) {
    && (kind == Add ==> !Live(log, obj))
    && (kind == Delete ==> Live(log, obj))
    && Home(log, obj, hash, app)
  }

  predicate Quiet(log: seq<Entry>, i: int, j: int, obj: Object)
    requires -1 <= i && j <= |log|
  {
    forall k :: i < k < j ==> !(log[k].kind != Change && log[k].obj == obj)
  }

  /** The Add at i and the Delete at j are brothers. */
  predicate Brothers(log: seq<Entry>, i: int, j: int)
    requires 0 <= i < j < |log|
  {
    && log[i].kind == Add && log[j].kind == Delete && log[i].obj == log[j].obj
    && log[i].brother == Some(log[j].id) && log[j].brother == Some(log[i].id)
    && Quiet(log, i, j, log[i].obj)
  }

  ghost predicate Increasing(log: seq<Entry>) {
    && (forall i :: 0 <= i < |log| ==> log[i].id >= 1)
    && forall i, j :: 0 <= i < j < |log| ==> log[i].id < log[j].id
  }

  ghost predicate DeletesPaired(log: seq<Entry>) {
    forall j :: 0 <= j < |log| && log[j].kind == Delete ==> exists i :: 0 <= i < j && Brothers(log, i, j)
  }

  ghost predicate AddsPaired(log: seq<Entry>) {
    forall i :: 0 <= i < |log| && log[i].kind == Add ==>
      if log[i].brother.Some? then exists j :: i < j < |log| && Brothers(log, i, j)
      else Quiet(log, i, |log|, log[i].obj)
  }

  ghost predicate Alternates(log: seq<Entry>) {
    forall i :: 0 <= i < |log| && log[i].kind == Add ==> !Live(log[..i], log[i].obj)
  }

  ghost predicate Homes(log: seq<Entry>) {
    forall i, j :: 0 <= i < |log| && 0 <= j < |log| && log[i].obj == log[j].obj ==>
      log[i].hash == log[j].hash && log[i].app == log[j].app
  }

  ghost predicate WellFormed(log: seq<Entry>) {
    Increasing(log) && DeletesPaired(log) && AddsPaired(log) && Alternates(log) && Homes(log)
  }

  lemma LastOfUnique(log: seq<Entry>, obj: Object, i: int)
    requires -1 <= i < |log| && (i >= 0 ==> log[i].kind != Change && log[i].obj == obj) && Quiet(log, i, |log|, obj)
    ensures LastOf(log, obj) == i
  {
  }

  lemma SameLive(a: seq<Entry>, b: seq<Entry>, obj: Object)
    requires |a| == |b| && forall i :: 0 <= i < |a| ==> a[i].kind == b[i].kind && a[i].obj == b[i].obj
    ensures LastOf(a, obj) == LastOf(b, obj) && (Live(a, obj) <==> Live(b, obj))
  {
    LastOfUnique(b, obj, LastOf(a, obj));
  }

  /** A live object's last Add is what findBrother finds, and it has no brother yet. */
  lemma LiveAdd(log: seq<Entry>, obj: Object)
    requires AddsPaired(log) && Live(log, obj)
    ensures FindAdd(log, obj) == LastOf(log, obj) && log[LastOf(log, obj)].brother.None?
  {
    var a := LastOf(log, obj);
    assert FindAdd(log, obj) >= a;
  }

  lemma AppendOther(log: seq<Entry>, e: Entry)
    requires WellFormed(log) && e.kind != Delete && e.brother.None?
    requires MayAppend(log, e.kind, e.obj, e.hash, e.app) && e.id >= 1
             && forall i :: 0 <= i < |log| ==> log[i].id < e.id
    ensures WellFormed(log + [e])
  {
    hide DeletesPaired, AddsPaired;
    var log' := log + [e];
    OtherPaired(log, e);
    forall i | 0 <= i < |log'| && log'[i].kind == Add ensures !Live(log'[..i], log'[i].obj) {
      assert log'[..i] == log[..i];
    }
  }

  lemma OtherPaired(log: seq<Entry>, e: Entry)
    requires DeletesPaired(log) && AddsPaired(log) && e.kind != Delete && e.brother.None?
             && (e.kind == Add ==> !Live(log, e.obj))
    ensures DeletesPaired(log + [e]) && AddsPaired(log + [e])
  {
    var log' := log + [e];
    forall i, j | 0 <= i < j < |log| && Brothers(log, i, j) ensures Brothers(log', i, j) { }
    forall i | 0 <= i < |log| && log[i].kind == Add && log[i].brother.None? ensures Quiet(log', i, |log'|, log[i].obj) {
      if e.kind == Add && e.obj == log[i].obj {
        LastOfUnique(log, e.obj, i);
      }
    }
  }

  /** log' is log with a Delete of its live object appended, the Add at a being the brother. */
  ghost predicate Deleting(log: seq<Entry>, log': seq<Entry>, a: int, e: Entry) {
    && WellFormed(log) && MayAppend(log, Delete, e.obj, e.hash, e.app) && a == LastOf(log, e.obj)
    && e.kind == Delete && e.brother == Some(log[a].id) && log[a].brother.None?
    && e.id >= 1 && (forall i :: 0 <= i < |log| ==> log[i].id < e.id)
    && log' == log[a := log[a].(brother := Some(e.id))] + [e]
  }

  lemma DeleteBrothers(log: seq<Entry>, log': seq<Entry>, a: int, e: Entry, i: int, j: int)
    requires Deleting(log, log', a, e) && 0 <= i < j < |log| && Brothers(log, i, j)
    ensures Brothers(log', i, j)
  {
    hide DeletesPaired, AddsPaired, Alternates, Homes, Increasing;
    assert i != a && j != a;
  }

  lemma DeleteDeletes(log: seq<Entry>, log': seq<Entry>, a: int, e: Entry)
    requires Deleting(log, log', a, e)
    ensures DeletesPaired(log')
  {
    forall j | 0 <= j < |log'| && log'[j].kind == Delete ensures exists i :: 0 <= i < j && Brothers(log', i, j) {
      if j == |log| {
        assert Brothers(log', a, j);
      } else {
        var i :| 0 <= i < j && Brothers(log, i, j);
        DeleteBrothers(log, log', a, e, i, j);
      }
    }
  }

  lemma DeleteAdds(log: seq<Entry>, log': seq<Entry>, a: int, e: Entry)
    requires Deleting(log, log', a, e)
    ensures AddsPaired(log')
  {
    hide Deleting, Brothers, Quiet;
    forall i | 0 <= i < |log'| && log'[i].kind == Add
      ensures if log'[i].brother.Some? then exists j :: i < j < |log'| && Brothers(log', i, j)
              else Quiet(log', i, |log'|, log'[i].obj)
    {
      DeleteAdd(log, log', a, e, i);
    }
  }

  lemma DeleteAdd(log: seq<Entry>, log': seq<Entry>, a: int, e: Entry, i: nat)
    requires Deleting(log, log', a, e) && i < |log'| && log'[i].kind == Add
    ensures if log'[i].brother.Some? then exists j :: i < j < |log'| && Brothers(log', i, j)
            else Quiet(log', i, |log'|, log'[i].obj)
  {
    hide DeletesPaired, Alternates, Homes, Increasing;
    if i == a {
      assert Brothers(log', a, |log|);
    } else if log[i].brother.Some? {
      var j :| i < j < |log| && Brothers(log, i, j);
      DeleteBrothers(log, log', a, e, i, j);
    } else if log[i].obj == e.obj {
      LastOfUnique(log, e.obj, i);
    }
  }

  lemma AppendDelete(log: seq<Entry>, log': seq<Entry>, a: int, e: Entry)
    requires Deleting(log, log', a, e)
    ensures WellFormed(log')
  {
    hide DeletesPaired, AddsPaired;
    DeleteDeletes(log, log', a, e);
    DeleteAdds(log, log', a, e);
    forall i | 0 <= i < |log'| && log'[i].kind == Add ensures !Live(log'[..i], log'[i].obj) {
      SameLive(log[..i], log'[..i], log[i].obj);
    }
    assert Homes(log');
    assert Increasing(log');
  }

  /** log' extends log by one event, up to brothers. */
  predicate ExtendsByOne(log: seq<Entry>, log': seq<Entry>) {
    && |log'| == |log| + 1
    && forall i :: 0 <= i < |log| ==> log'[i].(brother := None) == log[i].(brother := None)
  }

  /** Appending an event that continues its object's alternation keeps the log well formed; findBrother
      finds the Add that made the object live. */
  lemma AppendWellFormed(log: seq<Entry>, kind: Kind, obj: Object, hash: bv32, app: string, id: nat)
    requires WellFormed(log) && MayAppend(log, kind, obj, hash, app)
    requires id >= 1 && forall i :: 0 <= i < |log| ==> log[i].id < id
    ensures kind == Delete ==> FindAdd(log, obj) >= 0
    ensures var log' := Appended(log, kind, obj, hash, app, id);
            && WellFormed(log') && ExtendsByOne(log, log')
            && log'[|log|].(brother := None) == Entry(id, kind, obj, hash, app, None)
            && forall i | 0 <= i < |log| :: log'[i] == log[i] || (kind == Delete && i == LastOf(log, obj))
  {
    if kind == Delete {
      LiveAdd(log, obj);
      var a := LastOf(log, obj);
      AppendDelete(log, Appended(log, kind, obj, hash, app, id), a, Entry(id, Delete, obj, hash, app, Some(log[a].id)));
    } else {
      AppendOther(log, Entry(id, kind, obj, hash, app, None));
    }
  }

  // ---------- the client ----------

  /** The part of the log up to the given id. */
  function UpTo(log: seq<Entry>, last: nat): seq<Entry> {
    if log == [] || log[|log| - 1].id <= last then log else UpTo(log[..|log| - 1], last)
  }

  predicate Selected(e: Entry, mask: bv32, app: string) {
    Masked(e.hash, mask) && e.app == app
  }

  /** The objects of the application that are live, among the applications that the mask selects. */
  predicate LiveObject(log: seq<Entry>, mask: bv32, app: string, obj: Object) {
    var i := LastOf(log, obj);
    i >= 0 && log[i].kind == Add && Selected(log[i], mask, app)
  }

  /** What a client who last heard of event last, and holds objects, may still be wrong about: objects
      that were live at last and have been deleted since. */
  ghost predicate Behind(log: seq<Entry>, mask: bv32, app: string, last: nat, objects: set<Object>) {
    && (forall o: Object :: o in objects ==> LiveObject(UpTo(log, last), mask, app, o))
    && (forall o: Object :: LiveObject(UpTo(log, last), mask, app, o) && o !in objects ==>
        LastOf(log, o) >= |UpTo(log, last)|)
  }

  lemma {:induction false} UpToPrefix(log: seq<Entry>, last: nat)
    requires Increasing(log)
    ensures |UpTo(log, last)| <= |log| && UpTo(log, last) == log[..|UpTo(log, last)|]
    ensures forall i :: 0 <= i < |log| ==> (i < |UpTo(log, last)| <==> log[i].id <= last)
  {
    if log != [] && log[|log| - 1].id > last {
      UpToPrefix(log[..|log| - 1], last);
    }
  }

  lemma LastOfPrefix(log: seq<Entry>, n: nat, obj: Object)
    requires n <= |log|
    ensures LastOf(log, obj) < n ==> LastOf(log[..n], obj) == LastOf(log, obj)
  {
    if LastOf(log, obj) < n {
      LastOfUnique(log[..n], obj, LastOf(log, obj));
    }
  }

  /** The membership that following the log up to n should give. */
  predicate Expected(log: seq<Entry>, n: nat, mask: bv32, app: string, last: nat, objects: set<Object>, o: Object)
    requires n <= |log|
  {
    var i := LastOf(log[..n], o);
    if i >= 0 && log[i].id > last && Selected(log[i], mask, app)
      then log[i].kind == Add && log[i].brother.None? else o in objects
  }

  lemma ApplyStep(log: seq<Entry>, n: nat, mask: bv32, app: string, last: nat, objects: set<Object>)
    requires 0 < n <= |log|
    ensures var e := log[n - 1];
            var before := Apply(objects, Reports(log[..n - 1], mask, app, last));
            Apply(objects, Reports(log[..n], mask, app, last)) ==
            if !(e.app == app && Reported(e, mask, last)) || e.kind == Change then before
            else if e.kind == Add then before + {e.obj} else before - {e.obj}
  {
    assert log[..n][..n - 1] == log[..n - 1] && log[..n][n - 1] == log[n - 1];
    var rs, r := Reports(log[..n - 1], mask, app, last), ReportOf(log[n - 1]);
    assert (rs + [r])[..|rs|] == rs && rs + [] == rs;
  }

  /** An Add follows nothing, or a Delete: if that was before last, the client does not hold the object. */
  lemma BeforeAdd(log: seq<Entry>, n: nat, mask: bv32, app: string, last: nat, objects: set<Object>)
    requires WellFormed(log) && Behind(log, mask, app, last, objects) && 0 < n <= |log|
    requires log[n - 1].kind == Add && log[n - 1].id > last && Selected(log[n - 1], mask, app)
    ensures !Expected(log, n - 1, mask, app, last, objects, log[n - 1].obj)
  {
    hide DeletesPaired, AddsPaired, Masked;
    var o := log[n - 1].obj;
    var i := LastOf(log[..n - 1], o);
    assert !Live(log[..n - 1], o);
    if i < 0 || log[i].id <= last {
      UpToPrefix(log, last);
      var u := |UpTo(log, last)|;
      assert log[..n - 1][..u] == log[..u];
      LastOfPrefix(log[..n - 1], u, o);
    } else {
      assert log[i].obj == o;
    }
  }

  /** A Delete not reported takes back an Add that was not reported either. */
  lemma BeforeDelete(log: seq<Entry>, n: nat, mask: bv32, app: string, last: nat, objects: set<Object>)
    requires WellFormed(log) && 0 < n <= |log|
    requires log[n - 1].kind == Delete && log[n - 1].id > last && Selected(log[n - 1], mask, app)
             && Overlaps(log[n - 1], last)
    ensures !Expected(log, n - 1, mask, app, last, objects, log[n - 1].obj)
  {
    hide AddsPaired, Alternates, Masked;
    var i :| 0 <= i < n - 1 && Brothers(log, i, n - 1);
    LastOfUnique(log[..n - 1], log[n - 1].obj, i);
  }

  lemma OtherObject(log: seq<Entry>, n: nat, mask: bv32, app: string, last: nat, objects: set<Object>, o: Object)
    requires 0 < n <= |log| && (log[n - 1].obj != o || log[n - 1].kind == Change)
    ensures Expected(log, n, mask, app, last, objects, o) <==> Expected(log, n - 1, mask, app, last, objects, o)
  {
    var i := LastOf(log[..n - 1], o);
    assert log[..n][..n - 1] == log[..n - 1] && log[..n][n - 1] == log[n - 1];
  }

  lemma Unreported(log: seq<Entry>, n: nat, mask: bv32, app: string, last: nat, objects: set<Object>)
    requires WellFormed(log) && 0 < n <= |log| && log[n - 1].kind != Change
    requires log[n - 1].id <= last || !Selected(log[n - 1], mask, app)
    ensures Expected(log, n, mask, app, last, objects, log[n - 1].obj) <==>
            Expected(log, n - 1, mask, app, last, objects, log[n - 1].obj)
  {
    hide Alternates, AddsPaired, DeletesPaired;
    var e := log[n - 1];
    var i := LastOf(log[..n - 1], e.obj);
    assert log[..n][n - 1] == e;
    LastOfUnique(log[..n], e.obj, n - 1);
    if i >= 0 {
      assert log[i].obj == e.obj && log[i].id < e.id;
      assert Selected(log[i], mask, app) <==> Selected(e, mask, app);
    }
  }

  lemma FollowedNothing(log: seq<Entry>, mask: bv32, app: string, last: nat, objects: set<Object>, o: Object)
    ensures o in Apply(objects, Reports(log[..0], mask, app, last)) <==> Expected(log, 0, mask, app, last, objects, o)
  {
  }

  /** Following a prefix of the log: an object is held if it was, or by its last event after last. */
  lemma {:induction false} Followed(log: seq<Entry>, n: nat, mask: bv32, app: string, last: nat, objects: set<Object>,
                                    o: Object)
    requires WellFormed(log) && n <= |log| && Behind(log, mask, app, last, objects)
    ensures o in Apply(objects, Reports(log[..n], mask, app, last)) <==> Expected(log, n, mask, app, last, objects, o)
  {
    hide Apply, Reports, Masked, Alternates, AddsPaired;
    FollowedNothing(log, mask, app, last, objects, o);
    if n > 0 {
      var e := log[n - 1];
      Followed(log, n - 1, mask, app, last, objects, o);
      ApplyStep(log, n, mask, app, last, objects);
      if e.obj != o || e.kind == Change {
        OtherObject(log, n, mask, app, last, objects, o);
      } else if e.id <= last || !Selected(e, mask, app) {
        Unreported(log, n, mask, app, last, objects);
      } else {
        LastOfUnique(log[..n], o, n - 1);
        if e.kind == Add {
          BeforeAdd(log, n, mask, app, last, objects);
        } else {
          var i :| 0 <= i < n - 1 && Brothers(log, i, n - 1);
          if Overlaps(e, last) { BeforeDelete(log, n, mask, app, last, objects); }
        }
      }
    }
  }

  /** Over the whole log, what is expected is exactly the live objects. */
  lemma ExpectedLive(log: seq<Entry>, mask: bv32, app: string, last: nat, objects: set<Object>, o: Object)
    requires WellFormed(log) && Behind(log, mask, app, last, objects)
    ensures Expected(log, |log|, mask, app, last, objects, o) <==> LiveObject(log, mask, app, o)
  {
    var i := LastOf(log, o);
    assert log[..|log|] == log;
    UpToPrefix(log, last);
    var before := UpTo(log, last);
    if i >= 0 && log[i].id > last {
      if Selected(log[i], mask, app) {
        if log[i].kind == Add && log[i].brother.Some? {
          LiveAdd(log, o);
        }
      } else {
        var j := LastOf(before, o);
        if j >= 0 { assert log[j].obj == o && log[j] == before[j]; }
      }
    } else {
      LastOfPrefix(log, |before|, o);
    }
  }

  lemma {:induction false} NewLastCovers(log: seq<Entry>, mask: bv32, last: nat)
    ensures forall i :: 0 <= i < |log| && Reported(log[i], mask, last) ==> log[i].id <= NewLast(log, mask, last)
  {
    if log != [] {
      NewLastCovers(log[..|log| - 1], mask, last);
      assert forall i :: 0 <= i < |log| - 1 ==> log[i] == log[..|log| - 1][i];
    }
  }

  /** A poll brings the client exactly up to date, and keeps it no more than deletions behind. */
  lemma PollSynchronises(log: seq<Entry>, mask: bv32, app: string, last: nat, objects: set<Object>)
    requires WellFormed(log) && Behind(log, mask, app, last, objects)
    ensures forall o: Object :: o in Apply(objects, Reports(log, mask, app, last)) <==> LiveObject(log, mask, app, o)
    ensures Behind(log, mask, app, NewLast(log, mask, last), Apply(objects, Reports(log, mask, app, last)))
  {
    hide Expected, Apply, Reports;
    var objects', last' := Apply(objects, Reports(log, mask, app, last)), NewLast(log, mask, last);
    assert log[..|log|] == log;
    forall o: Object ensures o in objects' <==> LiveObject(log, mask, app, o) {
      Followed(log, |log|, mask, app, last, objects, o);
      ExpectedLive(log, mask, app, last, objects, o);
    }
    NewLastCovers(log, mask, last);
    UpToPrefix(log, last');
    forall o: Object
      ensures o in objects' ==> LiveObject(UpTo(log, last'), mask, app, o)
      ensures LiveObject(UpTo(log, last'), mask, app, o) && o !in objects' ==> LastOf(log, o) >= |UpTo(log, last')|
    {
      StillBehind(log, mask, app, last, last', o);
    }
  }

  lemma StillBehind(log: seq<Entry>, mask: bv32, app: string, last: nat, last': nat, o: Object)
    requires WellFormed(log) && last' >= last
    requires forall i :: 0 <= i < |log| && Reported(log[i], mask, last) ==> log[i].id <= last'
    ensures LiveObject(log, mask, app, o) ==> LiveObject(UpTo(log, last'), mask, app, o)
    ensures LiveObject(UpTo(log, last'), mask, app, o) && !LiveObject(log, mask, app, o) ==>
            LastOf(log, o) >= |UpTo(log, last')|
  {
    var i := LastOf(log, o);
    UpToPrefix(log, last');
    LastOfPrefix(log, |UpTo(log, last')|, o);
    if LiveObject(log, mask, app, o) {
      LiveAdd(log, o);
      assert log[i].id > last ==> Reported(log[i], mask, last);
    }
  }

  // ---------- what a poll tells, on the log alone ----------

  /** Between two positions of the log the object is neither added nor deleted. */
  predicate Rests(log: seq<Entry>, obj: Object, from: int, to: int)
    requires -1 <= from && to <= |log|
  {
    forall k | from < k < to :: log[k].obj == obj ==> log[k].kind == Change
  }

  /** The Delete at i takes back an Add that a client with event id last has been told of. */
  ghost predicate TakesBack(log: seq<Entry>, i: nat, last: nat)
    requires i < |log|
  {
    exists j | 0 <= j < i :: log[j].kind == Add && log[j].obj == log[i].obj && Rests(log, log[j].obj, j, i) &&
                             log[j].id <= last
  }

  /** News for a client with event id last: a later Change, Add of an object that is still there, or Delete of an
      object that was added up to last. */
  ghost predicate IsNews(log: seq<Entry>, i: nat, last: nat)
    requires i < |log|
  {
    && log[i].id > last
    && (log[i].kind == Add ==> Rests(log, log[i].obj, i, |log|))
    && (log[i].kind == Delete ==> TakesBack(log, i, last))
  }

  ghost predicate Tells(log: seq<Entry>, i: nat, mask: bv32, last: nat)
    requires i < |log|
  {
    log[i].hash & mask != 0 && IsNews(log, i, last)
  }

  /** The reports are the images, in order, of exactly the events that an application's clients are told of. */
  ghost predicate AreTold(log: seq<Entry>, mask: bv32, app: string, last: nat, told: seq<nat>, reports: seq<Report>) {
    && (forall i, j | 0 <= i < j < |told| :: told[i] < told[j])
    && (forall i: nat :: i in told <==> i < |log| && log[i].app == app && Tells(log, i, mask, last))
    && |reports| == |told|
    && forall k | 0 <= k < |told| ::
       told[k] < |log| && reports[k] == Report(log[told[k]].id, log[told[k]].kind, log[told[k]].obj)
  }

  /** The highest id that clients of any application are told of, or last when there is none. */
  ghost predicate IsHighest(log: seq<Entry>, mask: bv32, last: nat, highest: nat) {
    && (forall i | 0 <= i < |log| && Tells(log, i, mask, last) :: log[i].id <= highest)
    && (highest == last || exists i | 0 <= i < |log| && Tells(log, i, mask, last) :: log[i].id == highest)
  }

  lemma AddTold(log: seq<Entry>, i: nat, last: nat)
    requires AddsPaired(log) && i < |log| && log[i].kind == Add
    ensures Rests(log, log[i].obj, i, |log|) <==> !Overlaps(log[i], last)
  {
    if log[i].brother.Some? {
      var j :| i < j < |log| && Brothers(log, i, j);
    } else {
      assert Quiet(log, i, |log|, log[i].obj);
    }
  }

  /** A Delete takes back one Add, its brother. */
  lemma DeleteTold(log: seq<Entry>, i: nat, last: nat)
    requires DeletesPaired(log) && i < |log| && log[i].kind == Delete
    ensures TakesBack(log, i, last) <==> !Overlaps(log[i], last)
  {
    var a :| 0 <= a < i && Brothers(log, a, i);
    assert Quiet(log, a, i, log[a].obj);
    if TakesBack(log, i, last) {
      var j :| 0 <= j < i && log[j].kind == Add && log[j].obj == log[i].obj && Rests(log, log[j].obj, j, i)
               && log[j].id <= last;
      assert j == a;
    } else {
      assert Rests(log, log[a].obj, a, i);
    }
  }

  lemma NewsReported(log: seq<Entry>, i: nat, last: nat)
    requires WellFormed(log) && i < |log|
    ensures IsNews(log, i, last) <==> log[i].id > last && !Overlaps(log[i], last)
  {
    hide AddsPaired, DeletesPaired, Alternates, Homes, Increasing, Rests, TakesBack;
    match log[i].kind
    case Change =>
    case Add => AddTold(log, i, last);
    case Delete => DeleteTold(log, i, last);
  }

  /** The positions among the first n whose events are reported. */
  lemma {:induction false} ReportedPositions(log: seq<Entry>, n: nat, mask: bv32, app: string, last: nat)
    returns (told: seq<nat>)
    requires n <= |log|
    ensures forall i, j | 0 <= i < j < |told| :: told[i] < told[j]
    ensures forall i: nat :: i in told <==> i < n && log[i].app == app && Reported(log[i], mask, last)
    ensures var reports := Reports(log[..n], mask, app, last);
            && |reports| == |told|
            && forall k | 0 <= k < |told| ::
               told[k] < n && reports[k] == Report(log[told[k]].id, log[told[k]].kind, log[told[k]].obj)
  {
    hide Reported;
    told := [];
    if n > 0 {
      var before := ReportedPositions(log, n - 1, mask, app, last);
      assert log[..n][..n - 1] == log[..n - 1];
      told := before;
      if log[n - 1].app == app && Reported(log[n - 1], mask, last) {
        told := before + [n - 1];
        forall k | 0 <= k < |before| ensures before[k] < n - 1 { assert before[k] in before; }
      }
    }
  }

  lemma MaskedBits(hash: bv32, mask: bv32)
    ensures Masked(hash, mask) <==> hash & mask != 0
  {
  }

  lemma TellsReported(log: seq<Entry>, i: nat, mask: bv32, last: nat)
    requires WellFormed(log) && i < |log|
    ensures Tells(log, i, mask, last) <==> Reported(log[i], mask, last)
  {
    hide WellFormed, IsNews, Overlaps, Masked;
    NewsReported(log, i, last);
    MaskedBits(log[i].hash, mask);
  }

  /** In a well-formed log a poll tells exactly what the log says it should. */
  lemma PollTells(log: seq<Entry>, mask: bv32, app: string, last: nat)
    requires WellFormed(log)
    ensures exists told :: AreTold(log, mask, app, last, told, Reports(log, mask, app, last))
    ensures IsHighest(log, mask, last, NewLast(log, mask, last))
  {
    hide WellFormed, Tells, Reported;
    forall i | 0 <= i < |log| ensures Tells(log, i, mask, last) <==> Reported(log[i], mask, last) {
      TellsReported(log, i, mask, last);
    }
    var told := ReportedPositions(log, |log|, mask, app, last);
    assert log[..|log|] == log;
    assert AreTold(log, mask, app, last, told, Reports(log, mask, app, last));
    NewLastCovers(log, mask, last);
    NewLastIsReported(log, mask, last);
  }

  lemma {:induction false} NewLastIsReported(log: seq<Entry>, mask: bv32, last: nat)
    ensures var l := NewLast(log, mask, last);
            l == last || exists i | 0 <= i < |log| && Reported(log[i], mask, last) :: log[i].id == l
  {
    if log != [] {
      NewLastIsReported(log[..|log| - 1], mask, last);
      assert forall i :: 0 <= i < |log| - 1 ==> log[i] == log[..|log| - 1][i];
    }
  }

  // ---------- whole histories ----------

  /** What happens to one application's client over time: events are logged, and now and then it polls. */
  datatype Action = Logged(kind: Kind, obj: Object, hash: bv32, app: string, id: nat) | Polled

  datatype World = World(log: seq<Entry>, last: nat, objects: set<Object>)

  function Step(w: World, a: Action, mask: bv32, app: string): World {
    match a
    case Logged(kind, obj, hash, app', id) =>
      if kind == Delete && FindAdd(w.log, obj) < 0 then w
      else w.(log := Appended(w.log, kind, obj, hash, app', id))
    case Polled =>
      World(w.log, NewLast(w.log, mask, w.last), Apply(w.objects, Reports(w.log, mask, app, w.last)))
  }

  /** The event continues its object's alternation and has a fresh id. */
  ghost predicate Allowed(w: World, a: Action) {
    match a
    case Logged(kind, obj, hash, app, id) =>
      MayAppend(w.log, kind, obj, hash, app) && id >= 1 && forall i :: 0 <= i < |w.log| ==> w.log[i].id < id
    case Polled => true
  }

  ghost predicate IsHistory(ws: seq<World>, actions: seq<Action>, mask: bv32, app: string) {
    && |ws| == |actions| + 1 && ws[0] == World([], 0, {})
    && forall i :: 0 <= i < |actions| ==> Allowed(ws[i], actions[i]) && ws[i + 1] == Step(ws[i], actions[i], mask, app)
  }

  /** The client's event id is 0 or the id of a logged event. */
  ghost predicate KnownLast(log: seq<Entry>, last: nat) {
    last == 0 || exists i :: 0 <= i < |log| && log[i].id == last
  }

  lemma NewLastKnown(log: seq<Entry>, mask: bv32, last: nat)
    requires KnownLast(log, last)
    ensures KnownLast(log, NewLast(log, mask, last))
  {
    NewLastIsReported(log, mask, last);
  }

  lemma ExtendedUpTo(log: seq<Entry>, log': seq<Entry>, last: nat)
    requires ExtendsByOne(log, log') && Increasing(log) && Increasing(log') && log'[|log|].id > last
    ensures |UpTo(log', last)| == |UpTo(log, last)| <= |log|
    ensures UpTo(log, last) == log[..|UpTo(log, last)|] && UpTo(log', last) == log'[..|UpTo(log, last)|]
  {
    UpToPrefix(log, last);
    UpToPrefix(log', last);
    var u, u' := |UpTo(log, last)|, |UpTo(log', last)|;
    assert u < u' ==> log'[u].id == log[u].id || u == |log|;
    assert u' < u ==> log'[u'].id == log[u'].id;
  }

  lemma ExtendedLive(log: seq<Entry>, log': seq<Entry>, u: nat, mask: bv32, app: string, o: Object)
    requires ExtendsByOne(log, log') && u <= |log|
    ensures LiveObject(log'[..u], mask, app, o) <==> LiveObject(log[..u], mask, app, o)
    ensures LastOf(log', o) >= LastOf(log, o)
  {
    assert forall i :: 0 <= i < |log| ==> log'[i].(brother := None) == log[i].(brother := None);
    SameLive(log[..u], log'[..u], o);
    var i := LastOf(log, o);
    if i >= 0 { assert log'[i].obj == o; }
  }

  /** Logging an event changes nothing up to any id known before. */
  lemma LoggedKeepsBehind(log: seq<Entry>, kind: Kind, obj: Object, hash: bv32, app': string, id: nat,
                          mask: bv32, app: string, last: nat, objects: set<Object>)
    requires WellFormed(log) && MayAppend(log, kind, obj, hash, app') && id >= 1
    requires (forall i :: 0 <= i < |log| ==> log[i].id < id) && KnownLast(log, last)
    requires Behind(log, mask, app, last, objects) && (kind == Delete ==> FindAdd(log, obj) >= 0)
    ensures var log' := Appended(log, kind, obj, hash, app', id);
            Behind(log', mask, app, last, objects) && KnownLast(log', last)
  {
    hide LiveObject, DeletesPaired, AddsPaired, Alternates, Homes, MayAppend, Behind;
    var log' := Appended(log, kind, obj, hash, app', id);
    AppendWellFormed(log, kind, obj, hash, app', id);
    if last != 0 {
      var i :| 0 <= i < |log| && log[i].id == last;
      assert log'[i].id == last;
    }
    ExtendedBehind(log, log', mask, app, last, objects);
  }

  lemma ExtendedBehind(log: seq<Entry>, log': seq<Entry>, mask: bv32, app: string, last: nat, objects: set<Object>)
    requires ExtendsByOne(log, log') && Increasing(log) && Increasing(log') && log'[|log|].id > last
    requires Behind(log, mask, app, last, objects)
    ensures Behind(log', mask, app, last, objects)
  {
    hide LiveObject, Increasing, ExtendsByOne;
    ExtendedUpTo(log, log', last);
    var u := |UpTo(log, last)|;
    forall o: Object
      ensures LiveObject(UpTo(log', last), mask, app, o) <==> LiveObject(UpTo(log, last), mask, app, o)
      ensures LastOf(log', o) >= LastOf(log, o)
    {
      ExtendedLive(log, log', u, mask, app, o);
    }
  }

  /** The client at any point of a history. */
  lemma {:induction false} HistoryInvariant(ws: seq<World>, actions: seq<Action>, mask: bv32, app: string)
    requires IsHistory(ws, actions, mask, app)
    ensures var w := ws[|actions|];
            WellFormed(w.log) && Behind(w.log, mask, app, w.last, w.objects) && KnownLast(w.log, w.last)
    decreases |actions|
  {
    if actions != [] {
      var n := |actions| - 1;
      HistoryInvariant(ws[..n + 1], actions[..n], mask, app);
      var w, a := ws[n], actions[n];
      assert Allowed(w, a) && ws[n + 1] == Step(w, a, mask, app);
      match a
      case Logged(kind, obj, hash, app', id) =>
        AppendWellFormed(w.log, kind, obj, hash, app', id);
        LoggedKeepsBehind(w.log, kind, obj, hash, app', id, mask, app, w.last, w.objects);
      case Polled =>
        PollSynchronises(w.log, mask, app, w.last, w.objects);
        NewLastKnown(w.log, mask, w.last);
    }
  }

  /** Delta synchronisation: in any history in which each object's events alternate Add, Delete, the
      client holds exactly the live objects after every poll, and its event id never decreases. */
  lemma ClientInSync(ws: seq<World>, actions: seq<Action>, mask: bv32, app: string, i: nat)
    requires IsHistory(ws, actions, mask, app) && i < |actions| && actions[i] == Polled
    ensures var w := ws[i + 1];
            forall o: Object :: o in w.objects <==> LiveObject(w.log, mask, app, o)
    ensures ws[i + 1].last >= ws[i].last
  {
    assert IsHistory(ws[..i + 1], actions[..i], mask, app);
    HistoryInvariant(ws[..i + 1], actions[..i], mask, app);
    PollSynchronises(ws[i].log, mask, app, ws[i].last, ws[i].objects);
  }

  /** What the client is told by any poll of such a history, and the event id that it keeps. */
  lemma HistoryTells(ws: seq<World>, actions: seq<Action>, mask: bv32, app: string, i: nat)
    requires IsHistory(ws, actions, mask, app) && i < |actions| && actions[i] == Polled
    ensures var w := ws[i];
            && (exists told :: AreTold(w.log, mask, app, w.last, told, Reports(w.log, mask, app, w.last)))
            && ws[i + 1].objects == Apply(w.objects, Reports(w.log, mask, app, w.last))
            && IsHighest(w.log, mask, w.last, ws[i + 1].last)
  {
    assert IsHistory(ws[..i + 1], actions[..i], mask, app);
    HistoryInvariant(ws[..i + 1], actions[..i], mask, app);
    PollTells(ws[i].log, mask, app, ws[i].last);
  }

  // ---------- the event manager ----------

  class Event {
    const id: nat
    const kind: Kind
    const obj: Object
    const hash: bv32
    const app: string
    var brother: Event?

    constructor (id: nat, kind: Kind, obj: Object, hash: bv32, app: string)
      ensures this.id == id && this.kind == kind && this.obj == obj && this.hash == hash && this.app == app
      ensures brother == null
    {
      this.id, this.kind, this.obj, this.hash, this.app := id, kind, obj, hash, app;
      brother := null;
    }

    function Value(): Entry
      reads this
    {
      Entry(id, kind, obj, hash, app, if brother == null then None else Some(brother.id))
    }
  }

  lemma PollNothing(mask: bv32, last: nat)
    ensures NewLast([], mask, last) == last && forall app :: Reports([], mask, app, last) == []
  {
  }

  lemma PollStep(log: seq<Entry>, i: nat, mask: bv32, last: nat)
    requires i < |log|
    ensures NewLast(log[..i + 1], mask, last) ==
            var l := NewLast(log[..i], mask, last);
            if Reported(log[i], mask, last) && log[i].id > l then log[i].id else l
    ensures forall app :: (
              Reports(log[..i + 1], mask, app, last) ==
              Reports(log[..i], mask, app, last) + if log[i].app == app && Reported(log[i], mask, last)
                then [ReportOf(log[i])] else [])
  {
    assert log[..i + 1][..i] == log[..i] && log[..i + 1][i] == log[i];
  }

  class EventManager {
    var events: seq<Event>
    var lastId: nat

    ghost predicate Valid()
      reads this, events
    {
      forall i, j :: 0 <= i < j < |events| ==> events[i] != events[j]
    }

    ghost function Log(): (log: seq<Entry>)
      reads this, events
      ensures |log| == |events| && forall i :: 0 <= i < |events| ==> log[i] == events[i].Value()
    {
      seq(|events|, i requires 0 <= i < |events| reads this, events => events[i].Value())
    }

    constructor ()
      ensures Valid() && Log() == [] && lastId == 0
    {
      events, lastId := [], 0;
    }

    /** findBrother: search backwards for the Add of the object. */
    method FindBrother(obj: Object) returns (i: int)
      ensures i == FindAdd(Log(), obj)
    {
      i := |events| - 1;
      ghost var log := Log();
      assert log[..|log|] == log;
      while i >= 0
        invariant -1 <= i < |events|
        invariant FindAdd(log, obj) == FindAdd(log[..i + 1], obj)
      {
        assert log[..i + 1][..i] == log[..i];
        if events[i].obj == obj && events[i].kind == Add {
          return;
        }
        i := i - 1;
      }
    }

    method SetBrother(ev: Event)
      requires Valid() && ev !in events && FindAdd(Log(), ev.obj) >= 0
      modifies ev, events
      ensures var i := FindAdd(old(Log()), ev.obj);
              && Log() == old(Log())[i := old(Log())[i].(brother := Some(ev.id))]
              && ev.brother == events[i]
    {
      hide FindAdd;
      var i := FindBrother(ev.obj);
      ev.brother := events[i];
      events[i].brother := ev;
      assert forall j :: 0 <= j < |events| && j != i ==> events[j].Value() == old(events[j].Value());
    }

    /** Logs an event of an application's object; applications without a hash are not logged. */
    method AddToEventList(kind: Kind, obj: Object, hash: bv32, app: string)
      requires Valid() && (kind == Delete && hash != 0 ==> FindAdd(Log(), obj) >= 0)
      modifies this, events
      ensures Valid() && (forall e :: e in events ==> e in old(events) || fresh(e))
      ensures if hash == 0 then Log() == old(Log()) && lastId == old(lastId)
              else Log() == Appended(old(Log()), kind, obj, hash, app, lastId) && lastId == old(lastId) + 1
      ensures if hash == 0 then events == old(events)
              else |events| == |old(events)| + 1 && events[..|old(events)|] == old(events)
                   && var ev := events[|old(events)|];
                      fresh(ev) && (ev.id, ev.kind, ev.obj, ev.hash, ev.app) == (lastId, kind, obj, hash, app)
    {
      hide FindAdd;
      if hash == 0 {
        return;
      }
      ghost var log := Log();
      lastId := lastId + 1;
      var ev := new Event(lastId, kind, obj, hash, app);
      if kind == Delete {
        assert Log() == log;
        SetBrother(ev);
      }
      ghost var marked := Log();
      events := events + [ev];
      assert Log() == marked + [ev.Value()];
    }

    /** checkOverlap on an event of the log. */
    method CheckOverlap(ev: Event, last: nat) returns (overlap: bool)
      requires ev.kind == Delete ==> ev.brother != null
      ensures overlap == Overlaps(ev.Value(), last)
    {
      if ev.kind == Add {
        return ev.brother != null;
      } else if ev.kind == Delete {
        return ev.brother.id > last;
      }
      return false;
    }

    /** One poll: the reports of each selected application, and the highest id reported. */
    method Timeout(mask: bv32, last: nat) returns (lastEvent: nat, result: map<string, seq<Report>>)
      requires Valid() && forall i :: 0 <= i < |events| && events[i].kind == Delete ==> events[i].brother != null
      ensures lastEvent == NewLast(Log(), mask, last)
      ensures forall app :: Reports(Log(), mask, app, last) == if app in result then result[app] else []
    {
      hide Reports, NewLast, Masked;
      ghost var log := Log();
      assert log[..0] == [];
      PollNothing(mask, last);
      var highest := 0;
      result := map[];
      var i := 0;
      while i < |events|
        invariant 0 <= i <= |events|
        invariant NewLast(log[..i], mask, last) == if highest == 0 then last else highest
        invariant highest == 0 || highest > last
        invariant forall app :: Reports(log[..i], mask, app, last) == if app in result then result[app] else []
      {
        var it := events[i];
        PollStep(log, i, mask, last);
        if Masked(it.hash, mask) && it.id > last {
          var overlap := CheckOverlap(it, last);
          if !overlap {
            var sofar := if it.app in result then result[it.app] else [];
            result := result[it.app := sofar + [ReportOf(it.Value())]];
            if it.id > highest {
              highest := it.id;
            }
          }
        }
        i := i + 1;
      }
      assert log[..|events|] == log;
      lastEvent := if highest == 0 then last else highest;
    }
  }
}
