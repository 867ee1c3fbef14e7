/** The flow-table reconciler (src/FlowManager.cc): the stored rules of a switch follow the flows that
    the switch reports, and every rule that comes or goes is announced to the event log. */
module FlowManagers {
  import opened Sequences
  import E = Events

  /** What equalflows compares. */
  datatype FlowKey = FlowKey(cookie: nat, hardTimeout: nat, idleTimeout: nat, priority: nat, table: nat,
                             flags: nat, matching: string, instructions: string)

  /** A reported flow; the counters differ from one report to the next. */
  datatype FlowStats = FlowStats(key: FlowKey, packets: nat, bytes: nat)

  predicate EqualFlows(a: FlowStats, b: FlowStats) {
    a.key == b.key
  }

  class Rule {
    const id: nat
    const switchId: nat
    const flow: FlowStats
    var active: bool

    constructor (id: nat, switchId: nat, flow: FlowStats)
      ensures this.id == id && this.switchId == switchId && this.flow == flow && active
    {
      this.id, this.switchId, this.flow, active := id, switchId, flow, true;
    }
  }

  /** A call of addEvent. */
  datatype Call = Call(kind: E.Kind, rule: Rule)

  function Calls(kind: E.Kind, rules: seq<Rule>): seq<Call> {
    if rules == [] then [] else [Call(kind, rules[0])] + Calls(kind, rules[1..])
  }

  lemma {:induction false} CallsAt(kind: E.Kind, rules: seq<Rule>)
    ensures |Calls(kind, rules)| == |rules|
    ensures forall i :: 0 <= i < |rules| ==> Calls(kind, rules)[i] == Call(kind, rules[i])
  {
    if rules != [] {
      CallsAt(kind, rules[1..]);
    }
  }

  lemma {:induction false} CallsAppend(kind: E.Kind, rules: seq<Rule>, rule: Rule)
    ensures Calls(kind, rules + [rule]) == Calls(kind, rules) + [Call(kind, rule)]
  {
    if rules == [] {
      assert rules + [rule] == [rule];
    } else {
      CallsAppend(kind, rules[1..], rule);
      assert (rules + [rule])[1..] == rules[1..] + [rule];
    }
  }

  // ---------- matching rules against reported flows ----------

  /** The first reported flow equal to the rule's, or the number of flows. */
  function Find(flows: seq<FlowStats>, flow: FlowStats): (i: nat)
    ensures i <= |flows|
    ensures i < |flows| ==> EqualFlows(flows[i], flow)
    ensures forall j :: 0 <= j < i ==> !EqualFlows(flows[j], flow)
  {
    if flows == [] || EqualFlows(flows[0], flow) then 0 else 1 + Find(flows[1..], flow)
  }

  datatype Matched = Matched(kept: seq<Rule>, gone: seq<Rule>, rest: seq<FlowStats>)

  /** Each rule in turn takes its flow out of the report, or is gone. */
  function Match(rules: seq<Rule>, flows: seq<FlowStats>): Matched {
    if rules == [] then Matched([], [], flows)
    else
      var i := Find(flows, rules[0].flow);
      if i < |flows| then
        var m := Match(rules[1..], Without(flows, i));
        m.(kept := [rules[0]] + m.kept)
      else
        var m := Match(rules[1..], flows);
        m.(gone := [rules[0]] + m.gone)
  }

  ghost function RuleKeys(rules: seq<Rule>): multiset<FlowKey> {
    if rules == [] then multiset{} else multiset{rules[0].flow.key} + RuleKeys(rules[1..])
  }

  ghost function FlowKeys(flows: seq<FlowStats>): multiset<FlowKey> {
    if flows == [] then multiset{} else multiset{flows[0].key} + FlowKeys(flows[1..])
  }

  lemma {:induction false} FlowKeysWithout(flows: seq<FlowStats>, i: nat)
    requires i < |flows|
    ensures FlowKeys(flows) == multiset{flows[i].key} + FlowKeys(Without(flows, i))
  {
    if i == 0 {
      assert Without(flows, 0) == flows[1..];
    } else {
      var rest := Without(flows, i);
      assert rest[0] == flows[0] && rest[1..] == Without(flows[1..], i - 1);
      FlowKeysWithout(flows[1..], i - 1);
    }
  }

  lemma {:induction false} NotReported(flows: seq<FlowStats>, flow: FlowStats)
    requires Find(flows, flow) == |flows|
    ensures FlowKeys(flows)[flow.key] == 0
  {
    if flows != [] {
      NotReported(flows[1..], flow);
    }
  }

  lemma {:induction false} RuleKeysConcat(a: seq<Rule>, b: seq<Rule>)
    ensures RuleKeys(a + b) == RuleKeys(a) + RuleKeys(b)
  {
    if a == [] {
      assert a + b == b;
    } else {
      assert (a + b)[0] == a[0] && (a + b)[1..] == a[1..] + b;
      RuleKeysConcat(a[1..], b);
    }
  }

  lemma {:induction false} SameKeys(rules: seq<Rule>, flows: seq<FlowStats>)
    requires |rules| == |flows| && forall i :: 0 <= i < |rules| ==> rules[i].flow == flows[i]
    ensures RuleKeys(rules) == FlowKeys(flows)
  {
    if rules != [] {
      SameKeys(rules[1..], flows[1..]);
    }
  }

  lemma RuleKeysFirst(rule: Rule, rules: seq<Rule>)
    ensures RuleKeys([rule] + rules) == multiset{rule.flow.key} + RuleKeys(rules)
  {
    assert ([rule] + rules)[1..] == rules;
  }

  /** Key by key, the rules kept are as many as the rules and the report have in common, the rules gone
      are the other rules, and the flows left over are the rest of the report. */
  lemma {:induction false} MatchMeaning(rules: seq<Rule>, flows: seq<FlowStats>)
    ensures var m := Match(rules, flows);
            && RuleKeys(m.kept) == RuleKeys(rules) * FlowKeys(flows)
            && RuleKeys(m.kept) + FlowKeys(m.rest) == FlowKeys(flows)
            && RuleKeys(m.kept) + RuleKeys(m.gone) == RuleKeys(rules)
  {
    if rules != [] {
      var key, i := rules[0].flow.key, Find(flows, rules[0].flow);
      if i < |flows| {
        FlowKeysWithout(flows, i);
        var flows' := Without(flows, i);
        MatchMeaning(rules[1..], flows');
        var m := Match(rules[1..], flows');
        RuleKeysFirst(rules[0], m.kept);
        assert RuleKeys(rules) == multiset{key} + RuleKeys(rules[1..]);
        hide RuleKeys, FlowKeys, Match;
        Taken(RuleKeys(rules[1..]), FlowKeys(flows'), RuleKeys(m.kept), RuleKeys(m.gone), FlowKeys(m.rest), key);
      } else {
        NotReported(flows, rules[0].flow);
        MatchMeaning(rules[1..], flows);
        var m := Match(rules[1..], flows);
        RuleKeysFirst(rules[0], m.gone);
        assert RuleKeys(rules) == multiset{key} + RuleKeys(rules[1..]);
        hide RuleKeys, FlowKeys, Match;
        Missed(RuleKeys(rules[1..]), FlowKeys(flows), RuleKeys(m.kept), RuleKeys(m.gone), key);
      }
    }
  }

  /** The rules kept and a rule for each flow left over are, key by key, the report. */
  lemma ReportedKeys(rules: seq<Rule>, flows: seq<FlowStats>, created: seq<Rule>)
    requires var rest := Match(rules, flows).rest;
             |created| == |rest| && forall i :: 0 <= i < |created| ==> created[i].flow == rest[i]
    ensures RuleKeys(Match(rules, flows).kept + created) == FlowKeys(flows)
  {
    var m := Match(rules, flows);
    MatchMeaning(rules, flows);
    RuleKeysConcat(m.kept, created);
    SameKeys(created, m.rest);
  }

  lemma Taken(a: multiset<FlowKey>, b: multiset<FlowKey>, kept: multiset<FlowKey>, gone: multiset<FlowKey>,
              rest: multiset<FlowKey>, key: FlowKey)
    requires kept == a * b && kept + rest == b && kept + gone == a
    ensures multiset{key} + kept == (multiset{key} + a) * (multiset{key} + b)
    ensures (multiset{key} + kept) + rest == multiset{key} + b
    ensures (multiset{key} + kept) + gone == multiset{key} + a
  {
  }

  lemma Missed(a: multiset<FlowKey>, b: multiset<FlowKey>, kept: multiset<FlowKey>, gone: multiset<FlowKey>,
               key: FlowKey)
    requires kept == a * b && kept + gone == a && b[key] == 0
    ensures kept == (multiset{key} + a) * b
    ensures kept + (multiset{key} + gone) == multiset{key} + a
  {
  }

  predicate Unique<T(==)>(s: seq<T>) {
    forall i, j :: 0 <= i < j < |s| ==> s[i] != s[j]
  }

  lemma UniqueFirst<T>(x: T, s: seq<T>)
    ensures Unique([x] + s) <==> x !in s && Unique(s)
  {
    var t := [x] + s;
    assert forall i :: 0 <= i < |s| ==> s[i] == t[i + 1];
    if Unique(t) {
      forall i, j | 0 <= i < j < |s| ensures s[i] != s[j] {
        assert t[i + 1] != t[j + 1];
      }
      forall i | 0 <= i < |s| ensures s[i] != x {
        assert t[0] != t[i + 1];
      }
    } else if x !in s {
      var i, j :| 0 <= i < j < |t| && t[i] == t[j];
      assert t[j] == s[j - 1] && (i > 0 ==> t[i] == s[i - 1]);
    }
  }

  lemma UniqueConcat<T>(a: seq<T>, b: seq<T>)
    requires Unique(a) && Unique(b) && forall x :: x in a ==> x !in b
    ensures Unique(a + b)
  {
    var s := a + b;
    forall i, j | 0 <= i < j < |s| ensures s[i] != s[j] {
      assert if i < |a| then s[i] == a[i] else s[i] == b[i - |a|];
      assert if j < |a| then s[j] == a[j] else s[j] == b[j - |a|];
      assert j < |a| || s[j] in b;
    }
  }

  /** Kept and gone split the rules: each rule goes to exactly one of them. */
  predicate Splits(rules: seq<Rule>, kept: seq<Rule>, gone: seq<Rule>) {
    && Unique(kept) && Unique(gone)
    && (forall r :: r in rules ==> r in kept || r in gone)
    && (forall r :: r in kept ==> r in rules && r !in gone)
    && (forall r :: r in gone ==> r in rules)
  }

  lemma {:induction false} MatchSplits(rules: seq<Rule>, flows: seq<FlowStats>)
    requires Unique(rules)
    ensures Splits(rules, Match(rules, flows).kept, Match(rules, flows).gone)
  {
    if rules != [] {
      var i := Find(flows, rules[0].flow);
      var m := Match(rules[1..], if i < |flows| then Without(flows, i) else flows);
      assert rules == [rules[0]] + rules[1..];
      UniqueFirst(rules[0], rules[1..]);
      MatchSplits(rules[1..], if i < |flows| then Without(flows, i) else flows);
      assert rules[0] !in m.kept && rules[0] !in m.gone;
      UniqueFirst(rules[0], m.kept);
      UniqueFirst(rules[0], m.gone);
    }
  }

  lemma UniqueCalls(kind: E.Kind, rules: seq<Rule>)
    requires Unique(rules)
    ensures Unique(Calls(kind, rules))
  {
    CallsAt(kind, rules);
  }

  // ---------- what holds between calls ----------

  function At(rules: map<nat, seq<Rule>>, dp: nat): seq<Rule> {
    if dp in rules then rules[dp] else []
  }

  predicate Added(calls: seq<Call>, r: Rule) {
    Call(E.Add, r) in calls
  }

  predicate Deleted(calls: seq<Call>, r: Rule) {
    Call(E.Delete, r) in calls
  }

  /** One Add a rule, at most one Delete, and that after the Add. */
  predicate Announced(calls: seq<Call>) {
    && Unique(calls)
    && (forall j :: 0 <= j < |calls| ==> calls[j].kind != E.Change)
    && forall j :: 0 <= j < |calls| && calls[j].kind == E.Delete ==> Added(calls[..j], calls[j].rule)
  }

  /** The rules stored for their switches are those added and not deleted. */
  predicate Books(rules: map<nat, seq<Rule>>, calls: seq<Call>) {
    && (forall dp :: dp in rules ==> Unique(rules[dp]))
    && (forall dp :: dp in rules ==> forall r :: r in rules[dp] ==>
        r.switchId == dp && Added(calls, r) && !Deleted(calls, r))
    && (forall c :: c in calls && !Deleted(calls, c.rule) ==> c.rule in At(rules, c.rule.switchId))
  }

  /** Rules are numbered from a counter. */
  predicate Numbered(calls: seq<Call>, lastId: nat) {
    && (forall c :: c in calls ==> c.rule.id <= lastId)
    && forall c, d :: c in calls && d in calls && c.rule.id == d.rule.id ==> c.rule == d.rule
  }

  /** Taking back stored rules. */
  lemma DeletesAnnounced(calls: seq<Call>, gone: seq<Rule>)
    requires Announced(calls) && Unique(gone)
    requires forall r :: r in gone ==> Added(calls, r) && !Deleted(calls, r)
    ensures Announced(calls + Calls(E.Delete, gone))
  {
    CallsAt(E.Delete, gone);
    UniqueCalls(E.Delete, gone);
    CallsMembers(E.Delete, gone);
    UniqueConcat(calls, Calls(E.Delete, gone));
    hide Unique, Calls;
    var calls' := calls + Calls(E.Delete, gone);
    forall j | 0 <= j < |calls'| && calls'[j].kind == E.Delete ensures Added(calls'[..j], calls'[j].rule) {
      if j < |calls| {
        assert calls'[..j] == calls[..j];
      } else {
        assert calls'[j].rule == gone[j - |calls|];
        assert calls'[..j] == calls + calls'[|calls|..j];
      }
    }
  }

  /** Announcing new rules. */
  lemma AddsAnnounced(calls: seq<Call>, created: seq<Rule>)
    requires Announced(calls) && Unique(created)
    requires forall r :: r in created ==> !Added(calls, r)
    ensures Announced(calls + Calls(E.Add, created))
  {
    CallsAt(E.Add, created);
    UniqueCalls(E.Add, created);
    CallsMembers(E.Add, created);
    UniqueConcat(calls, Calls(E.Add, created));
    hide Unique, Calls;
    var calls' := calls + Calls(E.Add, created);
    forall j | 0 <= j < |calls'| && calls'[j].kind == E.Delete ensures Added(calls'[..j], calls'[j].rule) {
      assert j < |calls|;
      assert calls'[..j] == calls[..j];
    }
  }

  lemma CallsMembers(kind: E.Kind, rules: seq<Rule>)
    ensures forall c :: c in Calls(kind, rules) <==> c.kind == kind && c.rule in rules
  {
    CallsAt(kind, rules);
    forall c: Call | c.kind == kind && c.rule in rules ensures c in Calls(kind, rules) {
      var i :| 0 <= i < |rules| && rules[i] == c.rule;
      assert Calls(kind, rules)[i] == c;
    }
  }

  /** What holds between calls, but for the rules' active flags. */
  predicate Kept(rules: map<nat, seq<Rule>>, calls: seq<Call>, lastId: nat) {
    Announced(calls) && Books(rules, calls) && Numbered(calls, lastId)
  }

  /** The calls of one reconciliation. */
  function Reconciled(calls: seq<Call>, gone: seq<Rule>, created: seq<Rule>): seq<Call> {
    calls + Calls(E.Delete, gone) + Calls(E.Add, created)
  }

  /** A switch's rules are replaced by some of them and new ones; the others are deleted. */
  predicate Replaces(before: seq<Rule>, kept: seq<Rule>, gone: seq<Rule>, created: seq<Rule>, calls: seq<Call>,
                     dp: nat) {
    && Splits(before, kept, gone) && Unique(created)
    && (forall r :: r in created ==> r.switchId == dp && !Added(calls, r) && !Deleted(calls, r))
  }

  lemma ReplacedBooks(rules: map<nat, seq<Rule>>, calls: seq<Call>, dp: nat, kept: seq<Rule>, gone: seq<Rule>,
                      created: seq<Rule>)
    requires Announced(calls) && Books(rules, calls)
    requires Replaces(At(rules, dp), kept, gone, created, calls, dp)
    ensures var calls' := Reconciled(calls, gone, created);
            Announced(calls') && Books(rules[dp := kept + created], calls')
  {
    var calls1 := calls + Calls(E.Delete, gone);
    var calls' := calls1 + Calls(E.Add, created);
    DeletesAnnounced(calls, gone);
    CallsMembers(E.Delete, gone);
    CallsMembers(E.Add, created);
    assert forall r :: r in created ==> !Added(calls1, r);
    AddsAnnounced(calls1, created);
    UniqueConcat(kept, created);
    ReplacedStored(rules, calls, calls', dp, kept, gone, created);
  }

  lemma ReplacedStored(rules: map<nat, seq<Rule>>, calls: seq<Call>, calls': seq<Call>, dp: nat,
                       kept: seq<Rule>, gone: seq<Rule>, created: seq<Rule>)
    requires Books(rules, calls) && Unique(kept + created)
    requires Replaces(At(rules, dp), kept, gone, created, calls, dp)
    requires forall c :: c in calls' <==>
             c in calls || (c.kind == E.Delete && c.rule in gone) || (c.kind == E.Add && c.rule in created)
    ensures Books(rules[dp := kept + created], calls')
  {
    hide Unique;
    var rules' := rules[dp := kept + created];
    forall sw: nat, r: Rule | sw in rules' && r in rules'[sw]
      ensures r.switchId == sw && Added(calls', r) && !Deleted(calls', r)
    {
      if sw == dp && r in kept {
        assert r in At(rules, dp);
      }
    }
    forall c | c in calls' && !Deleted(calls', c.rule) ensures c.rule in At(rules', c.rule.switchId) {
      assert c.rule !in gone;
      if c in calls {
        assert !Deleted(calls, c.rule);
      }
    }
  }

  lemma ReconciledMembers(calls: seq<Call>, gone: seq<Rule>, created: seq<Rule>)
    ensures forall c :: c in Reconciled(calls, gone, created) <==>
              c in calls || (c.kind == E.Delete && c.rule in gone) || (c.kind == E.Add && c.rule in created)
  {
    CallsMembers(E.Delete, gone);
    CallsMembers(E.Add, created);
  }

  lemma NumberedMore(calls: seq<Call>, lastId: nat, gone: seq<Rule>, created: seq<Rule>, lastId': nat)
    requires Numbered(calls, lastId) && lastId' == lastId + |created|
    requires forall r :: r in gone ==> Added(calls, r)
    requires forall i :: 0 <= i < |created| ==> created[i].id == lastId + 1 + i
    ensures Numbered(Reconciled(calls, gone, created), lastId')
  {
    ReconciledMembers(calls, gone, created);
    hide Reconciled;
    var calls' := Reconciled(calls, gone, created);
    forall c | c in calls'
      ensures Known(calls, lastId, c.rule)
              || (lastId < c.rule.id <= lastId' && c.rule == created[c.rule.id - lastId - 1])
    {
      if c.kind == E.Add && c.rule in created {
        var i :| 0 <= i < |created| && created[i] == c.rule;
      } else if c !in calls {
        assert Added(calls, c.rule);
      }
    }
  }

  predicate Known(calls: seq<Call>, lastId: nat, r: Rule) {
    r.id <= lastId && exists c :: c in calls && c.rule == r
  }

  predicate Fresh(created: seq<Rule>, dp: nat, lastId: nat) {
    forall i :: 0 <= i < |created| ==> created[i].switchId == dp && created[i].id == lastId + 1 + i
  }

  lemma StoredAlive(rules: map<nat, seq<Rule>>, calls: seq<Call>, lastId: nat, dp: nat)
    requires Kept(rules, calls, lastId)
    ensures Unique(At(rules, dp)) && Numbered(calls, lastId)
            && forall r :: r in At(rules, dp) ==> Added(calls, r) && !Deleted(calls, r)
  {
  }

  lemma FreshUnknown(calls: seq<Call>, lastId: nat, created: seq<Rule>, dp: nat)
    requires Numbered(calls, lastId) && Fresh(created, dp, lastId)
    ensures forall r :: r in created ==> r.switchId == dp && !Added(calls, r) && !Deleted(calls, r)
  {
    forall r | r in created ensures r.switchId == dp && !Added(calls, r) && !Deleted(calls, r) {
      assert r.id > lastId;
    }
  }

  /** Which rules are deleted after one reconciliation. */
  lemma DeletedMeaning(calls: seq<Call>, lastId: nat, gone: seq<Rule>, created: seq<Rule>, dp: nat, c: Call)
    requires Numbered(calls, lastId) && Fresh(created, dp, lastId)
    requires forall r :: r in gone ==> Added(calls, r)
    requires c in Reconciled(calls, gone, created)
    ensures c.rule in created || exists d :: d in calls && d.rule == c.rule
    ensures Deleted(Reconciled(calls, gone, created), c.rule) <==> Deleted(calls, c.rule) || c.rule in gone
    ensures c.rule in created ==> !Deleted(Reconciled(calls, gone, created), c.rule)
  {
    ReconciledMembers(calls, gone, created);
    FreshUnknown(calls, lastId, created, dp);
    if c !in calls && c.rule in gone {
      assert Call(E.Add, c.rule) in calls;
    }
  }

  /** One reconciliation keeps the books. */
  lemma ReconciledKept(rules: map<nat, seq<Rule>>, calls: seq<Call>, lastId: nat, dp: nat,
                       kept: seq<Rule>, gone: seq<Rule>, created: seq<Rule>)
    requires Kept(rules, calls, lastId) && Fresh(created, dp, lastId)
    requires Splits(At(rules, dp), kept, gone)
    ensures Kept(rules[dp := kept + created], Reconciled(calls, gone, created), lastId + |created|)
  {
    FreshUnknown(calls, lastId, created, dp);
    forall i, j | 0 <= i < j < |created| ensures created[i] != created[j] {
      assert created[i].id < created[j].id;
    }
    ReplacedBooks(rules, calls, dp, kept, gone, created);
    NumberedMore(calls, lastId, gone, created, lastId + |created|);
  }

  function Joined(kept: seq<Rule>, gone: seq<Rule>, m: Matched): Matched {
    Matched(kept + m.kept, gone + m.gone, m.rest)
  }

  lemma MatchNone(flows: seq<FlowStats>)
    ensures Match([], flows) == Matched([], [], flows) && Calls(E.Delete, []) == []
  {
  }

  lemma ReconciledNone(calls: seq<Call>, gone: seq<Rule>)
    ensures Reconciled(calls, gone, []) == calls + Calls(E.Delete, gone)
  {
    assert Calls(E.Add, []) == [];
  }

  lemma MatchStep(rules: seq<Rule>, flows: seq<FlowStats>, kept: seq<Rule>, gone: seq<Rule>)
    requires rules != []
    ensures Joined(kept, gone, Match(rules, flows)) ==
            var i := Find(flows, rules[0].flow);
            if i < |flows| then Joined(kept + [rules[0]], gone, Match(rules[1..], Without(flows, i)))
            else Joined(kept, gone + [rules[0]], Match(rules[1..], flows))
  {
    var r, m, i := rules[0], Match(rules, flows), Find(flows, rules[0].flow);
    if i < |flows| {
      var n := Match(rules[1..], Without(flows, i));
      assert m == Matched([r] + n.kept, n.gone, n.rest);
      hide Match;
      assert kept + ([r] + n.kept) == (kept + [r]) + n.kept;
    } else {
      var n := Match(rules[1..], flows);
      assert m == Matched(n.kept, [r] + n.gone, n.rest);
      hide Match;
      assert gone + ([r] + n.gone) == (gone + [r]) + n.gone;
    }
  }

  // ---------- the flow manager ----------

  class FlowManager {
    var rules: map<nat, seq<Rule>>
    var calls: seq<Call>
    var lastId: nat

    ghost function Announcees(): set<Rule>
      reads this
    {
      set c | c in calls :: c.rule
    }

    /** Every rule got one Add and at most one Delete, and is active, and stored, until the Delete. */
    ghost predicate Valid()
      reads this, Announcees()
    {
      && Kept(rules, calls, lastId)
      && forall c :: c in calls ==> (c.rule.active <==> !Deleted(calls, c.rule))
    }

    constructor ()
      ensures Valid() && rules == map[] && calls == []
    {
      rules, calls, lastId := map[], [], 0;
    }

    /** The inner loop of the predicate of updateSwitchRules. */
    method TakeOut(flows: seq<FlowStats>, flow: FlowStats) returns (found: bool, left: seq<FlowStats>)
      ensures found <==> Find(flows, flow) < |flows|
      ensures left == if found then Without(flows, Find(flows, flow)) else flows
    {
      var i := 0;
      while i < |flows|
        invariant i <= |flows| && i + Find(flows[i..], flow) == Find(flows, flow)
      {
        if EqualFlows(flows[i], flow) {
          return true, flows[..i] + flows[i + 1..];
        }
        assert flows[i..][1..] == flows[i + 1..];
        i := i + 1;
      }
      return false, flows;
    }

    method Retire(rule: Rule)
      modifies this`calls, rule`active
      ensures calls == old(calls) + [Call(E.Delete, rule)] && !rule.active
    {
      calls := calls + [Call(E.Delete, rule)];
      rule.active := false;
    }

    method Admit(dp: nat, flow: FlowStats) returns (rule: Rule)
      modifies this`calls, this`lastId
      ensures fresh(rule) && rule.active && rule.flow == flow && rule.switchId == dp
              && rule.id == lastId == old(lastId) + 1
      ensures calls == old(calls) + [Call(E.Add, rule)]
    {
      lastId := lastId + 1;
      rule := new Rule(lastId, dp, flow);
      calls := calls + [Call(E.Add, rule)];
    }

    /** remove_if: the rules whose flow is not in the report are taken back. */
    method Sift(dp: nat, flows: seq<FlowStats>) returns (left: seq<FlowStats>, kept: seq<Rule>, ghost gone: seq<Rule>)
      requires Unique(At(rules, dp))
      modifies this`calls, set r | r in At(rules, dp)
      ensures Matched(kept, gone, left) == Match(At(rules, dp), flows)
      ensures calls == old(calls) + Calls(E.Delete, gone)
      ensures forall r :: r in At(rules, dp) ==> r.active == (old(r.active) && r !in gone)
    {
      hide Match, Calls, Find, Without, Unique;
      var stored, i := At(rules, dp), 0;
      left, kept, gone := flows, [], [];
      MatchNone(flows);
      assert stored[0..] == stored;
      while i < |stored|
        invariant i <= |stored|
        invariant Match(stored, flows) == Joined(kept, gone, Match(stored[i..], left))
        invariant calls == old(calls) + Calls(E.Delete, gone)
        invariant forall r :: r in stored ==> r.active == (old(r.active) && r !in gone)
        invariant forall r :: r in gone ==> r in stored
      {
        var rule := stored[i];
        assert stored[i..][0] == rule && stored[i..][1..] == stored[i + 1..];
        var found, left' := TakeOut(left, rule.flow);
        MatchStep(stored[i..], left, kept, gone);
        if found {
          kept := kept + [rule];
        } else {
          CallsAppend(E.Delete, gone, rule);
          Retire(rule);
          gone := gone + [rule];
        }
        left := left';
        i := i + 1;
      }
      MatchNone(left);
      assert stored[i..] == [] && kept + [] == kept && gone + [] == gone;
    }

    /** Each flow left in the report becomes a rule. */
    method AdmitAll(dp: nat, flows: seq<FlowStats>) returns (added: seq<Rule>)
      modifies this`calls, this`lastId
      ensures fresh(added) && |added| == |flows| && lastId == old(lastId) + |flows|
      ensures forall i :: 0 <= i < |flows| ==> added[i].flow == flows[i] && added[i].switchId == dp && added[i].active
      ensures forall i :: 0 <= i < |flows| ==> added[i].id == old(lastId) + 1 + i
      ensures calls == old(calls) + Calls(E.Add, added)
    {
      var i := 0;
      added := [];
      while i < |flows|
        invariant i == |added| <= |flows| && lastId == old(lastId) + i && fresh(added)
        invariant forall j :: 0 <= j < i ==> added[j].flow == flows[j] && added[j].switchId == dp && added[j].active
        invariant forall j :: 0 <= j < i ==> added[j].id == old(lastId) + 1 + j
        invariant calls == old(calls) + Calls(E.Add, added)
      {
        var rule := Admit(dp, flows[i]);
        CallsAppend(E.Add, added, rule);
        added := added + [rule];
        i := i + 1;
      }
    }

    /** Sift and admit. */
    method Reconcile(dp: nat, flows: seq<FlowStats>) returns (ghost m: Matched, ghost added: seq<Rule>)
      requires Unique(At(rules, dp))
      modifies this, set r | r in At(rules, dp)
      ensures m == Match(old(At(rules, dp)), flows) && rules == old(rules)[dp := m.kept + added]
      ensures calls == Reconciled(old(calls), m.gone, added)
              == old(calls) + Calls(E.Delete, m.gone) + Calls(E.Add, added)
      ensures |added| == |m.rest| && forall i :: 0 <= i < |added| ==> added[i].flow == m.rest[i]
      ensures Fresh(added, dp, old(lastId)) && lastId == old(lastId) + |added|
      ensures fresh(added) && forall r :: r in added ==> r.active
      ensures forall r :: r in old(At(rules, dp)) ==> r.active == (old(r.active) && r !in m.gone)
      ensures RuleKeys(m.kept + added) == FlowKeys(flows)
    {
      hide Match, RuleKeys, FlowKeys;
      var left, kept, gone := Sift(dp, flows);
      m := Matched(kept, gone, left);
      var created := AdmitAll(dp, left);
      added := created;
      ReportedKeys(At(rules, dp), flows, created);
      rules := rules[dp := kept + created];
    }

    /** The rules of the switch become the reported flows. Those that were stored before are the same
        rules as before, as many as stored and reported flows have in common; the others are taken back. */
    method UpdateSwitchRules(dp: nat, flows: seq<FlowStats>) returns (ghost m: Matched, ghost added: seq<Rule>)
      requires Valid()
      modifies this, set r | r in At(rules, dp)
      ensures Valid()
      ensures m == Match(old(At(rules, dp)), flows) && rules == old(rules)[dp := m.kept + added]
      ensures calls == Reconciled(old(calls), m.gone, added)
              == old(calls) + Calls(E.Delete, m.gone) + Calls(E.Add, added)
      ensures |added| == |m.rest| && forall i :: 0 <= i < |added| ==> added[i].flow == m.rest[i]
      ensures Fresh(added, dp, old(lastId)) && lastId == old(lastId) + |added|
      ensures fresh(added) && RuleKeys(At(rules, dp)) == FlowKeys(flows)
      ensures forall r :: r in old(At(rules, dp)) ==> r.active == (r !in m.gone)
    {
      StoredAlive(rules, calls, lastId, dp);
      hide Kept, Match, Reconciled, Calls, RuleKeys, FlowKeys, Unique, Numbered, Fresh;
      ghost var stored := At(rules, dp);
      m, added := Reconcile(dp, flows);
      assert At(rules, dp) == m.kept + added;
      hide At;
      MatchSplits(stored, flows);
      ReconciledKept(old(rules), old(calls), old(lastId), dp, m.kept, m.gone, added);
      forall c | c in calls ensures c.rule.active <==> !Deleted(calls, c.rule) {
        DeletedMeaning(old(calls), old(lastId), m.gone, added, dp, c);
        assert c.rule !in stored ==> c.rule !in m.gone;
      }
    }

    /** The switch is gone: so are its rules. */
    method CleanSwitchRules(dp: nat)
      requires Valid()
      modifies this, set r | r in At(rules, dp)
      ensures Valid()
      ensures rules == old(rules)[dp := []] && lastId == old(lastId)
      ensures calls == Reconciled(old(calls), old(At(rules, dp)), [])
      ensures forall r :: r in old(At(rules, dp)) ==> !r.active
    {
      hide Kept, Unique, Calls, Numbered;
      MatchNone([]);
      var stored, i := At(rules, dp), 0;
      while i < |stored|
        invariant i <= |stored| && rules == old(rules) && lastId == old(lastId)
        invariant calls == old(calls) + Calls(E.Delete, stored[..i])
        invariant forall r :: r in stored[..i] ==> !r.active
      {
        CallsAppend(E.Delete, stored[..i], stored[i]);
        assert stored[..i + 1] == stored[..i] + [stored[i]];
        Retire(stored[i]);
        i := i + 1;
      }
      assert stored[..i] == stored;
      var none: seq<Rule> := [];
      assert none + none == none && Fresh(none, dp, lastId);
      StoredAlive(rules, old(calls), lastId, dp);
      hide Kept, Unique, Reconciled, Calls;
      ReconciledNone(old(calls), stored);
      ReconciledKept(rules, old(calls), lastId, dp, none, stored, none);
      ReconciledMembers(old(calls), stored, []);
      rules := rules[dp := []];
    }
  }
}
