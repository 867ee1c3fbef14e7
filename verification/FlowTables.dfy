/** The flow table of one switch, and how it agrees with the trace tree it was compiled from. */
module FlowTables {
  import opened Wrappers
  import opened Oxm
  import opened FieldSets
  import opened TraceTrees

  datatype Key = Key(prio: nat, pattern: set<Field>)
  type Table = map<Key, Action>

  function RuleAt(t: Table, k: Key): Rule
    requires k in t
  {
    Rule(k.prio, k.pattern, t[k])
  }

  function KeyOf(rule: Rule): Key {
    Key(rule.prio, rule.pattern)
  }

  function Install(t: Table, rule: Rule): Table {
    t[KeyOf(rule) := rule.action]
  }

  function InstallAll(t: Table, rules: seq<Rule>): Table
    decreases |rules|
  {
    if rules == [] then t else InstallAll(Install(t, rules[0]), rules[1..])
  }

  predicate Holds(t: Table, rule: Rule) {
    KeyOf(rule) in t && t[KeyOf(rule)] == rule.action
  }

  /** The table holds exactly the rules of the tree. */
  ghost predicate TableIs(t: Table, n: Node, alive: set<FlowId>) {
    forall rule :: Holds(t, rule) <==> Emits(n, [], rule, alive)
  }

  /** Rules of the tree only, and all its barrier rules; forwarding rules may have idled out. */
  ghost predicate TableSafe(t: Table, n: Node, alive: set<FlowId>) {
    && (forall rule :: Holds(t, rule) ==> Emits(n, [], rule, alive))
    && (forall rule :: Emits(n, [], rule, alive) && rule.action.ToController? ==> Holds(t, rule))
  }

  // ---------- the switch ----------

  /** k is the one entry of highest priority among those matching q, under the reading hits. */
  ghost predicate Wins(t: Table, q: Packet, k: Key, hits: (Packet, set<Field>) -> bool) {
    && k in t && hits(q, k.pattern)
    && forall other :: other in t && hits(q, other.pattern) ==> other == k || other.prio < k.prio
  }

  /** A tree and a table of its rules agree on q: a forwarding winner is what lookup finds; if the table
      is complete, what lookup finds wins, and otherwise only a barrier can win. */
  lemma Dispatch(t: Table, n: Node, l: int, r: int, q: Packet, alive: set<FlowId>)
    requires PrioOrdered(n, l, r) && WellMasked(n, []) && TableSafe(t, n, alive)
    requires Lookup(n, q, alive) != OutOfRange
    ensures forall k :: Wins(t, q, k, HitsAll) && t[k].Forward? ==> Lookup(n, q, alive) == Hit(t[k].flow)
    ensures TableIs(t, n, alive) ==>
              match Lookup(n, q, alive)
              case Hit(flow) => exists k :: Wins(t, q, k, HitsAll) && t[k] == Forward(flow)
              case Miss => (forall k :: k in t ==> !HitsAll(q, k.pattern))
                || exists k :: Wins(t, q, k, HitsAll) && t[k] == ToController
              case OutOfRange => true
  {
    forall k | Wins(t, q, k, HitsAll) && t[k].Forward?
      ensures Lookup(n, q, alive) == Hit(t[k].flow)
    {
      assert Holds(t, RuleAt(t, k));
      Guarded(n, [], l, r, q, alive, RuleAt(t, k));
      if b: Rule :| Emits(n, [], b, alive) && b.action.ToController? && HitsAll(q, b.pattern) && b.prio > k.prio {
        assert Holds(t, b) && KeyOf(b) in t;
      }
    }
    if TableIs(t, n, alive) {
      BestWins(n, [], l, r, q, alive);
      BestIsLookup(n, [], q, alive);
      var best := Best(n, [], q, alive);
      if best.Some? {
        assert Holds(t, best.value);
        forall other | other in t && HitsAll(q, other.pattern)
          ensures other == KeyOf(best.value) || other.prio < best.value.prio
        {
          assert Holds(t, RuleAt(t, other));
        }
        assert Wins(t, q, KeyOf(best.value), HitsAll);
      } else {
        forall k | k in t ensures !HitsAll(q, k.pattern) {
          assert Holds(t, RuleAt(t, k));
        }
      }
    }
  }

  /** With one field per type on every path the switch's reading of a match is the conjunctive one. */
  lemma ReadingsAgree(t: Table, n: Node, q: Packet, alive: set<FlowId>, k: Key)
    requires WellMasked(n, []) && OneField(n, []) && TableSafe(t, n, alive)
    ensures Wins(t, q, k, HitsSome) <==> Wins(t, q, k, HitsAll)
  {
    forall other | other in t ensures HitsSome(q, other.pattern) <==> HitsAll(q, other.pattern) {
      assert Holds(t, RuleAt(t, other));
      EmittedOnePerType(n, [], RuleAt(t, other), alive);
    }
  }

  lemma {:induction false} InstallAllHolds(t: Table, rules: seq<Rule>, rule: Rule)
    requires forall a, b :: a in rules && b in rules && KeyOf(a) == KeyOf(b) ==> a == b
    requires forall a :: a in rules && KeyOf(a) in t ==> Holds(t, a)
    ensures Holds(InstallAll(t, rules), rule) <==> Holds(t, rule) || rule in rules
    decreases |rules|
  {
    if rules != [] {
      assert forall a :: a in rules <==> a == rules[0] || a in rules[1..];
      InstallAllHolds(Install(t, rules[0]), rules[1..], rule);
    }
  }

  lemma {:induction false} InstallAllAppend(t: Table, rules: seq<Rule>, rule: Rule)
    ensures InstallAll(t, rules + [rule]) == Install(InstallAll(t, rules), rule)
    decreases |rules|
  {
    if rules == [] {
      assert [] + [rule] == [rule];
      assert InstallAll(Install(t, rule), []) == Install(t, rule);
    } else {
      assert (rules + [rule])[0] == rules[0] && (rules + [rule])[1..] == rules[1..] + [rule];
      InstallAllAppend(Install(t, rules[0]), rules[1..], rule);
    }
  }

  lemma {:induction false} InstalledFrom(t: Table, rules: seq<Rule>, k: Key)
    requires k in InstallAll(t, rules)
    ensures (k in t && t[k] == InstallAll(t, rules)[k]) || RuleAt(InstallAll(t, rules), k) in rules
    decreases |rules|
  {
    if rules != [] {
      InstalledFrom(Install(t, rules[0]), rules[1..], k);
    }
  }

  /** A rule stays where no rule of another action is installed in its place. */
  lemma {:induction false} InstalledOver(t: Table, rules: seq<Rule>, k: Key, action: Action)
    requires forall rule :: rule in rules && KeyOf(rule) == k ==> rule.action == action
    requires (k in t && t[k] == action) || exists rule :: rule in rules && KeyOf(rule) == k
    ensures k in InstallAll(t, rules) && InstallAll(t, rules)[k] == action
    decreases |rules|
  {
    if rules != [] {
      assert forall rule :: rule in rules <==> rule == rules[0] || rule in rules[1..];
      InstalledOver(Install(t, rules[0]), rules[1..], k, action);
    }
  }
}
