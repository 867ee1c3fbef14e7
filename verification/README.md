# A verified model of the RUNOS controller core

RUNOS lets a network policy be written as an ordinary function of a packet, and turns it into OpenFlow
rules by watching what the function asks of each packet. These Dafny modules model that machinery and
the state machines beside it, and prove what they are meant to guarantee. The command `dafny verify
dfyconfig.toml` covers the whole project.

**The policy compiler (Maple).** A policy runs on a packet that hides bits already known or rewritten
and reports the others as a trace of loads and tests (`Tracing`, `TraceablePackets`). A tracer grafts
the trace into a tree and gives every new test and flow a priority by halving the range that is left
(`Grafting`, `Paths`, `Tracers`). The tree answers later packets by itself, and is compiled into a
prioritised flow table in which a barrier rule stands between the two branches of a test
(`TraceTrees`, `FlowTables`, `Compilers`). When priorities run out the tree is rebalanced by weighted
averages (`Priorities`, `Compilers`). `Oxm` and `FieldSets` are the algebra of masked header fields
underneath, `Policies` says what a policy means on a bare packet, `Caching` states when a tree agrees
with a policy, and `Controllers` is the state machine of it all: misses, expired and idle flows,
commit, and rebalancing followed by commit. `Retries` adds the second attempt of the packet-in path
and runs with rebalancing alone; `StaleTables` and `StaleSwitches` say what the table of a switch is
worth between rebalancing and commit; `Readings` compares the two readings of a match. `Runtime` holds
the objects as the source has them, each method proved against that state machine. `Limits` shows, by
concrete inputs, where the guarantees end. `Wrappers.dfy` has what several modules share.

The main results: at every point of every run, a packet that the switch forwards by a flow rule gets
the decision and the modifications of the policy itself, exactly if it has the fields that the tree
asks for and that the policy modifies (`SwitchFollowsPolicy`); the rules pushed one by one are those
that compiling the whole tree would give (`RunComplete`); the cache stays right over runs with
rebalancing in any range and without commits, as long as second attempts repeat the modifications of
the first (`RunCaches`); rebalancing changes no answer and leaves room everywhere (`UpdatedTree`); the
number of tests that fit a range is known exactly (`FirstPacketExact`, `RunCapacity`).

**Beside it.** `Events` is the REST event log, from which clients learn incrementally which objects
exist; `FlowManagers` the reconciler that keeps the stored rules of a switch equal to the reported
flows, and `FlowRuns` both together, with other applications and a polling client; `LinkDiscoveries`
the two coupled indexes of links; `Routes` the path from a shortest-path search to a forwarding
policy; `Loaders` the depth-first start of applications; `JsonTexts`, `JsonRoundTrips` and
`JsonParsers` the JSON printer and parser. `JsonGrammars` is the language of the parser written down
as documents, independent of it; `JsonSpellings` and `JsonReaders` prove that it reads exactly that
language, each document by its meaning, and `JsonDumps` which of the documents the printer writes.

Packets are maps from header field types to sets of set bits; a type that is missing is one that the
packet parser has not bound, and touching it is an exception, an explicit outcome here. A policy is
the finite tree of its packet accesses: a load continues by the value read. Rules are compared by
priority and included match, and the highest priority that matches wins, as in section 5.3 of the
OpenFlow Switch Specification 1.3.5. Doubles in priority arithmetic are real numbers. Iterators and
raw node pointers are paths and keys, whose validity is proved where the source dereferences them.

## Where the code and what it promises differ

- Two partial masks of one field type on a path: `multi_field_set::fields` reads several fields of one
  type as alternatives, so the installed rule matches more than the trace. `Readings.ReadingsExact`:
  the readings coincide in every table of every run if and only if every packet's trace asks for rules
  with one field per type only, and otherwise one miss is enough to tell them apart
  (`Readings.OneMissDiffers`). `Limits.TwoPartialMasks` has a policy, two packets and the wrong
  forwarding; policies that ask for whole fields are safe (`Controllers.ExactIsSeparate`).
- A modification is not traced, nor an access that asks for no bit, so a packet that lacks a field
  which the policy only modifies is answered from the tree although the policy throws on it
  (`Limits.UntracedModify`). `Controllers.HitIsRight` gives the exact condition: an answer from the
  tree is right if and only if the packet has every field that the policy touches in this way.
- A packet that lacks a tested field is forwarded by a rule of the negative branch, although policy
  and lookup both throw on it (`Limits.AbsentField`). `Controllers.SwitchFollowsPolicy` has this
  condition besides the one above.
- `processPacketIn` rebalances after `priority_exceeded` and goes on without recompiling, so that
  rules of old and new priorities stand side by side. In the default range the very first packet can
  lead to a wrong forwarding (`Limits.DefaultRange`; `Limits.UpdateWithoutCommit` in every range that
  is halved in the same way). `StaleSwitches.PacketInExact` is the exact condition at the call: on a
  switch in order the result forwards as the tree says if and only if barriers of the tree as it was
  before rebalancing, or of the new tests, stand at the new rule's priority or above for the packets
  that match it and belong elsewhere, and likewise for the old flow rules where the new rule has taken
  a barrier's place (`StaleSwitches.PushExact` for pushes in general). The installed table itself is
  still that of the tree exactly when the tree was balanced before (`StaleTables.UpdateExact`). At any
  point of any run in which rebalancing may stand alone, and the switch may refuse rules that overlap,
  flow rules win only packets of their flows, whatever flow rules idle out, exactly when they are
  guarded by barriers (`StaleSwitches.RunExact`); it is enough that stale and new rules that overlap
  are ordered as in the tree (`StaleSwitches.OrderedGuards`).
- The second attempt of `processPacketIn` runs on the packet as the first has left it, and records the
  modifications of both. `Retries.ProcessedExact`: all records stay the policy's own exactly if a
  second attempt that succeeds modifies again every bit that the first one has modified. By effect,
  all answers stay right exactly if what the first one has modified and the second has not changes no
  packet that comes to the leaf (`Retries.ProcessedByEffect`). `Limits.ModifiedRetry` has a policy and
  a packet for which it does.
- A missing dependency ends the process as a "cyclic dependency" when a second service needs the
  application that misses it (`Loaders.FatalWithoutCycle`). `Loaders.FatalForCyclesExact`: the process
  ends for a cycle and for nothing else, whatever services are asked for, exactly in those
  configurations in which each application whose walk comes to a missing name misses that name itself
  and leads to no cycle.
- A beacon keeps the link indexes in agreement exactly when its ends are two ports that are free or
  linked to each other, and no other link has its expiry time (`LinkDiscoveries.BeaconExact`): links
  are compared by time alone, and a port that changes its peer without going down leaves a dangling
  entry behind, and listeners believing in the old link (`LinkDiscoveries.PeerLeftBehind`).
- `parse` gives back what `dump` wrote exactly when the value is nested at most 200 deep
  (`JsonRoundTrips.ParseOfDump`). Of all texts it accepts those of documents nested at most 200 deep,
  values that a later member of the same key replaces included (`JsonReaders.ParseExact`).

## Model

| member | source | states |
|---|---|---|
| Oxm.TestIsHits | src/oxm/field.hh:545-550 | testing a field against loaded bits asks whether the packet's bits under its mask are its value |
| Oxm.RewriteAssociative | src/oxm/field.hh:557-568 | patching by f and then g is patching once by f >> g |
| Oxm.PatchExact | src/oxm/field.hh:557-560 | a patched packet hits the patch, and keeps every other bit and field |
| Oxm.IncludedIsInclusion | src/oxm/field_set.hh:146-150 | operator< holds if and only if every value that matches the left field matches the right |
| Oxm.Separator | src/oxm/field_set.hh:146-150 | for a field not included in another, bits that match only the first |
| FieldSets.ModifiedApplies | src/oxm/field_set.hh:55-64 | collecting a patch and applying the set once is applying the set and then the patch |
| FieldSets.FieldSet.Load | src/oxm/field_set.hh:45-52 | the known bits of the type under the mask, a wildcard for an unknown type |
| FieldSets.FieldSet.Modify | src/oxm/field_set.hh:55-64 | the entry of the type is rewritten in place |
| FieldSets.JoinedExact | src/Maple.cc:86-90 | collecting modifications on top of earlier ones gives the same set as without them if and only if every earlier bit is modified again |
| FieldSets.JoinedApplies | src/Maple.cc:86-90 | they change nothing of a packet if and only if it has the earlier bits, where they are not modified again, as they were set |
| FieldSets.FieldSet.Erase | src/oxm/field_set.hh:66-77 | the mask's bits are forgotten, and the entry with its last bit |
| FieldSets.LoadedBits | src/oxm/field_set.hh:45-52 | a loaded bit is one that the set knows and the mask asks for, with the value known |
| FieldSets.ModifiedBits | src/oxm/field_set.hh:55-64 | of a bit the set knows afterwards what the patch says, or else what it knew |
| FieldSets.ErasedBits | src/oxm/field_set.hh:66-77 | exactly the bits of the mask are forgotten, and a type of which nothing is known is gone |
| FieldSets.MultiFieldSet.Add | src/oxm/field_set.hh:175-190 | the erasing loop yields the set of AddFromMeaning and AddFromAntichain |
| FieldSets.AddFromMeaning | src/oxm/field_set.hh:175-190 | after add a packet hits some element of a type if and only if it did or it hits the new field |
| FieldSets.AddFromAntichain | src/oxm/field_set.hh:175-190 | no element covers another after add |
| FieldSets.AddRun | src/oxm/field_set.hh:175-190 | over any run of add each type holds the union of what was added, and no element covers another |
| FieldSets.MultiFieldSet.Erase | src/oxm/field_set.hh:192-205 | the loop strips the mask from each element of the type and drops those that become wildcards |
| FieldSets.StripFromExact | src/oxm/field_set.hh:192-205 | afterwards the set holds its elements of other types, and what is left of each element of the type unless that is a wildcard |
| FieldSets.MultiFieldSet.Fields | src/oxm/field_set.hh:207-235 | the recursion lists one set for each choice; a packet matches one of them if and only if it hits an element of each type present |
| FieldSets.FieldsAreAlternatives | src/oxm/field_set.hh:207-235 | the same for the list of sets as a value |
| FieldSets.AlternativesExact | src/oxm/field_set.hh:207-235 | alternatives and conjunction are the same for all packets if and only if there is one field per type |
| Policies.ModsReplay | src/Maple.cc:79-94 | the modifications collected on the way, applied once to the original packet, give the packet that modifying step by step left |
| Policies.RunJoined | src/Maple.cc:79-94 | a run on a packet with earlier modifications decides the same and ends with its own modifications joined to them |
| Tracing.TestTransparent | src/maple/TraceablePacketImpl.cc:27-53 | a test through the cache answers as the wrapped packet does, for any mask |
| Tracing.TraceTransparent | src/maple/TraceablePacketImpl.cc:8-53 | decision, packet, modifications and exceptions of every policy are those on the bare packet |
| Tracing.LoadKeeps | src/maple/TraceablePacketImpl.cc:8-25 | cached bits stay those of the packet and others those of the original; the traced value is the original's |
| Tracing.TestKeeps | src/maple/TraceablePacketImpl.cc:27-53 | the same for a test, whose traced result is the original packet's |
| Tracing.ModifyKeeps | src/maple/TraceablePacketImpl.cc:88-94 | the same for a modification |
| Tracing.TraceIsOriginal | src/maple/TraceablePacketImpl.cc:8-53 | every event of a trace holds of the original packet, however much was modified before it |
| Tracing.TraceNonRedundant | src/maple/TraceablePacketImpl.cc:15-24 | bits once loaded, matched or modified are never traced again |
| Tracing.ExactIsExclusive | src/maple/TraceablePacketImpl.cc:8-53 | a policy that asks for whole fields traces each type at most once along a path |
| Controllers.ExactIsSeparate | src/maple/TraceablePacketImpl.cc:8-53 | so every rule that it asks for has one field per type |
| TraceablePackets.TraceablePacket.Load | src/maple/TraceablePacketImpl.cc:8-25 | returns the packet's bits, and moves cache and tracer as the specification says, also when the tracer throws |
| TraceablePackets.TraceablePacket.Test | src/maple/TraceablePacketImpl.cc:27-53 | the same for a test |
| TraceablePackets.TraceablePacket.Modify | src/maple/TraceablePacketImpl.cc:88-94 | throws without touching the cache, or patches packet, collected modifications and cache |
| TraceablePackets.ModTrackingPacket.Modify | src/Maple.cc:86-90 | patches the packet and collects the patch, or neither |
| TraceablePackets.PacketBuffer.Modify | src/PacketParser.cc:284-289 | the bits under the mask are replaced; a field that is not bound throws |
| TraceablePackets.Execute | src/maple/Runtime.hh:45-47 | running a policy object drives the tracer through exactly the events of its trace, up to one that throws |
| Tracers.Tracer.Load | src/maple/TraceTree.cc:217-234 | one step of the walk: node made or followed, match extended, or inconsistent_trace |
| Tracers.Tracer.Test | src/maple/TraceTree.cc:292-328 | one step of the walk: priority, node and barrier rule, range narrowed, or an exception |
| Tracers.Tracer.Finish | src/maple/TraceTree.cc:330-365 | the leaf is made or takes the new flow; the installer keeps position and match |
| Paths.AdvanceIsGraft | src/maple/TraceTree.cc:217-365 | walking with a pointer, event by event, builds the tree of the recursive graft |
| Paths.FromRootIsGraft | src/maple/TraceTree.cc:530-535 | the same for a whole trace from the root, with or without finish |
| Grafting.GraftKeepsPrios | src/maple/TraceTree.cc:292-336 | every graft keeps negative priorities below the test's, and positive ones above, strictly inside the range |
| Grafting.GraftKeepsMasks | src/maple/TraceTree.cc:217-328 | no path of the tree fixes a bit twice |
| Grafting.GraftKeepsIds | src/maple/TraceTree.cc:299-302 | test ids stay unique, new ones come from the counter |
| Grafting.GraftCaches | src/maple/TraceTree.cc:330-341 | after its trace is grafted a packet is answered with the flow of that run |
| Grafting.GraftKeepsAnswers | src/maple/TraceTree.cc:149-186 | no graft changes an answer that the tree already gave, for any packet |
| Grafting.HitNeverExceeds | src/maple/TraceTree.cc:295-298 | where lookup finds a flow, no priority can run out |
| Grafting.GraftReaches | src/maple/TraceTree.cc:330-341 | with a flow that is new to the tree, only the packets of which the whole trace holds are answered with it |
| Grafting.GraftTakesOver | src/maple/TraceTree.cc:217-341 | whatever leaf a trace replaces, other answers stay as they were |
| Grafting.GraftEmits | src/maple/TraceTree.cc:307-365 | the grafted tree compiles to the old rules, the barriers pushed on the way and the installed rule; also for a trace cut short |
| TraceTrees.AddedUnseen | src/maple/TraceTree.cc:105-108 | adding a new field to the working match and erasing its mask restores the match |
| TraceTrees.EmittedPrio | src/maple/TraceTree.cc:94-137 | every rule of a subtree lies strictly inside its range |
| TraceTrees.NoOverlap | src/Maple.cc:264-265 | distinct rules of equal priority contradict each other in some field, as CHECK_OVERLAP (section 6.4 of the OpenFlow Switch Specification 1.3.5) demands |
| TraceTrees.ConflictExcludes | src/Maple.cc:264-265 | no packet matches both of two such rules |
| TraceTrees.KeysAreUnique | src/maple/TraceTree.cc:94-137 | priority and match determine the action |
| TraceTrees.BestWins | src/maple/TraceTree.cc:99-109 | among the rules that match a packet one has strictly the highest priority |
| TraceTrees.BestIsLookup | src/maple/TraceTree.cc:149-186 | that rule is the flow lookup returns; when lookup returns none it is a barrier, or there is none |
| TraceTrees.Guarded | src/maple/TraceTree.cc:99-109 | a flow rule that matches a packet is the one lookup finds, or a barrier above it matches too |
| TraceTrees.EmittedOnePerType | src/oxm/field_set.hh:207-235 | in a tree whose rules ask for one field per type, every emitted match has one field per type |
| Grafting.GraftKeepsOneField | src/maple/TraceTree.cc:217-341 | grafting a trace that asks for such rules keeps the tree so |
| FlowTables.Dispatch | src/maple/TraceTree.cc:94-186 | a flow rule that wins in the table is what lookup finds; in a complete table what lookup finds wins |
| FlowTables.ReadingsAgree | src/oxm/field_set.hh:207-235 | then the switch's winners under both readings of a match are the same |
| FlowTables.InstallAllHolds | src/maple/TraceTree.cc:359-364 | installing rules without clashes adds exactly those rules |
| Compilers.Compiler.Visit | src/maple/TraceTree.cc:94-137 | adds exactly the rules of the subtree and leaves the working match as it was; at a leaf, installs the one rule whatever the table holds |
| Compilers.DepthCounter.Visit | src/maple/TraceTree.cc:400-448 | the count of CountExact, and the two counts of each test under its id, from unique ids |
| Compilers.PriorityAssigner.Visit | src/maple/TraceTree.cc:450-506 | gives the tree the priorities of the specification and restores its range |
| Priorities.CountExact | src/maple/TraceTree.cc:400-448 | the count is the largest number of tests and leaves that any choice of one case for each load leaves over |
| Priorities.RebalancedProportional | src/maple/TraceTree.cc:450-506 | each test divides its range in proportion to these numbers on its two sides, each leaf halves it, and the result is rounded |
| Priorities.Capacity | src/maple/TraceTree.cc:296-298 | in a tree whose tests lie in the middle of their ranges, 2^(d+1) takes any trace of d tests and then a flow |
| Controllers.RunCapacity | src/maple/TraceTree.cc:296-298 | every run without rebalancing keeps the tree so: at any point of it a range of 2^(d+1) has priorities for every packet on which the policy makes d new tests |
| Priorities.CapacityExact | src/maple/TraceTree.cc:320-336 | a range takes every trace that asks for no bit twice, with d tests and a flow, if and only if it is at least 2^(d+1) wide |
| Limits.FirstPacketExact | src/maple/TraceTree.cc:320-336 | a range has priorities for the first packet of every policy that makes d new tests on it if and only if it is at least 2^(d+1) wide |
| Priorities.DefaultCapacity | src/maple/TraceTree.hh:37-39 | the default range takes every such trace of 14 tests, and not every one of 15 |
| Priorities.Split | src/maple/TraceTree.cc:455-456 | the weighted average leaves each side its share of the range |
| Priorities.RebalancedOrdered | src/maple/TraceTree.cc:483-505 | over a range of twice the count all rounded priorities are strictly nested again, and every unexplored leaf can take a test or a flow |
| Priorities.RebalancedSame | src/maple/TraceTree.cc:468-505 | rebalancing changes priorities only |
| Priorities.SameLookup | src/maple/TraceTree.cc:149-186 | trees that differ in priorities only answer alike |
| Caching.LookupSound | src/maple/Runtime.hh:58-62 | a flow found in a tree that agrees with the policy carries the policy's decision and modifications for that packet; lookup does not throw when the policy does not |
| Caching.HitExact | src/maple/TraceablePacketImpl.cc:27-94 | where lookup finds a flow the policy returns if and only if the packet has the fields that are modified, or touched without asking for a bit |
| Caching.GraftAgrees | src/maple/TraceTree.cc:217-341 | every trace of the policy keeps the tree in agreement, and inconsistent_trace is never thrown |
| Caching.SameAgrees | src/maple/TraceTree.cc:537-541 | rebalancing keeps agreement |
| Controllers.MissedSound | src/Maple.cc:734-765 | the first attempt on a packet keeps every invariant, and a complete table complete, also when it is cut short by an exception (Retries has the second attempt) |
| Controllers.MissedCaches | src/Maple.cc:734-765 | it keeps the cache right whatever the priorities and the table are |
| Controllers.MissAnswers | src/Maple.cc:734-765 | that attempt ends in a flow with the policy's decision and modifications, found by lookup from then on; or in the policy's exception; or out of priorities, and then the packet had no flow |
| Controllers.MissKeepsAnswers | src/Maple.cc:734-765 | it changes no answer that any packet already had |
| Controllers.MissFlows | src/Maple.cc:740-750 | the packet is handled by the flow that lookup finds, or by a new one; every other record stays, and all does when lookup throws |
| Controllers.ExpiredSound | src/Maple.cc:812-822 | after a hard timeout tree and table agree as before, and a complete table stays complete |
| Controllers.ExpiredExact | src/Maple.cc:812-822 | a hard timeout takes the flow, its rules and the answers that named it, whose packets get a new flow next; all else is unchanged |
| Controllers.UpdatedCaches | src/maple/TraceTree.cc:537-541 | over any range, rebalancing changes no lookup and keeps the cache right |
| Controllers.UpdatedTree | src/maple/TraceTree.cc:514-541 | over twice the tree's count it besides nests priorities and makes room at every leaf |
| Controllers.CommittedSound | src/maple/TraceTree.cc:543-550 | commit, alone or after rebalancing over a range of at least twice the tree's count, keeps every invariant |
| StaleTables.UpdateExact | src/Maple.cc:767-781 | after rebalancing over any range without commit a complete table is that of the tree if and only if each test and each living flow had its balanced priority before |
| StaleTables.RulesFixPrios | src/maple/TraceTree.cc:94-137 | if the rules of a strictly ordered tree are rules of a weakly ordered one of the same shape, both have the same priorities at tests and living flows |
| StaleTables.RebalancedMoves | src/maple/TraceTree.cc:450-506 | over any range rebalancing orders priorities weakly, and moves nothing if and only if the tree was balanced |
| StaleSwitches.ForwardsExact | src/maple/TraceTree.cc:99-109 | whatever flow rules idle out, flow rules win only packets of their flows if and only if barriers at their priority or above keep the other packets out |
| StaleSwitches.StaleExact | src/maple/TraceTree.cc:99-109 | with rules of old and new priorities side by side these are the packets that pass a test on whose negative side the rule's leaf lies |
| StaleSwitches.OrderedGuards | src/maple/TraceTree.cc:99-109 | barriers stop them if every flow rule stands no higher than the barriers that it overlaps and that are above its leaf in the tree |
| StaleSwitches.PushExact | src/maple/TraceTree.cc:307-365 | pushing the rules of a trace keeps the switch forwarding as the tree says if and only if the installed rule is kept free of other packets and, where it has taken the place of a barrier, the old flow rules are kept free of its own |
| StaleSwitches.PacketInExact | src/Maple.cc:767-781 | on a switch in order, a packet that makes the controller rebalance leaves it forwarding as the tree says if and only if the second attempt's rule is shielded by the barriers of the tree before rebalancing and of the new tests; no other hypothesis |
| StaleSwitches.ProcessedSteps | src/Maple.cc:767-781 | the packet-in path consists of steps of the runs below, unless its second attempt meets another living flow or modifies otherwise |
| StaleSwitches.RunExact | src/Maple.cc:767-781 | at any point of any run in which rebalancing may stand alone and the switch may refuse rules, flow rules win only packets of their flows, whatever flow rules idle out, if and only if they are guarded |
| StaleSwitches.GuardedFollowsPolicy | src/maple/Runtime.hh:38-62 | then a packet that a guarded flow rule wins gets the policy's decision and modifications, under the condition of SwitchFollowsPolicy |
| Controllers.RunSound | src/maple/Runtime.hh:38-72 | all invariants hold after every run of misses, expiries, idle timeouts and commits |
| Controllers.HitIsRight | src/maple/Runtime.hh:38-62 | whenever the cache is right, a flow that lookup finds carries the policy's decision and modifications if and only if the packet has the fields of HitExact |
| Controllers.SwitchFollowsPolicy | src/maple/Runtime.hh:38-62 | at any point of any run a packet forwarded by a flow rule gets the policy's own decision and modifications if and only if it has the fields that lookup asks for and those of HitExact; under the switch's reading for policies with one field per type in every rule |
| Readings.ReadingsExact | src/oxm/field_set.hh:207-235 | both readings coincide in every table of every run if and only if every trace asks for rules with one field per type |
| Readings.OneMissDiffers | src/oxm/field_set.hh:207-235 | otherwise one miss, in any range that takes the trace, gives a table on which they differ |
| Controllers.RunComplete | src/maple/TraceTree.cc:543-550 | over runs without idle timeouts the incremental table is the one that compiling the tree gives |
| Retries.AttemptExact | src/Maple.cc:770-778 | after an attempt on a packet with earlier modifications the cache is right if and only if the policy overwrites them all |
| Retries.ProcessedExact | src/Maple.cc:759-781 | the packet-in path keeps the cache right if and only if a second attempt that succeeds modifies again every bit that the first modified |
| Retries.ProcessedByEffect | src/Maple.cc:759-781 | after it every answer of lookup makes of its packet what the policy makes of it, if and only if the modifications that a second attempt leaves from the first change no packet that comes to its leaf |
| Retries.ProcessedAnswers | src/Maple.cc:759-781 | it ends in a flow, found by lookup, whose record is the policy's with the modifications of a failed attempt joined; or in the policy's exception; or out of priorities, and then the packet had no flow |
| Retries.RunCaches | src/Maple.cc:734-781 | the cache stays right over every run of packets whose second attempts are as in ProcessedExact, expiries, rebalancing in any range and any changes of the table |
| Retries.PacketRunIsRight | src/maple/Runtime.hh:58-62 | at any point of any such run lookup answers as the policy, under the condition of HitIsRight |
| Runtime.Maple.Augment | src/maple/Runtime.hh:38-56 | tree, ids and barrier rules after augment are those of the graft of the policy's trace; packet and modifications are left as they were when the tracer threw, or at the end |
| Runtime.Maple.Attempt | src/Maple.cc:770-785 | one attempt of the state machine, on whatever packet object it is given |
| Runtime.Maple.ProcessPacketIn | src/Maple.cc:734-785 | for a packet whose flow is new, idle or evicted the objects do what the packet-in path of the state machine says, second attempt included |
| Runtime.Maple.FlowRemoved | src/Maple.cc:812-822 | an unknown cookie is ignored; only a hard timeout erases the flow, and nothing else is erased |
| Runtime.Maple.Expire | src/Maple.cc:812-822 | afterwards flow and rules are gone, lookup answers nothing where it answered with the flow, and as before elsewhere |
| Runtime.Maple.Idle | src/Maple.cc:384-387 | a rule that idles out takes no record and no answer with it |
| Runtime.Maple.RunInstaller | src/maple/TraceTree.cc:359-364 | the installer pushes the one rule of its leaf, whatever the table holds |
| Runtime.Maple.Update | src/maple/TraceTree.cc:537-541 | counting and assigning give the tree of RebalancedProportional over any range and keep the cache right; over twice the count priorities are ordered |
| Runtime.Maple.Commit | src/maple/TraceTree.cc:543-550 | afterwards the table holds exactly the rules of the tree |
| Limits.TwoPartialMasks | src/oxm/field_set.hh:207-235 | a policy with two partial masks of one type, and a packet that the switch then forwards wrongly |
| Limits.UntracedModify | src/maple/TraceablePacketImpl.cc:88-94 | a packet on which the policy throws and lookup finds a flow |
| Limits.AbsentField | src/maple/TraceTree.cc:99-109 | a packet without the tested field that the switch forwards although policy and lookup throw |
| Limits.UpdateWithoutCommit | src/Maple.cc:767-781 | in every range of that form, nested tests make the packet-in path install a rule that takes a packet from the barrier meant for it |
| Limits.ModifiedRetry | src/Maple.cc:770-783 | a policy and a packet whose second attempt records modifications that the policy does not make, so that lookup answers another packet wrongly |
| Limits.DefaultRange | src/maple/TraceTree.hh:37-39 | both happen in the default range, to the first packet, with a rule that overlaps with none of its own priority |
| Events.EventManager.FindBrother | src/Event.cc:178-186 | the backward search finds the object's last Add, or none |
| Events.EventManager.SetBrother | src/Event.cc:188-193 | the Add and its Delete point to each other; all other events stay as they were |
| Events.EventManager.AddToEventList | src/Event.cc:163-176 | one event more, paired if it is a Delete; nothing for an application without a hash |
| Events.EventManager.CheckOverlap | src/Event.cc:121-137 | an Add that has a brother is not told, nor a Delete whose brother is after last |
| Events.EventManager.Timeout | src/Event.cc:139-161 | the loop yields the reports of PollTells, application by application, and the highest id reported |
| Events.AppendWellFormed | src/Event.cc:163-193 | one entry more, the others as they were but for the brother of the Add that a Delete takes back; events that alternate per object keep every Delete paired with the Add before it |
| Events.PollSynchronises | src/Event.cc:139-161 | a client that may lag only by deleted objects holds exactly the live objects after a poll |
| Events.PollTells | src/Event.cc:121-161 | a poll reports, in order, exactly the selected events after last that are a Change, the Add of an object that is still there, or the Delete of an object whose Add is not after last; the new last is the highest id of these |
| Events.HistoryTells | src/Event.cc:121-161 | so does every poll of every history |
| Events.HistoryInvariant | src/Event.cc:139-193 | in every history of events and polls the log is well formed and the client lags by deleted objects only |
| Events.ClientInSync | src/Event.cc:139-161 | after each poll of any history the client holds exactly the live objects, and its id never decreases |
| FlowManagers.FlowManager.TakeOut | src/FlowManager.cc:278-283 | the first equal reported flow is taken out of the report |
| FlowManagers.FlowManager.UpdateSwitchRules | src/FlowManager.cc:272-294 | survivors are the same objects and active, the others get one Delete, then new rules one Add; as multisets stored flows equal the report |
| FlowManagers.FlowManager.CleanSwitchRules | src/FlowManager.cc:262-270 | every stored rule gets its Delete and becomes inactive |
| FlowManagers.MatchMeaning | src/FlowManager.cc:276-289 | the survivors are the multiset intersection of rules and report, those left over the rest of the report |
| FlowManagers.MatchSplits | src/FlowManager.cc:276-289 | each rule survives or goes, not both |
| FlowManagers.ReconciledKept | src/FlowManager.cc:262-294 | each rule gets one Add and at most one Delete after it, and is stored until then |
| FlowRuns.CallAllowed | src/FlowManager.cc:262-294 | the calls to the event log alternate per rule as that log requires |
| FlowRuns.EmittedFollows | src/Event.cc:163-193 | logging the calls of a reconciliation one by one, each Delete finding its Add, keeps the live objects equal to the rules added and not deleted |
| FlowRuns.RunSound | src/FlowManager.cc:262-294 | all invariants hold after any interleaving of reconciliations, switches going down, events of other applications and polls |
| FlowRuns.ClientSeesRules | src/Event.cc:139-161 | after each poll of any such run the client holds exactly the stored rules of all switches |
| LinkDiscoveries.BeaconExact | src/LinkDiscovery.cc:258-282 | the two indexes agree after a beacon if and only if its ends are distinct and free or linked to each other, and its time is free |
| LinkDiscoveries.BeaconEffect | src/LinkDiscovery.cc:258-282 | whatever the state, a beacon leads both ends to its time, takes away the link at the source only, and is signalled only if there was none |
| LinkDiscoveries.PeerLeftBehind | src/LinkDiscovery.cc:266-277 | a beacon of a linked port to another peer leaves the edge of the first peer leading nowhere, if and only if the peers differ; listeners hear nothing and believe in the old link |
| LinkDiscoveries.TimedOutExact | src/LinkDiscovery.cc:312-323 | the expiry loop removes exactly the links whose time has passed, from both indexes, and signals each once |
| LinkDiscoveries.TimedOutInOrder | src/LinkDiscovery.cc:312-323 | the expired links are signalled in the order of their times |
| LinkDiscoveries.ClearedExact | src/LinkDiscovery.cc:284-310 | clearing a port removes the link that ends there, and no other, and signals it |
| LinkDiscoveries.TwoEdges | src/LinkDiscovery.hh:72-74 | while the indexes agree there are two ports for each link |
| LinkDiscoveries.CountsBalance | src/ILinkDiscovery.hh:30-50 | links are discovered and broken in turn: discovered minus broken is one for a standing link, else zero |
| LinkDiscoveries.RunSound | src/LinkDiscovery.cc:258-323 | in every run the indexes agree, signals have ordered ends, and the links discovered and not broken are those known |
| LinkDiscoveries.LinkDiscovery.HandleBeacon | src/LinkDiscovery.cc:258-282 | state and signals after a beacon |
| LinkDiscoveries.LinkDiscovery.ClearLinkAt | src/LinkDiscovery.cc:284-310 | the link at a port is removed from both indexes, both checks hold, and the signal has ordered ends |
| LinkDiscoveries.LinkDiscovery.TimerEvent | src/LinkDiscovery.cc:312-323 | the loop is that of TimedOutExact, and both ends of each link are in the index when they are erased |
| Routes.ComputeRoute | src/Topology.cc:165-201 | the walk over predecessors ends, its assertions hold, and it yields the route below |
| Routes.RouteIsTrail | src/Topology.cc:182-198 | the route is a trail of existing links to the target, two ports for each |
| Routes.RouteIsShortest | src/Topology.cc:165-201 | no trail of the graph is shorter |
| Routes.RouteEmptyExact | src/LearningSwitch.cc:247-247 | the route is empty exactly for the target itself and for switches that cannot reach it |
| Routes.RoutePolicy | src/LearningSwitch.cc:101-123 | the loop builds one term for each pair of ports, or throws |
| Routes.PolicyThrows | src/LearningSwitch.cc:107-115 | it throws if and only if the number of ports is odd or a pair lies on two switches |
| Routes.Delivered | src/LearningSwitch.cc:244-253 | the assembled route is accepted, and its policy takes the packet from the source port over existing links out of the target port, with one term on each switch |
| Loaders.Loader.Initialize | src/Loader.cc:183-241 | the recursive walk ends, and is the one specified |
| Loaders.Loader.StartAll | src/Loader.cc:144-158 | services in order, up to the end of the process |
| Loaders.InitializeSound | src/Loader.cc:183-241 | every application is initialised at most once and after all that it depends on; those that name a thread that there is run on it, the others on the threads in turn |
| Loaders.InitializeExact | src/Loader.cc:183-241 | from a fresh start a service is initialised if and only if all that it needs is registered and free of cycles |
| Loaders.StartsOnlyNeeded | src/Loader.cc:144-241 | nothing is initialised that no service leads to |
| Loaders.ServicesInTurn | src/Loader.cc:144-158 | what the first services initialise comes first |
| Loaders.DependenciesInTurn | src/Loader.cc:199-212 | so for the dependencies of an application |
| Loaders.BrokenNeverStarts | src/Loader.cc:199-212 | an application that leads to a missing one or to a cycle is never initialised |
| Loaders.FatalExact | src/Loader.cc:208-211 | when every dependency is registered the process ends if and only if some service leads to a cycle |
| Loaders.FatalWithoutCycle | src/Loader.cc:199-212 | with a missing dependency it also ends without a cycle |
| Loaders.WalkChain | src/Loader.cc:199-212 | the walk from an application that cannot be initialised follows first uninitialisable dependencies, and ends without the process or with it as that chain comes to a missing name or repeats |
| Loaders.FatalForCyclesExact | src/Loader.cc:199-212 | the process ends exactly for services that lead to a cycle, for all lists of services, if and only if each application whose walk comes to a missing name misses it itself and leads to no cycle |
| JsonParsers.DumpString | src/json11.cpp:63-98 | the loop appends the quoted and escaped string |
| JsonParsers.DumpValue | src/json11.cpp:43-124 | the text of a value is appended, arrays and objects item by item |
| JsonParsers.JsonParser.ParseStringBody | src/json11.cpp:404-485 | reads the string specified, or fails; the index never passes the end |
| JsonParsers.JsonParser.ParseNumber | src/json11.cpp:491-540 | reads the number specified, or fails |
| JsonParsers.JsonParser.ParseJson | src/json11.cpp:563-647 | ends for every text, leaves the index at most at the end, and reads the value of ParseExact, or fails |
| JsonParsers.Parse | src/json11.cpp:650-660 | succeeds if and only if the text is that of a document nested at most 200 deep, with its meaning |
| JsonReaders.ParseExact | src/json11.cpp:356-660 | the value is v if and only if the text is a document that means v, nested at most 200 deep, with any run of space, tab, line feed and carriage return between its tokens |
| JsonReaders.OneMeaning | src/json11.cpp:563-647 | a document has one meaning: of repeated keys the last counts, and members stand in the order of their keys |
| JsonReaders.Reads | src/json11.cpp:563-647 | every document of the grammar is read as its meaning |
| JsonReaders.ValueIsSpelled | src/json11.cpp:563-647 | whatever is read is a document of the grammar |
| JsonReaders.InsertExact | src/json11.cpp:607 | the member replaces the one with its key, and the order stays |
| JsonReaders.LessIsOrder | src/json11.cpp:590 | keys are ordered by their first different byte |
| JsonSpellings.ReadsString | src/json11.cpp:404-485 | characters, the eight letter escapes, and code units in hex digits of either case are read as what they say; a surrogate pair is one code point |
| JsonSpellings.StringIsSpelled | src/json11.cpp:404-485 | whatever is read as a string is spelled so |
| JsonSpellings.ReadsNumeral | src/json11.cpp:491-540 | integers of the grammar are read by place value, other numbers by their text |
| JsonSpellings.NumberIsSpelled | src/json11.cpp:491-540 | whatever is read as a number is spelled so |
| JsonDumps.DumpExact | src/json11.cpp:43-124 | dump writes a document that means the value, with a space after each comma and colon and no other, the shortest escapes and lower-case digits |
| JsonRoundTrips.StringTrip | src/json11.cpp:63-98 | every string that dump writes is read back, control characters and line separators included |
| JsonRoundTrips.EscapesDecode | src/json11.cpp:427-457 | text in UTF-16 escapes (section 7 of RFC 8259) is read as its UTF-8 form, each code point written once |
| JsonRoundTrips.Utf8Decodes | src/json11.cpp:379-398 | every code point, surrogates included, has the length and the bytes of the table of section 3 of RFC 3629 |
| JsonRoundTrips.NumberTrip | src/json11.cpp:491-513 | every int that dump writes is read back |
| JsonRoundTrips.ParseOfDump | src/json11.cpp:650-660 | parse(dump(v)) is v if v is nested at most 200 deep, and fails otherwise |

## Left out

- Virtual loads, `connect_nodes`, `virtual_fields` and `watch`: they share sub-nodes of the tree or bypass tracing.
- The excluded half of `full_field_set`: only the choice of a switch reads it; one switch is modelled, and rules are compared by their included half.
- `MapleBackend`: cookies, buffers, the cache of miss rules, installation triggers and wire messages; the backend is the table it fills.
- Flow states beyond found, expired and idle: packets of a flow that is active on its switch, inspection, preprocessing, and decision timeouts.
- StaleSwitches.RunExact: a second attempt on a packet that another living flow answers is no step of these runs (it is in PacketInExact), and matches are read as conjunctions.
- StaleSwitches.PacketInExact: takes the switch to accept every rule pushed, although flow mods ask it to refuse rules that overlap at equal priority; RunExact allows refusals.
- Readings.ReadingsExact: ranges and priorities are natural numbers of any size, where the source has 16 bits; a policy whose traces need more than 16 bits of range may tell the readings apart in the model only.
- Retries.RunCaches: the run theorem has the condition of ProcessedExact at each packet, not the weaker one of ProcessedByEffect.
- The tree is a value written through paths; sharing of nodes exists only with virtual loads.
- Runtime.Maple.Augment: the decision is recorded after finish and not before; this differs only for a flow whose finish throws, which no node refers to.
- Priorities.RebalancedOrdered: priorities are computed in real numbers, without the rounding of doubles; in ranges narrower than twice the count rounded priorities may meet, and nothing is claimed.
- LinkDiscoveries.LinkDiscovery.TimerEvent: the sending of LLDP packets after the loop, and the erasures inside `assert` are always executed.
- The two-argument constructor of `Event` that leaves the hash unset, event times, and wrap-around of 32- and 64-bit ids.
- `FlowManager::addRule`, which nothing calls, and deletion over REST, which leaves the stored rules to the next report.
- Routes.ComputeRoute: the shortest-path search is described by its result, distances and predecessors over links of weight one; of parallel links the graph yields one.
- Learning of hosts, spanning trees and flooding.
- JsonParsers.JsonParser.ParseNumber: numbers with a fraction or an exponent keep their text instead of a double, and long integers their exact value.
- JSON error messages, `parse_multi` and `has_shape`.
- JsonParsers.JsonParser.ParseJson: when the text ends after a comma the source goes round its loop once more before it returns the failure; the model returns at once.
- Applications' start-up after initialisation, threads and mutexes, REST handlers, configuration reading and logging.
- The retic compiler, OpenFlow message classes and the packet parser's memory layout.
