/** User policies, and what a policy does to a packet when nothing watches it. */
module Policies {
  import opened Oxm
  import opened FieldSets

  datatype Decision = Undefined | Drop | Unicast(port: nat) | Multicast(ports: seq<nat>) | Broadcast

  /** A deterministic policy as the tree of its packet accesses. A load continues with the case of
      the value read, or with other; as a field has finitely many values, every continuation has this form. */
  datatype Policy =
    | Return(decision: Decision)
    | Load(mask: Mask, cases: map<Bits, Policy>, other: Policy)
    | Test(need: Field, positive: Policy, negative: Policy)
    | Modify(patch: Field, next: Policy)

  function Answer(p: Policy, v: Bits): Policy
    requires p.Load?
  {
    if v in p.cases then p.cases[v] else p.other
  }

  /** A policy throws out_of_range when it touches a field that the packet lacks. */
  datatype Outcome = OutOfRange | Returned(decision: Decision, pkt: Packet, mods: Entries)

  /** The policy on a packet, with the modifications collected on the way (ModTrackingPacket). */
  function Run(p: Policy, pkt: Packet, mods: Entries): Outcome {
    match p
    case Return(d) => Returned(d, pkt, mods)
    case Load(m, _, _) =>
      if m.t !in pkt then OutOfRange else Run(Answer(p, pkt[m.t] * m.bits), pkt, mods)
    case Test(need, positive, negative) =>
      if need.t !in pkt then OutOfRange
      else if Hits(pkt, need) then Run(positive, pkt, mods) else Run(negative, pkt, mods)
    case Modify(patch, next) =>
      if patch.t !in pkt then OutOfRange else Run(next, Patch(pkt, patch), Modified(mods, patch))
  }

  /** Applying the collected modifications once to the original packet gives the packet that the
      policy left behind by modifying it step by step. */
  lemma {:induction false} ModsReplay(p: Policy, original: Packet, pkt: Packet, mods: Entries)
    requires ApplyEntries(mods, original) == pkt
    ensures var out := Run(p, pkt, mods);
            out.Returned? ==> ApplyEntries(out.mods, original) == out.pkt
  {
    match p
    case Return(_) =>
    case Load(m, _, _) =>
      if m.t in pkt { ModsReplay(Answer(p, pkt[m.t] * m.bits), original, pkt, mods); }
    case Test(need, positive, negative) =>
      ModsReplay(positive, original, pkt, mods);
      ModsReplay(negative, original, pkt, mods);
    case Modify(patch, next) =>
      if patch.t in pkt {
        ModifiedApplies(mods, patch, original);
        ModsReplay(next, original, Patch(pkt, patch), Modified(mods, patch));
      }
  }

  /** A run that starts with some modifications collected ends with its own joined to them. */
  lemma {:induction false} RunJoined(p: Policy, pkt: Packet, before: Entries, mods: Entries)
    ensures var out := Run(p, pkt, mods);
            Run(p, pkt, Joined(before, mods)) == if out.Returned?
              then out.(mods := Joined(before, out.mods)) else OutOfRange
  {
    match p
    case Return(_) =>
    case Load(m, _, _) =>
      if m.t in pkt { RunJoined(Answer(p, pkt[m.t] * m.bits), pkt, before, mods); }
    case Test(need, positive, negative) =>
      RunJoined(positive, pkt, before, mods);
      RunJoined(negative, pkt, before, mods);
    case Modify(patch, next) =>
      if patch.t in pkt {
        JoinedModified(before, mods, patch);
        RunJoined(next, Patch(pkt, patch), before, Modified(mods, patch));
      }
  }

  /** Every load and test asks for whole fields. */
  predicate Exact(p: Policy) {
    match p
    case Return(_) => true
    case Load(m, cases, other) =>
      m.bits == All(m.t) && (forall v :: v in cases ==> Exact(cases[v])) && Exact(other)
    case Test(need, positive, negative) => need.mask == All(need.t) && Exact(positive) && Exact(negative)
    case Modify(_, next) => Exact(next)
  }
}
