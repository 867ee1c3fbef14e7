/** The containers of src/oxm/field_set.hh: field_set (at most one field per type) and
    multi_field_set (several fields per type, read as alternatives). */
module FieldSets {
  import opened Sequences
  import opened Oxm

  // ---------- field_set ----------

  type Entries = e: map<Type, Field> | forall t :: t in e ==> e[t].t == t witness map[]

  function LoadEntry(e: Entries, m: Mask): Field {
    Widen(if m.t in e then e[m.t] else Wildcard(m.t), m)
  }

  function Modified(e: Entries, f: Field): Entries {
    e[f.t := Rewrite(if f.t in e then e[f.t] else f, f)]
  }

  function Erased(e: Entries, m: Mask): Entries {
    if m.t !in e then e else
      var w := Widen(e[m.t], Complement(m));
      if w.mask == {} then e - {m.t} else e[m.t := w]
  }

  /** operator&(field_set, Packet): every entry is hit. */
  predicate EntriesHit(q: Packet, e: Entries) {
    forall t :: t in e ==> Hits(q, e[t])
  }

  /** The effect of one set-field action per entry. */
  function ApplyEntries(e: Entries, p: Packet): Packet {
    map t | t in p :: if t in e then RewriteBits(p[t], e[t]) else p[t]
  }

  /** Collecting a patch into the set and applying the set once is applying the set and then the patch. */
  lemma ModifiedApplies(e: Entries, f: Field, p: Packet)
    requires f.t in p
    ensures ApplyEntries(Modified(e, f), p) == Patch(ApplyEntries(e, p), f)
  {
    if f.t in e {
      RewriteAssociative(p[f.t], e[f.t], f);
    } else {
      RewriteSelf(f);
    }
  }

  /** What the set knows of a bit: that it is set, that it is clear, or nothing. */
  predicate Tells(e: Entries, t: Type, i: nat, on: bool) {
    t in e && i in e[t].mask && (i in e[t].value <==> on)
  }

  /** Loading gives what is known of the bits under the mask. */
  lemma LoadedBits(e: Entries, m: Mask, i: nat, on: bool)
    ensures var l := LoadEntry(e, m);
            l.t == m.t && (i in l.mask && (i in l.value <==> on) <==> Tells(e, m.t, i, on) && i in m.bits)
  {
  }

  /** Modifying makes the patch known, in place of what was known of its bits. */
  lemma ModifiedBits(e: Entries, f: Field, t: Type, i: nat, on: bool)
    ensures Tells(Modified(e, f), t, i, on) <==>
            if t == f.t && i in f.mask then i in f.value <==> on else Tells(e, t, i, on)
  {
  }

  /** g is what is left of f when the bits of the mask are forgotten. */
  predicate IsRest(f: Field, m: Mask, g: Field) {
    f.t == g.t == m.t && g.mask == f.mask - m.bits && g.value == f.value - m.bits
  }

  lemma RestIs(f: Field, m: Mask)
    requires f.t == m.t
    ensures IsRest(f, m, Widen(f, Complement(m)))
  {
    assert f.mask * Complement(m).bits == f.mask - m.bits;
  }

  /** Erasing forgets the bits under the mask; a type of which nothing is known any more is gone. */
  lemma ErasedBits(e: Entries, m: Mask, t: Type, i: nat, on: bool)
    ensures Tells(Erased(e, m), t, i, on) <==> Tells(e, t, i, on) && !(t == m.t && i in m.bits)
    ensures t in Erased(e, m) <==> t in e && !(t == m.t && e[t].mask <= m.bits)
  {
    if m.t in e {
      RestIs(e[m.t], m);
    }
    hide Widen, Complement;
  }

  lemma RewriteSelf(f: Field)
    ensures Rewrite(f, f) == f
  {
    assert f.mask + f.mask == f.mask && RewriteBits(f.value, f) * f.mask == f.value;
  }

  /** What a set becomes that collects the patches that b has collected. */
  function Joined(a: Entries, b: Entries): Entries {
    map t | t in a.Keys + b.Keys :: if t !in b then a[t] else if t !in a then b[t] else Rewrite(a[t], b[t])
  }

  lemma ModifiedAt(e: Entries, f: Field, t: Type)
    ensures t in Modified(e, f) <==> t in e || t == f.t
    ensures t in e && t != f.t ==> Modified(e, f)[t] == e[t]
    ensures t == f.t ==> Modified(e, f)[t] == if t in e then Rewrite(e[t], f) else f
  {
    RewriteSelf(f);
    hide Rewrite;
  }

  lemma JoinedAt(a: Entries, b: Entries, t: Type)
    ensures t in Joined(a, b) <==> t in a || t in b
    ensures t in b ==> Joined(a, b)[t] == if t in a then Rewrite(a[t], b[t]) else b[t]
    ensures t in a && t !in b ==> Joined(a, b)[t] == a[t]
  {
    hide Rewrite;
  }

  lemma JoinedModified(a: Entries, b: Entries, f: Field)
    ensures Joined(a, Modified(b, f)) == Modified(Joined(a, b), f)
  {
    hide Rewrite, Joined, Modified;
    var l, r := Joined(a, Modified(b, f)), Modified(Joined(a, b), f);
    forall t: Type ensures (t in l <==> t in r) && (t in l ==> l[t] == r[t]) {
      ModifiedAt(b, f, t);
      JoinedAt(a, b, t);
      JoinedAt(a, Modified(b, f), t);
      ModifiedAt(Joined(a, b), f, t);
      if t == f.t && t in a && t in b {
        RewriteThrice(a[t], b[t], f);
      }
    }
  }

  lemma RewriteThrice(a: Field, b: Field, c: Field)
    requires a.t == b.t == c.t
    ensures Rewrite(a, Rewrite(b, c)) == Rewrite(Rewrite(a, b), c)
  {
    RewriteAssociative(a.value, b, c);
    var l, r := Rewrite(a, Rewrite(b, c)), Rewrite(Rewrite(a, b), c);
    assert l.mask == r.mask;
    assert Rewrite(a, b).value == RewriteBits(a.value, b) by {
      assert RewriteBits(a.value, b) * (a.mask + b.mask) == RewriteBits(a.value, b);
    }
  }

  /** The patches of b leave nothing of those of a exactly if they cover them bit by bit. */
  predicate Covers(b: Entries, a: Entries) {
    forall t :: t in a ==> t in b && a[t].mask <= b[t].mask
  }

  lemma JoinedExact(a: Entries, b: Entries)
    ensures Joined(a, b) == b <==> Covers(b, a)
  {
    forall t | t in a && t in b ensures Joined(a, b)[t] == b[t] <==> a[t].mask <= b[t].mask {
      var f, g := a[t], b[t];
      assert Rewrite(f, g).mask == f.mask + g.mask;
      if f.mask <= g.mask {
        assert RewriteBits(f.value, g) * (f.mask + g.mask) == g.value;
      } else {
        assert f.mask + g.mask != g.mask;
      }
    }
    if Joined(a, b) == b {
      assert forall t :: t in a ==> t in Joined(a, b);
    }
  }

  /** The bits that a modifies and b does not are in p as a would set them. */
  predicate Stays(a: Entries, b: Entries, p: Packet) {
    forall t :: t in a && t in p ==>
      var extra := a[t].mask - if t in b then b[t].mask else {};
      p[t] * extra == a[t].value * extra
  }

  lemma RewriteStays(v: Bits, a: Field, b: Field)
    requires a.t == b.t
    ensures var extra := a.mask - b.mask;
            RewriteBits(v, Rewrite(a, b)) == RewriteBits(v, b) <==> v * extra == a.value * extra
  {
    var extra := a.mask - b.mask;
    assert RewriteBits(v, Rewrite(a, b)) * extra == a.value * extra && RewriteBits(v, b) * extra == v * extra;
    assert RewriteBits(v, Rewrite(a, b)) - extra == RewriteBits(v, b) - extra;
    Apart(RewriteBits(v, Rewrite(a, b)), RewriteBits(v, b), extra);
  }

  lemma Apart(x: Bits, y: Bits, part: Bits)
    requires x - part == y - part
    ensures x == y <==> x * part == y * part
  {
    if x * part == y * part {
      assert x == (x - part) + (x * part) && y == (y - part) + (y * part);
    }
  }

  lemma StaysAt(a: Entries, b: Entries, p: Packet, t: Type)
    requires t in p && t in a
    ensures var extra := a[t].mask - if t in b then b[t].mask else {};
            ApplyEntries(Joined(a, b), p)[t] == ApplyEntries(b, p)[t] <==> p[t] * extra == a[t].value * extra
  {
    if t in b {
      RewriteStays(p[t], a[t], b[t]);
    } else {
      var m, v := a[t].mask, (p[t] - a[t].mask) + a[t].value;
      assert m - {} == m && a[t].value * m == a[t].value && v * m == a[t].value;
      Apart(v, p[t], m);
    }
  }

  /** Earlier modifications change nothing of a packet exactly if they leave it as it is where they are not
      overwritten. */
  lemma JoinedApplies(a: Entries, b: Entries, p: Packet)
    ensures ApplyEntries(Joined(a, b), p) == ApplyEntries(b, p) <==> Stays(a, b, p)
  {
    hide RewriteBits, Rewrite;
    var l, r := ApplyEntries(Joined(a, b), p), ApplyEntries(b, p);
    forall t: Type | t in p && t in a
      ensures l[t] == r[t] <==>
              var extra := a[t].mask - if t in b then b[t].mask else {}; p[t] * extra == a[t].value * extra
    {
      StaysAt(a, b, p, t);
    }
    if Stays(a, b, p) {
      assert l == r;
    }
  }

  class FieldSet {
    var entries: Entries

    constructor ()
      ensures entries == map[]
    {
      entries := map[];
    }

    method Load(m: Mask) returns (f: Field)
      ensures f == LoadEntry(entries, m)
    {
      if m.t !in entries {
        return Widen(Wildcard(m.t), m);
      }
      return Widen(entries[m.t], m);
    }

    method Modify(patch: Field)
      modifies this
      ensures entries == Modified(old(entries), patch)
    {
      if patch.t !in entries {
        entries := entries[patch.t := patch];
      }
      entries := entries[patch.t := Rewrite(entries[patch.t], patch)];
    }

    method Erase(m: Mask)
      modifies this
      ensures entries == Erased(old(entries), m)
    {
      if m.t !in entries {
        return;
      }
      var w := Widen(entries[m.t], Complement(m));
      entries := entries[m.t := w];
      if w.mask == {} {
        entries := entries - {m.t};
        assert entries == Erased(old(entries), m);
      }
    }
  }

  // ---------- multi_field_set ----------

  function Elements(s: seq<Field>): set<Field> {
    set f | f in s
  }

  /** The insertion loop from position i on. */
  function AddFrom(s: seq<Field>, i: nat, f: Field): seq<Field>
    requires i <= |s|
    decreases |s| - i
  {
    if i == |s| then s + [f]
    else if s[i].t != f.t then AddFrom(s, i + 1, f)
    else if Included(f, s[i]) then s
    else if Included(s[i], f) then AddFrom(Without(s, i), i, f)
    else AddFrom(s, i + 1, f)
  }

  function Added(s: seq<Field>, f: Field): seq<Field> {
    AddFrom(s, 0, f)
  }

  /** The erasing loop from position i on. */
  function StripFrom(s: seq<Field>, i: nat, m: Mask): seq<Field>
    requires i <= |s|
    decreases |s| - i
  {
    if i == |s| then s
    else if s[i].t != m.t then StripFrom(s, i + 1, m)
    else
      var w := Widen(s[i], Complement(m));
      if w.mask == {} then StripFrom(Without(s, i), i, m) else StripFrom(s[i := w], i + 1, m)
  }

  function Stripped(s: seq<Field>, m: Mask): seq<Field> {
    StripFrom(s, 0, m)
  }

  function OfType(s: seq<Field>, t: Type): seq<Field> {
    if s == [] then [] else (if s[0].t == t then [s[0]] else []) + OfType(s[1..], t)
  }

  /** The field sets that fields() lists, for the remaining types and the set built so far. */
  function Combinations(s: seq<Field>, types: seq<Type>, fs: Entries): seq<Entries>
    decreases |types|, 1, 0
  {
    if types == [] then [fs]
    else
      var choices := OfType(s, types[0]);
      if choices == [] then Combinations(s, types[1..], fs) else CombineEach(s, choices, types, fs)
  }

  function CombineEach(s: seq<Field>, choices: seq<Field>, types: seq<Type>, fs: Entries): seq<Entries>
    requires types != []
    decreases |types|, 0, |choices|
  {
    if choices == [] then []
    else
      var with := Modified(fs, choices[0]);
      Combinations(s, types[1..], with) + CombineEach(s, choices[1..], types, Erased(with, MaskOf(choices[0])))
  }

  lemma CombineEachStep(s: seq<Field>, choices: seq<Field>, i: nat, types: seq<Type>, with: Entries,
                        all: seq<Entries>, before: seq<Entries>)
    requires i < |choices| && types != []
    requires exists cur :: with == Modified(cur, choices[i]) && all == CombineEach(s, choices[i..], types, cur)
    ensures before + all ==
            before + Combinations(s, types[1..], with)
            + CombineEach(s, choices[i + 1..], types, Erased(with, MaskOf(choices[i])))
  {
    assert choices[i..][0] == choices[i] && choices[i..][1..] == choices[i + 1..];
  }

  class MultiFieldSet {
    var elements: seq<Field>
    var usedTypes: seq<Type>

    ghost predicate Valid()
      reads this
    {
      && (forall f :: f in elements ==> f.t in usedTypes)
      && Distinct(usedTypes)
    }

    constructor ()
      ensures Valid() && elements == []
    {
      elements, usedTypes := [], [];
    }

    /** A copy of a set with the given elements. */
    constructor Of(elements: seq<Field>)
      ensures Valid() && this.elements == elements
    {
      this.elements, usedTypes := elements, [];
      new;
      var i := 0;
      while i < |elements|
        invariant 0 <= i <= |elements| && this.elements == elements && Distinct(usedTypes)
        invariant forall j :: 0 <= j < i ==> elements[j].t in usedTypes
      {
        if elements[i].t !in usedTypes {
          usedTypes := usedTypes + [elements[i].t];
        }
        i := i + 1;
      }
    }

    constructor Copy(other: MultiFieldSet)
      requires other.Valid()
      ensures Valid() && elements == other.elements
    {
      elements, usedTypes := other.elements, other.usedTypes;
    }

    method Add(f: Field)
      requires Valid()
      modifies this
      ensures Valid() && elements == Added(old(elements), f)
    {
      var i := 0;
      while i < |elements|
        invariant Valid() && 0 <= i <= |elements|
        invariant Added(old(elements), f) == AddFrom(elements, i, f)
        decreases |elements| - i
      {
        if elements[i].t != f.t {
          i := i + 1;
        } else if Included(f, elements[i]) {
          return;
        } else if Included(elements[i], f) {
          elements := Without(elements, i);
        } else {
          i := i + 1;
        }
      }
      elements := elements + [f];
      if f.t !in usedTypes {
        usedTypes := usedTypes + [f.t];
      }
    }

    method Erase(m: Mask)
      requires Valid()
      modifies this`elements
      ensures Valid() && elements == Stripped(old(elements), m)
    {
      var i := 0;
      while i < |elements|
        invariant Valid() && 0 <= i <= |elements|
        invariant Stripped(old(elements), m) == StripFrom(elements, i, m)
        decreases |elements| - i
      {
        if elements[i].t != m.t {
          i := i + 1;
        } else {
          var w := Widen(elements[i], Complement(m));
          if w.mask == {} {
            elements := Without(elements, i);
          } else {
            elements := elements[i := w];
            i := i + 1;
          }
        }
      }
    }

    /** fields(): one field_set for every way to pick one element of each used type. */
    method Fields() returns (ret: seq<Entries>)
      requires Valid()
      ensures ret == Combinations(elements, usedTypes, map[])
      ensures forall q: Packet :: SomeHit(q, ret) <==> HitsSome(q, Elements(elements))
    {
      ret := Recurse(usedTypes, map[], []);
      assert ret == Combinations(elements, usedTypes, map[]);
      forall q: Packet
        ensures SomeHit(q, ret) <==> HitsSome(q, Elements(elements))
      {
        FieldsAreAlternatives(elements, usedTypes, q);
      }
    }

    method Recurse(types: seq<Type>, fs: Entries, acc: seq<Entries>) returns (ret: seq<Entries>)
      ensures ret == acc + Combinations(elements, types, fs)
      decreases |types|
    {
      if types == [] {
        return acc + [fs];
      }
      var choices := OfType(elements, types[0]);
      if choices == [] {
        ret := Recurse(types[1..], fs, acc);
        return;
      }
      ret := acc;
      var cur := fs;
      var i := 0;
      while i < |choices|
        invariant 0 <= i <= |choices|
        invariant acc + CombineEach(elements, choices, types, fs) == ret +
                  CombineEach(elements, choices[i..], types, cur)
      {
        var with := Modified(cur, choices[i]);
        ghost var before, all := ret, CombineEach(elements, choices[i..], types, cur);
        ret := Recurse(types[1..], with, ret);
        cur := Erased(with, MaskOf(choices[i]));
        CombineEachStep(elements, choices, i, types, with, all, before);
        i := i + 1;
      }
    }
  }

  // ---------- meaning ----------

  predicate HitsType(q: Packet, s: seq<Field>, t: Type) {
    exists f :: f in s && f.t == t && Hits(q, f)
  }

  /** Conjunctive reading: every field is hit. */
  predicate HitsAll(q: Packet, m: set<Field>) {
    forall f :: f in m ==> Hits(q, f)
  }

  /** The reading of fields(): the fields of one type are alternatives. */
  predicate HitsSome(q: Packet, m: set<Field>) {
    forall f :: f in m ==> exists g :: g in m && g.t == f.t && Hits(q, g)
  }

  predicate OnePerType(m: set<Field>) {
    forall f, g :: f in m && g in m && f.t == g.t ==> f == g
  }

  predicate Antichain(s: seq<Field>) {
    forall i, j :: 0 <= i < |s| && 0 <= j < |s| && i != j && s[i].t == s[j].t ==> !Included(s[i], s[j])
  }

  lemma {:induction false} AddFromMeaning(s: seq<Field>, i: nat, f: Field, q: Packet, t: Type)
    requires i <= |s|
    ensures HitsType(q, AddFrom(s, i, f), t) <==> HitsType(q, s, t) || (f.t == t && Hits(q, f))
    decreases |s| - i
  {
    if i == |s| {
    } else if s[i].t != f.t {
      AddFromMeaning(s, i + 1, f, q, t);
    } else if Included(f, s[i]) {
      if Hits(q, f) { IncludedSound(f, s[i], q[f.t]); }
    } else if Included(s[i], f) {
      AddFromMeaning(Without(s, i), i, f, q, t);
      if Hits(q, s[i]) { IncludedSound(s[i], f, q[f.t]); }
      assert forall g :: g in s ==> g == s[i] || g in Without(s, i);
    } else {
      AddFromMeaning(s, i + 1, f, q, t);
    }
  }

  lemma {:induction false} AddFromAntichain(s: seq<Field>, i: nat, f: Field)
    requires i <= |s| && Antichain(s)
    requires forall k :: 0 <= k < i && s[k].t == f.t ==> !Included(f, s[k]) && !Included(s[k], f)
    ensures Antichain(AddFrom(s, i, f))
    decreases |s| - i
  {
    if i == |s| {
    } else if s[i].t != f.t {
      AddFromAntichain(s, i + 1, f);
    } else if Included(f, s[i]) {
    } else if Included(s[i], f) {
      AddFromAntichain(Without(s, i), i, f);
    } else {
      AddFromAntichain(s, i + 1, f);
    }
  }

  /** Erasing leaves the elements of other types, and of each element of the mask's type what is left of it, if
      that is no wildcard. */
  lemma {:induction false} StripFromExact(s: seq<Field>, i: nat, m: Mask, g: Field)
    requires i <= |s|
    ensures g in StripFrom(s, i, m) <==>
            g in s[..i] || (g.t != m.t && g in s[i..])
            || (g.mask != {} && exists f :: f in s[i..] && IsRest(f, m, g))
    decreases |s| - i
  {
    hide IsRest;
    if i < |s| {
      assert s[i..] == [s[i]] + s[i + 1..];
      if s[i].t != m.t {
        StripFromExact(s, i + 1, m, g);
        assert s[..i + 1] == s[..i] + [s[i]];
        OtherRest(s[i], m, g);
      } else {
        var w := Widen(s[i], Complement(m));
        RestIs(s[i], m);
        OnlyRest(s[i], m, w, g);
        if w.mask == {} {
          var s' := Without(s, i);
          StripFromExact(s', i, m, g);
          assert s'[..i] == s[..i] && s'[i..] == s[i + 1..];
        } else {
          var s' := s[i := w];
          StripFromExact(s', i + 1, m, g);
          assert s'[..i + 1] == s[..i] + [w] && s'[i + 1..] == s[i + 1..];
        }
      }
    }
  }

  lemma OtherRest(f: Field, m: Mask, g: Field)
    requires f.t != m.t
    ensures !IsRest(f, m, g)
  {
  }

  lemma OnlyRest(f: Field, m: Mask, w: Field, g: Field)
    requires IsRest(f, m, w)
    ensures IsRest(f, m, g) <==> g == w
  {
  }

  function AddAll(s: seq<Field>, fs: seq<Field>): seq<Field>
    decreases |fs|
  {
    if fs == [] then s else AddAll(Added(s, fs[0]), fs[1..])
  }

  /** Over any run of add, each type holds exactly the union of what was added, and no element covers another. */
  lemma {:induction false} AddRun(s: seq<Field>, fs: seq<Field>)
    requires Antichain(s)
    ensures Antichain(AddAll(s, fs))
    ensures forall q: Packet, t :: HitsType(q, AddAll(s, fs), t) <==> HitsType(q, s, t) || HitsType(q, fs, t)
    decreases |fs|
  {
    if fs != [] {
      AddFromAntichain(s, 0, fs[0]);
      AddRun(Added(s, fs[0]), fs[1..]);
      forall q: Packet, t
        ensures HitsType(q, AddAll(s, fs), t) <==> HitsType(q, s, t) || HitsType(q, fs, t)
      {
        AddFromMeaning(s, 0, fs[0], q, t);
        assert forall g :: g in fs <==> g == fs[0] || g in fs[1..];
      }
    }
  }

  lemma {:induction false} OfTypeMembers(s: seq<Field>, t: Type)
    ensures forall f :: f in OfType(s, t) <==> f in s && f.t == t
  {
    if s != [] {
      OfTypeMembers(s[1..], t);
      assert forall f :: f in s <==> f == s[0] || f in s[1..];
    }
  }

  /** No field of the type, or one that is hit. */
  predicate TypeOk(q: Packet, s: seq<Field>, t: Type) {
    OfType(s, t) == [] || HitsType(q, s, t)
  }

  predicate SomeHit(q: Packet, ret: seq<Entries>) {
    exists i :: 0 <= i < |ret| && EntriesHit(q, ret[i])
  }

  lemma SomeHitConcat(q: Packet, a: seq<Entries>, b: seq<Entries>)
    ensures SomeHit(q, a + b) <==> SomeHit(q, a) || SomeHit(q, b)
  {
    if SomeHit(q, a) {
      var i :| 0 <= i < |a| && EntriesHit(q, a[i]);
      assert EntriesHit(q, (a + b)[i]);
    }
    if SomeHit(q, b) {
      var i :| 0 <= i < |b| && EntriesHit(q, b[i]);
      assert EntriesHit(q, (a + b)[|a| + i]);
    }
  }

  ghost predicate Distinct(types: seq<Type>) {
    forall i, j :: 0 <= i < j < |types| ==> types[i] != types[j]
  }

  lemma ModifyThenErase(fs: Entries, f: Field)
    requires f.t !in fs
    ensures Modified(fs, f) == fs[f.t := f]
    ensures Erased(Modified(fs, f), MaskOf(f)) == fs
  {
    RewriteSelf(f);
    assert f.mask * Complement(MaskOf(f)).bits == {};
  }

  lemma {:induction false} CombinationsMeaning(s: seq<Field>, types: seq<Type>, fs: Entries, q: Packet)
    requires Distinct(types) && forall t :: t in types ==> t !in fs
    ensures SomeHit(q, Combinations(s, types, fs)) <==>
            EntriesHit(q, fs) && forall t :: t in types ==> TypeOk(q, s, t)
    decreases |types|, 1, 0
  {
    if types == [] {
      assert [fs][0] == fs;
    } else {
      var t := types[0];
      var choices := OfType(s, t);
      OfTypeMembers(s, t);
      assert forall u :: u in types <==> u == t || u in types[1..];
      if choices == [] {
        CombinationsMeaning(s, types[1..], fs, q);
      } else {
        EachMeaning(s, choices, types, fs, q);
        assert TypeOk(q, s, t) <==> exists f :: f in choices && Hits(q, f);
      }
    }
  }

  lemma {:induction false} EachMeaning(s: seq<Field>, choices: seq<Field>, types: seq<Type>, fs: Entries, q: Packet)
    requires types != [] && Distinct(types) && forall t :: t in types ==> t !in fs
    requires forall f :: f in choices ==> f.t == types[0]
    ensures SomeHit(q, CombineEach(s, choices, types, fs)) <==>
            && EntriesHit(q, fs)
            && (forall t :: t in types[1..] ==> TypeOk(q, s, t))
            && exists f :: f in choices && Hits(q, f)
    decreases |types|, 0, |choices|
  {
    if choices != [] {
      var f := choices[0];
      var with := Modified(fs, f);
      ModifyThenErase(fs, f);
      CombinationsMeaning(s, types[1..], with, q);
      EachMeaning(s, choices[1..], types, fs, q);
      SomeHitConcat(q, Combinations(s, types[1..], with), CombineEach(s, choices[1..], types, fs));
      assert EntriesHit(q, with) <==> EntriesHit(q, fs) && Hits(q, f) by {
        assert with[f.t] == f;
        assert forall t :: t in fs ==> with[t] == fs[t];
      }
      assert forall g :: g in choices <==> g == f || g in choices[1..];
    }
  }

  /** A packet matches some field set of fields() iff it matches, for each type present, at least one element. */
  lemma FieldsAreAlternatives(s: seq<Field>, types: seq<Type>, q: Packet)
    requires Distinct(types) && forall f :: f in s ==> f.t in types
    ensures SomeHit(q, Combinations(s, types, map[])) <==> HitsSome(q, Elements(s))
  {
    CombinationsMeaning(s, types, map[], q);
    if forall t :: t in types ==> TypeOk(q, s, t) {
      forall f | f in Elements(s) ensures exists g :: g in Elements(s) && g.t == f.t && Hits(q, g) {
        OfTypeMembers(s, f.t);
        assert TypeOk(q, s, f.t);
      }
    } else {
      var t :| t in types && !TypeOk(q, s, t);
      OfTypeMembers(s, t);
      var f := OfType(s, t)[0];
      assert f in Elements(s) && f.t == t;
    }
  }

  /** Reading the fields of one type as alternatives is the same as asking for all of them
      exactly when there is at most one of each type. */
  lemma AlternativesExact(m: set<Field>)
    requires forall f, g :: f in m && g in m && f != g && f.t == g.t ==> !Included(f, g)
    ensures (forall q: Packet :: HitsSome(q, m) <==> HitsAll(q, m)) <==> OnePerType(m)
  {
    if !OnePerType(m) {
      var f, g :| f in m && g in m && f.t == g.t && f != g;
      var q := OneSided(m, f, g);
    }
  }

  lemma OneSided(m: set<Field>, f: Field, g: Field) returns (q: Packet)
    requires f in m && g in m && f.t == g.t && !Included(f, g)
    ensures HitsSome(q, m) && !HitsAll(q, m)
  {
    var v := Separator(f, g);
    q := Override(PickPacket(m), f.t, v);
    OneSidedHits(m, f, g, v, q);
  }

  function Override(p: Packet, t: Type, v: Bits): Packet
    requires v <= All(t)
  {
    p[t := v]
  }

  lemma OneSidedHits(m: set<Field>, f: Field, g: Field, v: Bits, q: Packet)
    requires f in m && g in m && f.t == g.t && BitsHit(v, f) && !BitsHit(v, g)
    requires f.t in q && q[f.t] == v
    requires forall e :: e in m && e.t != f.t ==> e.t in q && q[e.t] == Pick(m, e.t).value
    ensures HitsSome(q, m) && !HitsAll(q, m)
  {
    forall e | e in m ensures exists h :: h in m && h.t == e.t && Hits(q, h) {
      SomeAlternative(m, f, q, e);
    }
    assert !Hits(q, g);
  }

  lemma SomeAlternative(m: set<Field>, f: Field, q: Packet, e: Field)
    requires f in m && e in m && Hits(q, f)
    requires e.t != f.t ==> e.t in q && q[e.t] == Pick(m, e.t).value
    ensures exists h :: h in m && h.t == e.t && Hits(q, h)
  {
    var h := if e.t == f.t then f else Pick(m, e.t);
    assert Hits(q, h);
  }

  ghost function Pick(m: set<Field>, t: Type): (e: Field)
    requires exists e :: e in m && e.t == t
    ensures e in m && e.t == t
  {
    var e :| e in m && e.t == t;
    e
  }

  /** A packet that hits one chosen field of every type. */
  ghost function PickPacket(m: set<Field>): (q: Packet)
    ensures forall e :: e in m ==> e.t in q && q[e.t] == Pick(m, e.t).value
  {
    map e | e in m :: e.t := Pick(m, e.t).value
  }
}
