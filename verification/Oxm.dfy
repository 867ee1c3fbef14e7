/** The match algebra of src/oxm: header field types, masks, and fields (a value under a mask).

    A bit string is the set of its positions that hold 1, so that the source's bitwise and, or and
    complement are set intersection, union and difference from all positions of the type. */
module Oxm {
  type Bits = set<nat>

  datatype Type = Type(ns: nat, id: nat, nbits: nat, maskable: bool)

  function FirstBits(n: nat): (bits: Bits)
    ensures forall i: nat :: i in bits <==> i < n
  {
    if n == 0 then {} else FirstBits(n - 1) + {n - 1}
  }

  function All(t: Type): Bits {
    FirstBits(t.nbits)
  }

  /** The masks that mask_holder accepts: of the type's width and, for a type that is not maskable,
      all ones or all zeros. */
  predicate MaskOk(t: Type, bits: Bits) {
    bits <= All(t) && (t.maskable || bits == {} || bits == All(t))
  }

  datatype MaskBase = Mask(t: Type, bits: Bits)
  type Mask = m: MaskBase | MaskOk(m.t, m.bits) witness Mask(Type(0, 0, 0, true), {})

  datatype FieldBase = Field(t: Type, value: Bits, mask: Bits)
  type Field = f: FieldBase | f.value <= f.mask && MaskOk(f.t, f.mask)
    witness Field(Type(0, 0, 0, true), {}, {})

  /** A packet holds the bits of each header field it has; loading any other field throws. */
  type Packet = p: map<Type, Bits> | forall t :: t in p ==> p[t] <= All(t) witness map[]

  // Constructors and mask operators

  function Wildcard(t: Type): Field {
    Field(t, {}, {})
  }

  function MaskOf(f: Field): Mask {
    Mask(f.t, f.mask)
  }

  function Complement(m: Mask): Mask {
    Mask(m.t, All(m.t) - m.bits)
  }

  /** value & mask */
  function Select(t: Type, value: Bits, m: Mask): Field
    requires m.t == t
  {
    Field(t, value * m.bits, m.bits)
  }

  /** field & mask: keep only the bits under the mask. */
  function Widen(f: Field, m: Mask): Field
    requires f.t == m.t
  {
    Field(f.t, f.value * (f.mask * m.bits), f.mask * m.bits)
  }

  /** field & field: the two agree wherever both have a bit. */
  predicate Compatible(a: Field, b: Field)
    requires a.t == b.t
  {
    var m := a.mask * b.mask;
    a.value * m == b.value * m
  }

  /** value >> field */
  function RewriteBits(v: Bits, f: Field): Bits {
    (v - f.mask) + f.value
  }

  /** field >> field */
  function Rewrite(a: Field, b: Field): Field
    requires a.t == b.t
  {
    var m := a.mask + b.mask;
    Field(a.t, RewriteBits(a.value, b) * m, m)
  }

  /** lhs < rhs: the field lhs is included in rhs. */
  predicate Included(a: Field, b: Field)
    requires a.t == b.t
  {
    a.mask * b.mask == b.mask && Compatible(a, b)
  }

  // Packets

  /** What a packet whose field holds the bits v answers to a test of f. */
  predicate BitsHit(v: Bits, f: Field) {
    v * f.mask == f.value
  }

  predicate Hits(p: Packet, f: Field) {
    f.t in p && BitsHit(p[f.t], f)
  }

  function LoadBits(p: Packet, m: Mask): Field
    requires m.t in p
  {
    Select(m.t, p[m.t], m)
  }

  function Patch(p: Packet, f: Field): Packet
    requires f.t in p
  {
    p[f.t := RewriteBits(p[f.t], f)]
  }

  /** Packet::test is a load under the field's own mask followed by a match; it answers Hits. */
  lemma TestIsHits(p: Packet, f: Field)
    requires f.t in p
    ensures Compatible(LoadBits(p, MaskOf(f)), f) <==> Hits(p, f)
  {
    assert f.mask * f.mask == f.mask && f.value * f.mask == f.value;
    assert (p[f.t] * f.mask) * f.mask == p[f.t] * f.mask;
  }

  /** Patching puts the field's value under its mask and leaves every other bit, and field, of the packet. */
  lemma PatchExact(p: Packet, f: Field)
    requires f.t in p
    ensures var p' := Patch(p, f);
            && p'.Keys == p.Keys && Hits(p', f)
            && (forall i | i !in f.mask :: i in p'[f.t] <==> i in p[f.t])
            && (forall t | t in p && t != f.t :: p'[t] == p[t])
  {
    assert RewriteBits(p[f.t], f) * f.mask == f.value;
  }

  /** Rewriting is associative: patching by f and then by g is patching once by f >> g. */
  lemma RewriteAssociative(v: Bits, f: Field, g: Field)
    requires f.t == g.t
    ensures RewriteBits(RewriteBits(v, f), g) == RewriteBits(v, Rewrite(f, g))
  {
    var m := f.mask + g.mask;
    assert RewriteBits(f.value, g) * m == RewriteBits(f.value, g);
  }

  /** The inclusion order of fields is exactly inclusion of the sets of packets they match. */
  lemma IncludedIsInclusion(a: Field, b: Field)
    requires a.t == b.t
    ensures Included(a, b) <==> forall v: Bits | v <= All(a.t) && BitsHit(v, a) :: BitsHit(v, b)
  {
    if Included(a, b) {
      forall v: Bits | v <= All(a.t) && BitsHit(v, a) ensures BitsHit(v, b) {
        IncludedSound(a, b, v);
      }
    } else {
      var v := Separator(a, b);
    }
  }

  lemma IncludedSound(a: Field, b: Field, v: Bits)
    requires a.t == b.t && Included(a, b) && BitsHit(v, a)
    ensures BitsHit(v, b)
  {
    assert v * b.mask == (v * a.mask) * b.mask;
  }

  /** Bits that match a and not b, whenever a is not included in b. */
  lemma Separator(a: Field, b: Field) returns (v: Bits)
    requires a.t == b.t && !Included(a, b)
    ensures v <= All(a.t) && BitsHit(v, a) && !BitsHit(v, b)
  {
    if a.mask * b.mask == b.mask {
      v := a.value;
      assert v * b.mask == a.value * (a.mask * b.mask);
      assert b.value == b.value * (a.mask * b.mask);
    } else {
      // a leaves a bit free that b fixes: take the wrong one
      var i :| i in b.mask && i !in a.mask;
      v := if i in b.value then a.value else a.value + {i};
      assert v * a.mask == a.value;
      assert (i in v * b.mask) != (i in b.value);
    }
  }
}
