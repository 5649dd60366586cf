/** Prefix namespaces (src/quicr_namespace.cpp): the mask built by shifting,
    containment, and what containment means for the names as numbers. */
module Namespaces {
  import opened Bits
  import opened Names

  datatype Namespace = Namespace(name: Name, sigBits: uint8)

  /** The name whose first `sigBits` bits are one. */
  function Mask(sigBits: uint8): Name {
    BitNot(ShiftRight(BitNot(Name(0, 0)), sigBits))
  }

  /** The masking constructor. */
  function MakeNamespace(name: Name, sigBits: uint8): (ns: Namespace)
    ensures Masked(ns)
  {
    var mask := Mask(sigBits);
    AndIdempotent(name.hi, mask.hi);
    AndIdempotent(name.low, mask.low);
    Namespace(BitAnd(name, mask), sigBits)
  }

  /** What every namespace built by the masking constructor satisfies. */
  predicate Masked(ns: Namespace) {
    BitAnd(ns.name, Mask(ns.sigBits)) == ns.name
  }

  predicate Contains(ns: Namespace, name: Name) {
    BitAnd(name, Mask(ns.sigBits)) == ns.name
  }

  predicate ContainsNamespace(ns: Namespace, prefix: Namespace) {
    Contains(ns, prefix.name)
  }

  /** The names of `b` all belong to `a`. */
  ghost predicate Covers(a: Namespace, b: Namespace) {
    forall x :: Contains(b, x) ==> Contains(a, x)
  }

  /** How many names a namespace of this length holds. */
  ghost function BlockSize(sigBits: nat): nat
    requires sigBits < 128
  {
    Pow2(128 - sigBits)
  }

  // Properties.

  lemma MaskValue(sigBits: uint8)
    requires sigBits < 128
    ensures BlockSize(sigBits) <= TWO_128
    ensures Mask(sigBits).Num() == TWO_128 - BlockSize(sigBits)
  {
    var ones := BitNot(Name(0, 0));
    var p, q := Pow2(sigBits), BlockSize(sigBits);
    ShiftRightIsDivision(ones, sigBits);
    Pow2Name();
    Pow2Add(sigBits, 128 - sigBits);
    OnesQuotient(p, q);
  }

  lemma OnesQuotient(p: nat, q: nat)
    requires 0 < p && 0 < q && p * q == TWO_128
    ensures (TWO_128 - 1) / p == q - 1 <= TWO_128 - 1
  {
    DivUnique(TWO_128 - 1, p, q - 1, p - 1);
    DivBounds(TWO_128 - 1, p);
  }

  /** Masking rounds the name down to a multiple of the block size. */
  lemma MaskRoundsDown(name: Name, sigBits: uint8)
    requires sigBits < 128
    ensures BitAnd(name, Mask(sigBits)).Num() == name.Num() - name.Num() % BlockSize(sigBits)
  {
    MaskValue(sigBits);
    BitAndIsLimbwise(name, Mask(sigBits));
    Pow2Name();
    AndHighMask(name.Num(), 128 - sigBits, 128, Mask(sigBits).Num());
  }

  lemma ContainsIsSameBlock(ns: Namespace, x: Name)
    requires Masked(ns) && ns.sigBits < 128
    ensures Contains(ns, x) <==> x.Num() - x.Num() % BlockSize(ns.sigBits) == ns.name.Num()
    ensures ns.name.Num() % BlockSize(ns.sigBits) == 0
  {
    MaskRoundsDown(ns.name, ns.sigBits);
    MaskRoundsDown(x, ns.sigBits);
    if BitAnd(x, Mask(ns.sigBits)).Num() == ns.name.Num() {
      NumIsInjective();
    }
  }

  lemma SameBlock(x: nat, start: nat, size: nat)
    requires 0 < size && start % size == 0
    ensures x - x % size == start <==> start <= x < start + size
  {
    if start <= x < start + size {
      DivUnique(x, size, start / size, x - start);
    }
  }

  /** A namespace holds exactly an interval of names, of the size its length
      calls for. */
  lemma ContainsIffInterval(ns: Namespace, x: Name)
    requires Masked(ns) && ns.sigBits < 128
    ensures Contains(ns, x) <==>
      ns.name.Num() <= x.Num() < ns.name.Num() + BlockSize(ns.sigBits)
  {
    ContainsIsSameBlock(ns, x);
    SameBlock(x.Num(), ns.name.Num(), BlockSize(ns.sigBits));
  }

  /** Names in one block of the longer prefix share their block of the shorter. */
  lemma BlocksNest(ns: Namespace, x: Name, y: Name, sigBits: uint8)
    requires Masked(ns) && ns.sigBits <= sigBits < 128
    requires BitAnd(x, Mask(sigBits)) == BitAnd(y, Mask(sigBits))
    ensures Contains(ns, x) <==> Contains(ns, y)
  {
    var small, factor := BlockSize(sigBits), Pow2(sigBits - ns.sigBits);
    Pow2Add(128 - sigBits, sigBits - ns.sigBits);
    MaskRoundsDown(x, sigBits);
    MaskRoundsDown(y, sigBits);
    ContainsIsSameBlock(ns, x);
    ContainsIsSameBlock(ns, y);
    SameLargerBlock(x.Num(), y.Num(), small, factor);
  }

  lemma SameLargerBlock(x: nat, y: nat, small: nat, factor: nat)
    requires 0 < small && 0 < factor && x - x % small == y - y % small
    ensures 0 < small * factor && x - x % (small * factor) == y - y % (small * factor)
  {
    DivDiv(x, small, factor);
    DivDiv(y, small, factor);
    SameQuotient(x, y, small);
  }

  lemma SameQuotient(x: nat, y: nat, d: nat)
    requires 0 < d && x - x % d == y - y % d
    ensures x / d == y / d
  {
    DivUnique(x, d, y / d, x % d);
  }

  lemma ContainsOwnName(ns: Namespace)
    requires Masked(ns)
    ensures Contains(ns, ns.name)
  {}

  /** Two namespaces are nested or disjoint. */
  lemma NestedOrDisjoint(a: Namespace, b: Namespace)
    requires Masked(a) && Masked(b) && a.sigBits <= b.sigBits < 128
    ensures Covers(a, b) || forall x :: !(Contains(a, x) && Contains(b, x))
    ensures Covers(a, b) <==> ContainsNamespace(a, b)
  {
    ContainsOwnName(b);
    forall x | Contains(b, x)
      ensures Contains(a, x) <==> Contains(a, b.name)
    {
      BlocksNest(a, x, b.name, b.sigBits);
    }
  }

  /** `contains` of a namespace looks at its name alone. It means inclusion of
      all the names exactly when the argument is at least as long. */
  lemma ContainsNamespaceIffCovers(a: Namespace, b: Namespace)
    requires Masked(a) && Masked(b) && a.sigBits < 128 && b.sigBits < 128
    ensures Covers(a, b) <==> ContainsNamespace(a, b) && a.sigBits <= b.sigBits
  {
    if a.sigBits <= b.sigBits {
      NestedOrDisjoint(a, b);
    } else {
      var x := LeftOut(a, b);
    }
  }

  /** A shorter namespace has a name that the longer lacks. */
  lemma LeftOut(a: Namespace, b: Namespace) returns (x: Name)
    requires Masked(a) && Masked(b) && b.sigBits < a.sigBits < 128
    ensures Contains(b, x) && !Contains(a, x)
  {
    x := LastName(b);
    ContainsIffInterval(a, x);
    Pow2Mono(129 - a.sigBits, 128 - b.sigBits);
    if Contains(a, x) {
      ContainsOwnName(b);
      ContainsIffInterval(a, b.name);
      x := b.name;
    }
  }

  /** The greatest name of a namespace. */
  lemma LastName(ns: Namespace) returns (x: Name)
    requires Masked(ns) && ns.sigBits < 128
    ensures Contains(ns, x) && x.Num() == ns.name.Num() + BlockSize(ns.sigBits) - 1
  {
    var size, v := BlockSize(ns.sigBits), ns.name.Num();
    ContainsIsSameBlock(ns, ns.name);
    Pow2Name();
    Pow2Add(128 - ns.sigBits, ns.sigBits);
    BlockFits(v, size, Pow2(ns.sigBits));
    x := OfNum(v + size - 1);
    ContainsIffInterval(ns, x);
  }

  lemma BlockFits(v: nat, size: nat, count: nat)
    requires 0 < size && v % size == 0 && v < size * count
    ensures v + size <= size * count
  {
    var q := v / size;
    assert v == size * q;
    if q >= count {
      MulMono(count, q, size);
    }
    MulMono(q + 1, count, size);
  }

  /** A length of 128 or more counts as one between 64 and 127. */
  lemma LongLengthWraps(sigBits: uint8)
    requires 128 <= sigBits
    ensures Mask(sigBits) == Mask(64 + sigBits % 64)
  {}
}
