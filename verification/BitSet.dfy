/** The byte-packed marks the tools keep: bit `i & 7` of byte `i >> 3`. */
module BitSets {
  function Bit(k: nat): bv8
    requires k < 8
  {
    match k
    case 0 => 1 case 1 => 2 case 2 => 4 case 3 => 8
    case 4 => 16 case 5 => 32 case 6 => 64 case _ => 128
  }

  /** Setting one bit sets that bit and no other. */
  lemma OrBit(b: bv8, j: nat, k: nat)
    requires j < 8 && k < 8
    ensures (b | Bit(j)) & Bit(k) != 0 <==> j == k || b & Bit(k) != 0
  {}

  predicate BitOf(b: bv8, k: nat)
    requires k < 8
  {
    b & Bit(k) != 0
  }

  function WithBit(b: bv8, k: nat): bv8
    requires k < 8
  {
    b | Bit(k)
  }

  predicate Member(b: seq<bv8>, i: nat) {
    i / 8 < |b| && BitOf(b[i / 8], i % 8)
  }

  function Marking(b: seq<bv8>, i: nat): seq<bv8>
    requires i / 8 < |b|
  {
    b[i / 8 := WithBit(b[i / 8], i % 8)]
  }

  lemma MarkOne(b: seq<bv8>, i: nat, j: nat)
    requires i / 8 < |b|
    ensures Member(Marking(b, i), j) <==> j == i || Member(b, j)
  {
    OrBit(b[i / 8], i % 8, j % 8);
    assert BitOf(WithBit(b[i / 8], i % 8), j % 8) <==> i % 8 == j % 8 || BitOf(b[i / 8], j % 8);
    hide BitOf, WithBit;
    assert j == i <==> j / 8 == i / 8 && j % 8 == i % 8;
  }

  class BitSet {
    const size: nat
    const bytes: array<bv8>

    ghost predicate Valid()
    {
      bytes.Length == (size + 7) / 8
    }

    /** Everything marked. */
    ghost function Marked(): (r: set<nat>)
      requires Valid()
      reads bytes
      ensures forall i: nat :: i in r <==> i < size && Member(bytes[..], i)
    {
      set i: nat | 0 <= i < size && Member(bytes[..], i)
    }

    constructor (n: nat)
      ensures Valid() && fresh(bytes) && size == n && Marked() == {}
    {
      size := n;
      bytes := new bv8[(n + 7) / 8](_ => 0);
    }

    method Mark(i: nat)
      requires Valid() && i < size
      modifies bytes
      ensures Marked() == old(Marked()) + {i}
    {
      hide BitOf, WithBit, Member;
      ghost var was := bytes[..];
      bytes[i / 8] := WithBit(bytes[i / 8], i % 8);
      assert bytes[..] == Marking(was, i);
      forall j: nat ensures Member(bytes[..], j) <==> j == i || Member(was, j) { MarkOne(was, i, j); }
    }

    method Test(i: nat) returns (b: bool)
      requires Valid() && i < size
      ensures b <==> i in Marked()
    {
      b := BitOf(bytes[i / 8], i % 8);
    }
  }
}
