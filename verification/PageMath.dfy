/** Byte offsets and the pages they fall in. */
module PageMath {
  /** Offset of page `k`. */
  function PageOff(k: nat, pb: nat): nat { k * pb }

  /** The start of the page holding byte `x`: the source masks with `~(pb - 1)` for powers of two. */
  function PageDown(x: nat, pb: nat): nat
    requires pb > 0
  {
    x - x % pb
  }

  lemma PageDownOf(x: nat, pb: nat)
    requires pb > 0
    ensures PageDown(x, pb) == PageOff(x / pb, pb) <= x < PageOff(x / pb, pb) + pb
    ensures PageDown(x, pb) % pb == 0
  {
    IndexOf(x / pb, pb, 0);
  }

  lemma IndexOf(k: nat, pb: nat, r: nat)
    requires r < pb
    ensures (PageOff(k, pb) + r) / pb == k && (PageOff(k, pb) + r) % pb == r
  {
    Unique(PageOff(k, pb) + r, pb, k);
  }

  lemma Unique(x: nat, pb: nat, k: nat)
    requires pb > 0 && k * pb <= x < k * pb + pb
    ensures x / pb == k && x % pb == x - k * pb
  {
    StepMul(x / pb, k, pb);
    StepMul(k, x / pb, pb);
  }

  lemma StepMul(a: nat, b: nat, pb: nat)
    ensures a < b ==> a * pb + pb <= b * pb
  {
    if a < b {
      assert b * pb == (a + 1) * pb + (b - a - 1) * pb by { Dist(a + 1, b - a - 1, pb); }
      Dist(a, 1, pb);
    }
  }

  lemma Dist(a: nat, b: nat, c: nat)
    ensures (a + b) * c == a * c + b * c && b * c >= 0
  {}

  lemma NextOff(k: nat, pb: nat)
    ensures PageOff(k + 1, pb) == PageOff(k, pb) + pb
  {
    Dist(k, 1, pb);
  }

  lemma OffOrder(a: nat, b: nat, pb: nat)
    requires pb > 0
    ensures a <= b <==> PageOff(a, pb) <= PageOff(b, pb)
    ensures a == b <==> PageOff(a, pb) == PageOff(b, pb)
  {
    StepMul(a, b, pb);
    StepMul(b, a, pb);
  }

  /** The cyclic hand reaches every frame within one turn. */
  lemma Reach(hand: nat, n: nat, i: nat) returns (j: nat)
    requires i < n
    ensures j < n && (hand + j) % n == i
  {
    PageDownOf(hand, n);
    var r := hand % n;
    j := if r <= i then i - r else i + n - r;
    if r <= i {
      IndexOf(hand / n, n, i);
    } else {
      NextOff(hand / n, n);
      IndexOf(hand / n + 1, n, i);
    }
  }

  lemma DivBetween(a: nat, x: nat, b: nat, pb: nat)
    requires pb > 0 && a <= x <= b
    ensures a / pb <= x / pb <= b / pb
  {
    StepMul(x / pb, a / pb, pb);
    StepMul(b / pb, x / pb, pb);
  }
}
