/**
 The software tier map: logical bytes striped over RAM and SSD in proportion
 to the number of whole stripes on each (vmem_sw_layout.h).  All arithmetic
 is that of unsigned 64-bit words; `Wrap` marks every place it can overflow.
 */
module TierMap {
  import opened Common
  import opened Counting

  const U64: nat := 0x1_0000_0000_0000_0000

  datatype Tier = Ram | Ssd

  datatype Layout = Layout(
    ramSize: nat, ssdSize: nat, logicalSize: nat, stripeSize: nat,
    ramStripes: nat, ssdStripes: nat, fullStripes: nat, fullSpan: nat, ssdTail: nat)

  datatype Mapping = Mapping(tier: Tier, tierOffset: nat, contiguous: nat)

  function Wrap(x: int): nat { x % U64 }

  /** The fields the device opener derives from the four sizes the driver reports. */
  function Describe(ramSize: nat, ssdSize: nat, logicalSize: nat, stripeSize: nat): Layout
    requires stripeSize > 0
  {
    var ramStripes := ramSize / stripeSize;
    var ssdStripes := ssdSize / stripeSize;
    var fullStripes := Wrap(ramStripes + ssdStripes);
    Layout(ramSize, ssdSize, logicalSize, stripeSize, ramStripes, ssdStripes,
           fullStripes, Wrap(fullStripes * stripeSize), ssdSize % stripeSize)
  }

  /** A layout the device opener can produce, with sizes that fit a machine word together. */
  ghost predicate Opened(l: Layout) {
    && l.stripeSize > 0
    && l == Describe(l.ramSize, l.ssdSize, l.logicalSize, l.stripeSize)
    && l.ramSize + l.ssdSize < U64
    && l.logicalSize < U64
  }

  /** RAM stripes before stripe `s`, as the 64-bit code computes it. */
  function Before(a: nat, f: nat, s: nat): nat
    requires f > 0
  {
    Wrap(s * a) / f
  }

  /** Byte `inStripe` of a stripe whose RAM counts before and after it are given. */
  function Place(before: nat, after: nat, stripe: nat, stripeSize: nat, inStripe: nat): Mapping
    requires inStripe < stripeSize
  {
    if after != before then
      Mapping(Ram, Wrap(Wrap(before * stripeSize) + inStripe), stripeSize - inStripe)
    else
      Mapping(Ssd, Wrap(Wrap((stripe - before) * stripeSize) + inStripe), stripeSize - inStripe)
  }

  /** The offset translation; None is the error return. */
  function MapOffset(l: Layout, logical: nat): Option<Mapping>
    requires l.stripeSize > 0 ==> Opened(l)
  {
    if l.stripeSize == 0 || logical >= l.logicalSize then None else
    if logical >= l.fullSpan then
      Some(Mapping(Ssd, Wrap(Wrap(l.ssdStripes * l.stripeSize) + (logical - l.fullSpan)),
                   l.logicalSize - logical))
    else
      NoSpanWrap(l);
      var stripe := logical / l.stripeSize;
      Some(Place(Before(l.ramStripes, l.fullStripes, stripe),
                 Before(l.ramStripes, l.fullStripes, Wrap(stripe + 1)),
                 stripe, l.stripeSize, logical % l.stripeSize))
  }

  function Size(l: Layout, t: Tier): nat {
    if t.Ram? then l.ramSize else l.ssdSize
  }

  /** Where a logical byte lives, once the translation is known to succeed. */
  ghost predicate Lands(l: Layout, x: nat, t: Tier, off: nat)
    requires l.stripeSize > 0 ==> Opened(l)
  {
    var m := MapOffset(l, x);
    m.Some? && m.value.tier == t && m.value.tierOffset == off
  }

  ghost predicate Reached(l: Layout, t: Tier, off: nat)
    requires Opened(l)
  {
    exists x: nat :: Lands(l, x, t, off)
  }

  ghost predicate InRange(l: Layout)
    requires Opened(l)
  {
    forall x: nat :: x < l.logicalSize ==>
      MapOffset(l, x).Some? && MapOffset(l, x).value.tierOffset < Size(l, MapOffset(l, x).value.tier)
  }

  ghost predicate Injective(l: Layout)
    requires Opened(l)
  {
    forall x: nat, y: nat, t: Tier, off: nat :: Lands(l, x, t, off) && Lands(l, y, t, off) ==> x == y
  }

  ghost predicate Onto(l: Layout)
    requires Opened(l)
  {
    forall t: Tier, off: nat :: off < Size(l, t) ==> Reached(l, t, off)
  }

  /** Logical bytes correspond one to one with all RAM bytes and all SSD bytes. */
  ghost predicate Bijective(l: Layout)
    requires Opened(l)
  {
    InRange(l) && Injective(l) && Onto(l)
  }

  // ---------------------------------------------------------------- arithmetic

  lemma Distribute(a: int, b: int, s: int)
    ensures (a + b) * s == a * s + b * s
  {}

  lemma MulStep(d: int, q: int, f: nat)
    ensures d < q ==> d * f + f <= q * f
  {
    if d < q {
      Distribute(d + 1, q - d - 1, f);
      Distribute(d, 1, f);
      MulNonNeg(q - d - 1, f);
    }
  }

  lemma MulNonNeg(a: nat, b: nat)
    ensures 0 <= a * b
  {}

  lemma DivUnique(x: nat, f: nat, q: nat)
    requires f > 0 && q * f <= x < q * f + f
    ensures x / f == q
  {
    MulStep(x / f, q, f);
    MulStep(q, x / f, f);
  }

  lemma DivStep(x: nat, a: nat, f: nat)
    requires f > 0 && a <= f
    ensures x / f <= (x + a) / f <= x / f + 1
  {
    var q := x / f;
    if x + a < q * f + f { DivUnique(x + a, f, q); } else { DivUnique(x + a, f, q + 1); }
  }

  lemma DivLess(x: nat, f: nat, q: nat)
    requires f > 0 && x < q * f
    ensures x / f < q
  {
    MulStep(q - 1, x / f, f);
  }

  lemma Small(x: nat)
    requires x < U64
    ensures Wrap(x) == x
  {}

  /** With sizes that fit a word, the derived fields never wrap. */
  lemma NoSpanWrap(l: Layout)
    requires Opened(l)
    ensures l.fullStripes == l.ramStripes + l.ssdStripes
    ensures l.fullSpan == l.fullStripes * l.stripeSize == l.ramStripes * l.stripeSize + l.ssdStripes * l.stripeSize
    ensures l.ramStripes * l.stripeSize + l.ramSize % l.stripeSize == l.ramSize
    ensures l.ssdStripes * l.stripeSize + l.ssdTail == l.ssdSize
    ensures l.fullSpan > 0 ==> l.fullStripes > 0
  {
    var s := l.stripeSize;
    DivMod(l.ramSize, s);
    DivMod(l.ssdSize, s);
    Distribute(l.ramSize / s, l.ssdSize / s, s);
  }

  lemma DivMod(x: nat, s: nat)
    requires s > 0
    ensures x == (x / s) * s + x % s && x / s <= (x / s) * s
  {
    MulStep(1, s, x / s);
  }

  // ------------------------------------------------------------ whole stripes

  /** The same count over the integers. */
  ghost function Exact(a: nat, f: nat, s: nat): nat
    requires f > 0
  {
    (s * a) / f
  }

  lemma ExactStep(a: nat, f: nat, s: nat)
    requires 0 < f && a <= f
    ensures Exact(a, f, s) <= Exact(a, f, s + 1) <= Exact(a, f, s) + 1
  {
    Distribute(s, 1, a);
    DivStep(s * a, a, f);
  }

  lemma ExactEnd(a: nat, f: nat)
    requires 0 < f
    ensures Exact(a, f, 0) == 0 && Exact(a, f, f) == a
  {
    DivUnique(f * a, f, a);
  }

  /** Neither the RAM count nor the SSD count ever goes down from stripe to stripe. */
  lemma {:induction false} ExactMonotone(a: nat, f: nat, s: nat, t: nat)
    requires 0 < f && a <= f && s <= t
    ensures Exact(a, f, s) <= Exact(a, f, t) <= Exact(a, f, s) + (t - s)
    decreases t - s
  {
    if s < t {
      ExactMonotone(a, f, s, t - 1);
      ExactStep(a, f, t - 1);
    }
  }

  /** Stripe `r` of RAM is somewhere: the count climbs from 0 to `a` in steps of one. */
  lemma {:induction false} FindRam(a: nat, f: nat, r: nat, hi: nat) returns (s: nat)
    requires 0 < f && a <= f && r < Exact(a, f, hi)
    ensures s < hi && Exact(a, f, s) == r && Exact(a, f, s + 1) == r + 1
    decreases hi
  {
    ExactEnd(a, f);
    ExactStep(a, f, hi - 1);
    if Exact(a, f, hi - 1) == r { s := hi - 1; } else { s := FindRam(a, f, r, hi - 1); }
  }

  lemma {:induction false} FindSsd(a: nat, f: nat, r: nat, hi: nat) returns (s: nat)
    requires 0 < f && a <= f && r < hi - Exact(a, f, hi)
    ensures s < hi && Exact(a, f, s) == Exact(a, f, s + 1) == s - r
    decreases hi
  {
    ExactEnd(a, f);
    ExactStep(a, f, hi - 1);
    if hi - 1 - Exact(a, f, hi - 1) == r { s := hi - 1; } else { s := FindSsd(a, f, r, hi - 1); }
  }

  /** A RAM stripe number is always below the number of RAM stripes, wrapped or not. */
  lemma BeforeBound(a: nat, f: nat, s: nat)
    requires s < f
    ensures Before(a, f, s) <= Exact(a, f, s)
    ensures if a == 0 then Before(a, f, s) == 0 else Exact(a, f, s) < a
  {
    MulStep(s, f, a);
    if a > 0 { DivLess(s * a, f, a); }
    WrapLe(s * a);
    DivMonotone(Wrap(s * a), s * a, f);
  }

  lemma WrapLe(x: nat)
    ensures Wrap(x) <= x
  {}

  lemma DivMonotone(x: nat, y: nat, f: nat)
    requires x <= y && f > 0
    ensures x / f <= y / f
  {
    MulStep(y / f, x / f, f);
  }

  lemma NoWrapBefore(a: nat, f: nat, s: nat, top: nat)
    requires 0 < f && s <= top && top * a < U64
    ensures Before(a, f, s) == Exact(a, f, s)
  {
    MulLe(s, top, a);
    Small(s * a);
  }

  lemma MulLe(s: nat, t: nat, a: nat)
    requires s <= t
    ensures s * a <= t * a
  {
    MulStep(s, t, a);
    MulNonNeg(s, a);
  }

  /** While the product for the last stripe fits a word, wrapping never moves a stripe. */
  lemma StripeExact(a: nat, f: nat, s: nat)
    requires s < f < U64 && a <= f && (f - 1) * a < U64
    ensures Before(a, f, s) == Exact(a, f, s)
    ensures Wrap(s + 1) == s + 1
    ensures Before(a, f, s + 1) != Before(a, f, s) <==> Exact(a, f, s + 1) == Exact(a, f, s) + 1
  {
    Small(s + 1);
    NoWrapBefore(a, f, s, f - 1);
    ExactStep(a, f, s);
    if s + 1 < f {
      NoWrapBefore(a, f, s + 1, f - 1);
    } else {
      LastStripe(a, f);
    }
  }

  lemma LastStripe(a: nat, f: nat)
    requires 0 < f < U64 && a <= f && (f - 1) * a < U64
    ensures Before(a, f, f) != Exact(a, f, f - 1) <==> Exact(a, f, f) == Exact(a, f, f - 1) + 1
  {
    ExactEnd(a, f);
    ExactStep(a, f, f - 1);
    if f * a < U64 {
      NoWrapBefore(a, f, f, f);
    } else {
      SecondToLast(a, f);
      WrapOnce(f * a, a, f);
    }
  }

  lemma SecondToLast(a: nat, f: nat)
    requires 0 < f < U64 && a <= f && f * a >= U64
    ensures a >= 2 && f * a - a == (f - 1) * a && Exact(a, f, f - 1) == a - 1
  {
    SmallFactor(a, f);
    Distribute(f - 1, 1, a);
    Distribute(a - 1, 1, f);
    Commute(a, f);
    DivUnique((f - 1) * a, f, a - 1);
  }

  lemma SmallFactor(a: nat, f: nat)
    requires f < U64 && f * a >= U64
    ensures a >= 2
  {}

  lemma Commute(a: nat, b: nat)
    ensures a * b == b * a
  {}

  lemma WrapOnce(p: nat, a: nat, f: nat)
    requires U64 <= p < U64 + a && a <= f < U64
    ensures Wrap(p) / f == 0
  {
    WrapMinus(p);
    DivUnique(p - U64, f, 0);
  }

  lemma WrapMinus(p: nat)
    requires U64 <= p < 2 * U64
    ensures Wrap(p) == p - U64
  {}

  // ------------------------------------------------------------ bytes

  ghost function RamStripe(l: Layout, s: nat): bool
    requires 0 < l.fullStripes
  {
    Exact(l.ramStripes, l.fullStripes, s + 1) == Exact(l.ramStripes, l.fullStripes, s) + 1
  }

  ghost predicate WordSafe(l: Layout) {
    (l.fullStripes - 1) * l.ramStripes < U64
  }

  /** The exact place of byte `i` of stripe `s`. */
  ghost function StripeByte(l: Layout, s: nat, i: nat): Mapping
    requires 0 < l.fullStripes && i < l.stripeSize
  {
    var e := Exact(l.ramStripes, l.fullStripes, s);
    if RamStripe(l, s) then Mapping(Ram, e * l.stripeSize + i, l.stripeSize - i)
    else Mapping(Ssd, (if e <= s then s - e else 0) * l.stripeSize + i, l.stripeSize - i)
  }

  lemma PlaceStripe(l: Layout, s: nat, i: nat)
    requires Opened(l) && WordSafe(l) && s < l.fullStripes && i < l.stripeSize
    ensures Wrap(s + 1) == s + 1
    ensures Place(Before(l.ramStripes, l.fullStripes, s), Before(l.ramStripes, l.fullStripes, s + 1),
                  s, l.stripeSize, i) == StripeByte(l, s, i)
  {
    NoSpanWrap(l);
    StripeRange(l, s);
    var e := Exact(l.ramStripes, l.fullStripes, s);
    PlaceExact(e, Before(l.ramStripes, l.fullStripes, s + 1), s, l.stripeSize, i,
               if RamStripe(l, s) then l.ramStripes else l.ssdStripes, Size(l, if RamStripe(l, s) then Ram else Ssd));
  }

  /** What a translation below the striped span comes to when no product overflows. */
  lemma StripedOffset(l: Layout, x: nat)
    requires Opened(l) && WordSafe(l) && x < l.logicalSize && x < l.fullSpan
    ensures 0 < l.fullStripes && x / l.stripeSize < l.fullStripes
    ensures MapOffset(l, x) == Some(StripeByte(l, x / l.stripeSize, x % l.stripeSize))
  {
    StripeIndex(l, x);
    PlaceStripe(l, x / l.stripeSize, x % l.stripeSize);
  }

  lemma PlaceExact(before: nat, after: nat, stripe: nat, stripeSize: nat, i: nat, n: nat, size: nat)
    requires i < stripeSize && before <= stripe && n * stripeSize <= size < U64
    requires (if after != before then before else stripe - before) < n
    ensures Place(before, after, stripe, stripeSize, i) ==
            Mapping(if after != before then Ram else Ssd,
                    (if after != before then before else stripe - before) * stripeSize + i, stripeSize - i)
  {
    OffsetFits(if after != before then before else stripe - before, n, stripeSize, i, size);
  }

  lemma StripeIndex(l: Layout, x: nat)
    requires Opened(l) && x < l.fullSpan
    ensures 0 < l.fullStripes && x / l.stripeSize < l.fullStripes
    ensures l.ramStripes * l.stripeSize <= l.ramSize < U64 && l.ssdStripes * l.stripeSize <= l.ssdSize < U64
  {
    NoSpanWrap(l);
    DivLess(x, l.stripeSize, l.fullStripes);
  }

  lemma StripeRange(l: Layout, s: nat)
    requires Opened(l) && WordSafe(l) && s < l.fullStripes
    ensures Before(l.ramStripes, l.fullStripes, s) == Exact(l.ramStripes, l.fullStripes, s)
    ensures Wrap(s + 1) == s + 1
    ensures Before(l.ramStripes, l.fullStripes, s + 1) != Before(l.ramStripes, l.fullStripes, s) <==> RamStripe(l, s)
    ensures var e := Exact(l.ramStripes, l.fullStripes, s);
            && e <= s
            && (if RamStripe(l, s) then e < l.ramStripes else s - e < l.ssdStripes)
  {
    NoSpanWrap(l);
    var a, f := l.ramStripes, l.fullStripes;
    DivMod(l.ramSize, l.stripeSize);
    DivMod(l.ssdSize, l.stripeSize);
    StripeExact(a, f, s);
    ExactStep(a, f, s);
    ExactEnd(a, f);
    ExactMonotone(a, f, 0, s);
    ExactMonotone(a, f, s + 1, f);
  }

  lemma OffsetFits(q: nat, n: nat, stripe: nat, i: nat, size: nat)
    requires q < n && i < stripe && n * stripe <= size < U64
    ensures q * stripe + i < n * stripe
    ensures Wrap(Wrap(q * stripe) + i) == q * stripe + i
  {
    MulStep(q, n, stripe);
    Small(q * stripe);
    Small(q * stripe + i);
  }

  lemma TailOffset(l: Layout, x: nat)
    requires Opened(l) && l.fullSpan <= x < l.logicalSize
    requires l.ssdStripes * l.stripeSize + (l.logicalSize - l.fullSpan) < U64
    ensures MapOffset(l, x) == Some(Mapping(Ssd, l.ssdStripes * l.stripeSize + (x - l.fullSpan), l.logicalSize - x))
  {
    NoSpanWrap(l);
    Small(l.ssdStripes * l.stripeSize);
    Small(l.ssdStripes * l.stripeSize + (x - l.fullSpan));
  }

  lemma SplitByte(q: nat, i: nat, r: nat, j: nat, m: nat)
    requires i < m && j < m && q * m + i == r * m + j
    ensures q == r && i == j
  {
    DivUnique(q * m + i, m, q);
    DivUnique(q * m + i, m, r);
  }

  /** Distinct bytes of the striped span never share a place. */
  lemma StripeByteInjective(l: Layout, s: nat, i: nat, t: nat, j: nat)
    requires Opened(l) && WordSafe(l) && s < l.fullStripes && t < l.fullStripes
    requires i < l.stripeSize && j < l.stripeSize
    requires StripeByte(l, s, i).tier == StripeByte(l, t, j).tier
    requires StripeByte(l, s, i).tierOffset == StripeByte(l, t, j).tierOffset
    ensures s == t && i == j
  {
    StripeRange(l, s);
    StripeRange(l, t);
    var a, f := l.ramStripes, l.fullStripes;
    var es, et := Exact(a, f, s), Exact(a, f, t);
    if RamStripe(l, s) { SplitByte(es, i, et, j, l.stripeSize); } else { SplitByte(s - es, i, t - et, j, l.stripeSize); }
    NoSpanWrap(l);
    if s < t { ExactMonotone(a, f, s + 1, t); }
    if t < s { ExactMonotone(a, f, t + 1, s); }
    ExactStep(a, f, s);
    ExactStep(a, f, t);
  }

  /** Striped bytes stay inside the whole stripes of their tier. */
  lemma StripeByteBound(l: Layout, s: nat, i: nat)
    requires Opened(l) && WordSafe(l) && s < l.fullStripes && i < l.stripeSize
    ensures var m := StripeByte(l, s, i); m.tierOffset < Whole(l, m.tier)
  {
    NoSpanWrap(l);
    StripeRange(l, s);
    var e := Exact(l.ramStripes, l.fullStripes, s);
    if RamStripe(l, s) {
      OffsetFits(e, l.ramStripes, l.stripeSize, i, l.ramSize);
    } else {
      OffsetFits(s - e, l.ssdStripes, l.stripeSize, i, l.ssdSize);
    }
  }

  /** Every byte of the whole stripes of either tier belongs to some stripe. */
  lemma StripeByteOnto(l: Layout, t: Tier, off: nat) returns (s: nat, i: nat)
    requires Opened(l) && WordSafe(l) && off < Whole(l, t)
    ensures 0 < l.fullStripes && s < l.fullStripes && i < l.stripeSize
    ensures StripeByte(l, s, i).tier == t && StripeByte(l, s, i).tierOffset == off
  {
    var q;
    q, i := WholeStripe(l, t, off);
    s := FindStripe(l, t, q);
  }

  lemma WholeStripe(l: Layout, t: Tier, off: nat) returns (q: nat, i: nat)
    requires l.stripeSize > 0 && off < Whole(l, t)
    ensures off == q * l.stripeSize + i && i < l.stripeSize
    ensures q < if t.Ram? then l.ramStripes else l.ssdStripes
  {
    q, i := off / l.stripeSize, off % l.stripeSize;
    DivLess(off, l.stripeSize, if t.Ram? then l.ramStripes else l.ssdStripes);
    DivMod(off, l.stripeSize);
  }

  lemma FindStripe(l: Layout, t: Tier, q: nat) returns (s: nat)
    requires Opened(l) && q < if t.Ram? then l.ramStripes else l.ssdStripes
    ensures 0 < l.fullStripes && s < l.fullStripes
    ensures RamStripe(l, s) <==> t.Ram?
    ensures Exact(l.ramStripes, l.fullStripes, s) == if t.Ram? then q else s - q
  {
    NoSpanWrap(l);
    ExactEnd(l.ramStripes, l.fullStripes);
    if t.Ram? {
      s := FindRam(l.ramStripes, l.fullStripes, q, l.fullStripes);
    } else {
      s := FindSsd(l.ramStripes, l.fullStripes, q, l.fullStripes);
    }
  }

  lemma SpanIndex(l: Layout, s: nat, i: nat)
    requires Opened(l) && s < l.fullStripes && i < l.stripeSize
    ensures s * l.stripeSize + i < l.fullSpan
    ensures (s * l.stripeSize + i) / l.stripeSize == s && (s * l.stripeSize + i) % l.stripeSize == i
  {
    NoSpanWrap(l);
    MulStep(s, l.fullStripes, l.stripeSize);
    DivUnique(s * l.stripeSize + i, l.stripeSize, s);
    DivMod(s * l.stripeSize + i, l.stripeSize);
  }

  /** Bytes of a tier that lie in whole stripes. */
  ghost function Whole(l: Layout, t: Tier): nat {
    (if t.Ram? then l.ramStripes else l.ssdStripes) * l.stripeSize
  }

  lemma Sizes(l: Layout)
    requires Opened(l)
    ensures l.fullSpan == Whole(l, Ram) + Whole(l, Ssd)
    ensures l.ramSize == Whole(l, Ram) + l.ramSize % l.stripeSize
    ensures l.ssdSize == Whole(l, Ssd) + l.ssdTail
    ensures l.ssdTail < l.stripeSize
  {
    NoSpanWrap(l);
  }

  // ------------------------------------------------------------ the theorems

  ghost predicate Aligned(l: Layout)
    requires l.stripeSize > 0
  {
    l.ramSize % l.stripeSize == 0 && l.logicalSize == l.ramSize + l.ssdSize
  }

  /** A byte of the striped span, with the stripe it falls in. */
  lemma LandsInStripe(l: Layout, x: nat) returns (s: nat, i: nat)
    requires Opened(l) && WordSafe(l) && x < l.logicalSize && x < l.fullSpan
    ensures 0 < l.fullStripes && s < l.fullStripes && i < l.stripeSize && x == s * l.stripeSize + i
    ensures MapOffset(l, x) == Some(StripeByte(l, s, i))
    ensures StripeByte(l, s, i).tierOffset < Whole(l, StripeByte(l, s, i).tier)
  {
    hide Before, Exact, MapOffset;
    StripedOffset(l, x);
    s, i := x / l.stripeSize, x % l.stripeSize;
    StripeByteBound(l, s, i);
    DivMod(x, l.stripeSize);
  }

  lemma LandsInTail(l: Layout, x: nat)
    requires Opened(l) && l.fullSpan <= x < l.logicalSize <= l.ramSize + l.ssdSize
    ensures MapOffset(l, x) == Some(Mapping(Ssd, Whole(l, Ssd) + (x - l.fullSpan), l.logicalSize - x))
  {
    Sizes(l);
    TailOffset(l, x);
  }

  lemma SoundInRange(l: Layout)
    requires Opened(l) && WordSafe(l) && Aligned(l)
    ensures InRange(l)
  {
    hide MapOffset, StripeByte, Whole, Describe;
    Sizes(l);
    forall x: nat | x < l.logicalSize
      ensures MapOffset(l, x).Some? && MapOffset(l, x).value.tierOffset < Size(l, MapOffset(l, x).value.tier)
    {
      if x < l.fullSpan {
        var s, i := LandsInStripe(l, x);
      } else {
        LandsInTail(l, x);
      }
    }
  }

  lemma StripedApart(l: Layout, x: nat, y: nat)
    requires Opened(l) && WordSafe(l) && x < l.logicalSize && y < l.logicalSize && x < l.fullSpan && y < l.fullSpan
    requires MapOffset(l, x).Some? && MapOffset(l, y).Some?
    requires MapOffset(l, x).value.tier == MapOffset(l, y).value.tier
    requires MapOffset(l, x).value.tierOffset == MapOffset(l, y).value.tierOffset
    ensures x == y
  {
    hide MapOffset, StripeByte, Whole, Describe;
    var s, i := LandsInStripe(l, x);
    var t, j := LandsInStripe(l, y);
    StripeByteInjective(l, s, i, t, j);
  }

  lemma SoundInjective(l: Layout)
    requires Opened(l) && WordSafe(l) && Aligned(l)
    ensures Injective(l)
  {
    hide MapOffset, StripeByte, Whole, Describe;
    Sizes(l);
    forall x: nat, y: nat, t: Tier, off: nat | Lands(l, x, t, off) && Lands(l, y, t, off) ensures x == y {
      Somewhere(l, x);
      Somewhere(l, y);
      if x < l.fullSpan && y < l.fullSpan {
        StripedApart(l, x, y);
      } else if x < l.fullSpan {
        var s, i := LandsInStripe(l, x);
        LandsInTail(l, y);
      } else if y < l.fullSpan {
        var s, i := LandsInStripe(l, y);
        LandsInTail(l, x);
      } else {
        LandsInTail(l, x);
        LandsInTail(l, y);
      }
    }
  }

  lemma Somewhere(l: Layout, x: nat)
    requires Opened(l) && MapOffset(l, x).Some?
    ensures x < l.logicalSize
  {}

  lemma SoundOnto(l: Layout)
    requires Opened(l) && WordSafe(l) && Aligned(l)
    ensures Onto(l)
  {
    hide MapOffset, StripeByte, Whole, Describe;
    Sizes(l);
    forall t: Tier, off: nat | off < Size(l, t) ensures Reached(l, t, off) {
      if off < Whole(l, t) {
        var s, i := StripeByteOnto(l, t, off);
        StripeByteReached(l, s, i);
      } else {
        var x := l.fullSpan + (off - Whole(l, t));
        LandsInTail(l, x);
        assert Lands(l, x, t, off);
      }
    }
  }

  lemma StripeByteReached(l: Layout, s: nat, i: nat)
    requires Opened(l) && WordSafe(l) && l.fullSpan <= l.logicalSize
    requires 0 < l.fullStripes && s < l.fullStripes && i < l.stripeSize
    ensures Reached(l, StripeByte(l, s, i).tier, StripeByte(l, s, i).tierOffset)
  {
    hide MapOffset, StripeByte, Describe;
    var x := s * l.stripeSize + i;
    SpanIndex(l, s, i);
    StripedOffset(l, x);
    assert Lands(l, x, StripeByte(l, s, i).tier, StripeByte(l, s, i).tierOffset);
  }

  /** A RAM byte past the last whole RAM stripe is never reached, overflow or not. */
  lemma RamBytesAreStriped(l: Layout, x: nat, off: nat)
    requires Opened(l) && Lands(l, x, Ram, off)
    ensures off < Whole(l, Ram)
  {
    var s := UnfoldRam(l, x, off);
    RamPlaceBound(l, Before(l.ramStripes, l.fullStripes, s), Before(l.ramStripes, l.fullStripes, Wrap(s + 1)),
                  s, x % l.stripeSize);
  }

  lemma UnfoldRam(l: Layout, x: nat, off: nat) returns (s: nat)
    requires Opened(l) && Lands(l, x, Ram, off)
    ensures 0 < l.fullStripes && s < l.fullStripes
    ensures var p := Place(Before(l.ramStripes, l.fullStripes, s), Before(l.ramStripes, l.fullStripes, Wrap(s + 1)),
                           s, l.stripeSize, x % l.stripeSize);
            p.tier == Ram && p.tierOffset == off
  {
    hide Before, Place, Describe;
    StripeIndex(l, x);
    s := x / l.stripeSize;
  }

  lemma RamPlaceBound(l: Layout, before: nat, after: nat, s: nat, i: nat)
    requires Opened(l) && i < l.stripeSize && 0 < l.fullStripes && s < l.fullStripes
    requires before == Before(l.ramStripes, l.fullStripes, s)
    requires after == Before(l.ramStripes, l.fullStripes, Wrap(s + 1))
    requires after != before
    ensures Place(before, after, s, l.stripeSize, i).tierOffset < Whole(l, Ram)
  {
    BeforeBound(l.ramStripes, l.fullStripes, s);
    if l.ramStripes == 0 {
      NoRamNoStripe(l.fullStripes, Wrap(s + 1));
    } else {
      Sizes(l);
      OffsetFits(before, l.ramStripes, l.stripeSize, i, l.ramSize);
    }
  }

  lemma NoRamNoStripe(f: nat, s: nat)
    requires f > 0
    ensures Before(0, f, s) == 0
  {}

  lemma BijectiveNeedsAlignedRam(l: Layout)
    requires Opened(l) && Onto(l)
    ensures l.ramSize % l.stripeSize == 0
  {
    hide MapOffset, Whole, Describe;
    Sizes(l);
    if l.ramSize % l.stripeSize != 0 {
      assert Reached(l, Ram, l.ramSize - 1);
      var x: nat :| Lands(l, x, Ram, l.ramSize - 1);
      RamBytesAreStriped(l, x, l.ramSize - 1);
    }
  }

  lemma BijectiveNeedsFullSpan(l: Layout)
    requires Opened(l) && WordSafe(l) && Onto(l)
    ensures l.fullSpan <= l.logicalSize
  {
    hide MapOffset, Whole, Describe, StripeByte;
    Sizes(l);
    if l.logicalSize < l.fullSpan {
      var s, i := PlaceOf(l, l.logicalSize);
      var m := StripeByte(l, s, i);
      assert Reached(l, m.tier, m.tierOffset);
      var x: nat :| Lands(l, x, m.tier, m.tierOffset);
      Somewhere(l, x);
      var t, j := LandsInStripe(l, x);
      StripeByteInjective(l, t, j, s, i);
    }
  }

  lemma PlaceOf(l: Layout, y: nat) returns (s: nat, i: nat)
    requires Opened(l) && WordSafe(l) && y < l.fullSpan
    ensures 0 < l.fullStripes && s < l.fullStripes && i < l.stripeSize && y == s * l.stripeSize + i
    ensures StripeByte(l, s, i).tierOffset < Whole(l, StripeByte(l, s, i).tier)
  {
    hide *;
    s, i := SplitAt(l, y);
    StripeByteBound(l, s, i);
  }

  lemma SplitAt(l: Layout, y: nat) returns (s: nat, i: nat)
    requires Opened(l) && y < l.fullSpan
    ensures 0 < l.fullStripes && s < l.fullStripes && i < l.stripeSize && y == s * l.stripeSize + i
  {
    hide *;
    HasStripes(l);
    StripeIndex(l, y);
    s, i := DivParts(y, l.stripeSize);
  }

  lemma HasStripes(l: Layout)
    requires Opened(l)
    ensures l.stripeSize > 0
  {}

  lemma DivParts(y: nat, m: nat) returns (q: nat, r: nat)
    requires m > 0
    ensures q == y / m && r < m && y == q * m + r
  {
    q, r := y / m, y % m;
    DivMod(y, m);
  }

  lemma BijectiveNeedsExactLength(l: Layout)
    requires Opened(l) && WordSafe(l) && InRange(l) && Onto(l)
    ensures l.logicalSize == l.fullSpan + l.ssdTail
  {
    hide MapOffset, Whole, Describe, StripeByte;
    Sizes(l);
    BijectiveNeedsFullSpan(l);
    if l.fullSpan + l.ssdTail < l.logicalSize {
      TailOverrun(l, l.fullSpan + l.ssdTail);
    } else if l.logicalSize < l.fullSpan + l.ssdTail {
      assert Reached(l, Ssd, l.ssdSize - 1);
      var x: nat :| Lands(l, x, Ssd, l.ssdSize - 1);
      Somewhere(l, x);
      if x < l.fullSpan {
        var s, i := LandsInStripe(l, x);
      } else {
        LandsInTail(l, x);
      }
    }
  }

  /** The first byte past RAM and SSD together lands one past the end of the SSD. */
  lemma TailOverrun(l: Layout, x: nat)
    requires Opened(l) && x == l.fullSpan + l.ssdTail < l.logicalSize
    ensures Lands(l, x, Ssd, l.ssdSize)
  {
    Sizes(l);
    Small(l.ssdStripes * l.stripeSize);
    Small(l.ssdStripes * l.stripeSize + (x - l.fullSpan));
  }

  /**
   While no product overflows, the tier map is a bijection exactly when RAM
   is a whole number of stripes and the logical size is RAM plus SSD.
   */
  lemma BijectiveIffAligned(l: Layout)
    requires Opened(l) && WordSafe(l)
    ensures Bijective(l) <==> Aligned(l)
  {
    hide MapOffset, Whole, Describe;
    Sizes(l);
    if Aligned(l) {
      SoundInRange(l);
      SoundInjective(l);
      SoundOnto(l);
    }
    if Bijective(l) {
      BijectiveNeedsAlignedRam(l);
      BijectiveNeedsExactLength(l);
    }
  }

  // ------------------------------------------------------------ proportion

  /** How many of the first `s` stripes start in tier `t`. */
  ghost function StripesOn(l: Layout, t: Tier, s: nat): nat
    requires Opened(l)
  {
    if s == 0 then 0
    else StripesOn(l, t, s - 1) + if OnTier(MapOffset(l, (s - 1) * l.stripeSize), t) then 1 else 0
  }

  ghost predicate OnTier(m: Option<Mapping>, t: Tier) {
    m.Some? && m.value.tier == t
  }

  lemma StripeStart(l: Layout, s: nat)
    requires Opened(l) && WordSafe(l) && s < l.fullStripes && s * l.stripeSize < l.logicalSize
    ensures OnTier(MapOffset(l, s * l.stripeSize), Ram) <==> RamStripe(l, s)
    ensures OnTier(MapOffset(l, s * l.stripeSize), Ssd) <==> !RamStripe(l, s)
  {
    hide MapOffset, Describe, Whole;
    SpanIndex(l, s, 0);
    StripedOffset(l, s * l.stripeSize);
  }

  lemma {:induction false} StripesCounted(l: Layout, s: nat)
    requires Opened(l) && WordSafe(l) && 0 < l.fullStripes && s <= l.fullStripes
    requires s > 0 ==> (s - 1) * l.stripeSize < l.logicalSize
    ensures StripesOn(l, Ram, s) == Exact(l.ramStripes, l.fullStripes, s)
    ensures StripesOn(l, Ssd, s) == s - Exact(l.ramStripes, l.fullStripes, s)
  {
    hide MapOffset, Describe, OnTier, RamStripe, Opened, WordSafe;
    NoSpanWrap(l);
    if s > 0 {
      if s > 1 { MulStep(s - 2, s - 1, l.stripeSize); }
      StripesCounted(l, s - 1);
      StripeStart(l, s - 1);
      ExactStep(l.ramStripes, l.fullStripes, s - 1);
      RamStripeIs(l, s - 1);
    }
  }

  lemma RamStripeIs(l: Layout, s: nat)
    requires 0 < l.fullStripes
    ensures RamStripe(l, s) <==> Exact(l.ramStripes, l.fullStripes, s + 1) == Exact(l.ramStripes, l.fullStripes, s) + 1
  {}

  /** `k` is the share of `a` out of `f` in the first `s`, rounded down. */
  ghost predicate Share(k: nat, s: nat, a: nat, f: nat) {
    k * f <= s * a < k * f + f
  }

  /** Byte `i` of a stripe with `before` stripes ahead of it on its tier. */
  ghost function Spot(t: Tier, before: nat, stripeSize: nat, i: nat): Mapping
    requires i < stripeSize
  {
    Mapping(t, before * stripeSize + i, stripeSize - i)
  }

  lemma ExactShare(a: nat, f: nat, s: nat)
    requires 0 < f
    ensures Share(Exact(a, f, s), s, a, f)
  {
    DivMod(s * a, f);
  }

  /**
   While no product overflows, RAM and SSD take turns in proportion: of the
   first `s` stripes RAM has its share of them, rounded down, SSD the others.
   On each tier the stripes stand in logical order without a gap.
   */
  lemma InProportion(l: Layout, x: nat, s: nat, i: nat)
    requires Opened(l) && WordSafe(l) && s < l.fullStripes && i < l.stripeSize && x == s * l.stripeSize + i && x < l.logicalSize
    ensures Share(StripesOn(l, Ram, s), s, l.ramStripes, l.fullStripes) && StripesOn(l, Ram, s) + StripesOn(l, Ssd, s) == s
    ensures var m := MapOffset(l, x); m.Some? && m.value == Spot(m.value.tier, StripesOn(l, m.value.tier, s), l.stripeSize, i)
  {
    hide *;
    CountedShare(l, s, i);
    SpotAt(l, x, s, i);
  }

  lemma SpotAt(l: Layout, x: nat, s: nat, i: nat)
    requires Opened(l) && WordSafe(l) && s < l.fullStripes && i < l.stripeSize && x == s * l.stripeSize + i && x < l.logicalSize
    requires 0 < l.fullStripes && StripesOn(l, Ram, s) == Exact(l.ramStripes, l.fullStripes, s) && StripesOn(l, Ram, s) + StripesOn(l, Ssd, s) == s
    ensures var m := MapOffset(l, x); m.Some? && m.value == Spot(m.value.tier, StripesOn(l, m.value.tier, s), l.stripeSize, i)
  {
    hide *;
    StripedByte(l, s, i);
    StripeByteIs(l, s, i, StripesOn(l, Ram, s), StripesOn(l, Ssd, s));
    EitherTier(l, s, StripeByte(l, s, i).tier);
  }

  lemma EitherTier(l: Layout, s: nat, t: Tier)
    requires Opened(l)
    ensures StripesOn(l, t, s) == if t.Ram? then StripesOn(l, Ram, s) else StripesOn(l, Ssd, s)
  {
    hide *;
    if t.Ram? { assert t == Ram; } else { assert t == Ssd; }
  }

  lemma CountedShare(l: Layout, s: nat, i: nat)
    requires Opened(l) && WordSafe(l) && s < l.fullStripes && s * l.stripeSize + i < l.logicalSize
    ensures 0 < l.fullStripes && Exact(l.ramStripes, l.fullStripes, s) <= s
    ensures StripesOn(l, Ram, s) == Exact(l.ramStripes, l.fullStripes, s)
    ensures StripesOn(l, Ssd, s) == s - Exact(l.ramStripes, l.fullStripes, s)
    ensures Share(StripesOn(l, Ram, s), s, l.ramStripes, l.fullStripes)
  {
    hide *;
    HasSpan(l, s);
    Earlier(l, s, i);
    StripesCounted(l, s);
    ExactShare(l.ramStripes, l.fullStripes, s);
    StripeRange(l, s);
  }

  lemma StripedByte(l: Layout, s: nat, i: nat)
    requires Opened(l) && WordSafe(l) && s < l.fullStripes && i < l.stripeSize && s * l.stripeSize + i < l.logicalSize
    ensures 0 < l.fullStripes && MapOffset(l, s * l.stripeSize + i) == Some(StripeByte(l, s, i))
  {
    hide *;
    SpanIndex(l, s, i);
    StripedOffset(l, s * l.stripeSize + i);
  }

  lemma HasSpan(l: Layout, s: nat)
    requires Opened(l) && s < l.fullStripes
    ensures 0 < l.fullStripes && s <= l.fullStripes
  {}

  lemma Earlier(l: Layout, s: nat, i: nat)
    requires s * l.stripeSize + i < l.logicalSize
    ensures s > 0 ==> (s - 1) * l.stripeSize < l.logicalSize
  {
    if s > 0 { MulStep(s - 1, s, l.stripeSize); }
  }

  lemma StripeByteIs(l: Layout, s: nat, i: nat, ram: nat, ssd: nat)
    requires 0 < l.fullStripes && i < l.stripeSize && ram == Exact(l.ramStripes, l.fullStripes, s) && ram + ssd == s
    ensures StripeByte(l, s, i) == Spot(StripeByte(l, s, i).tier, if StripeByte(l, s, i).tier.Ram? then ram else ssd, l.stripeSize, i)
  {}

  // ------------------------------------------------------------ word width

  lemma OverflowShape(a: nat, f: nat)
    requires 1 <= a <= f < U64 && (f - 1) * a >= U64 && (a - 1) * f < U64
    ensures Before(a, f, f - 1) == 0 && Before(a, f, f) == 0
  {
    Distribute(f, -1, a);
    Distribute(a, -1, f);
    Commute(a, f);
    WrapMinus((f - 1) * a);
    WrapMinus(f * a);
    DivUnique((f - 1) * a - U64, f, 0);
    DivUnique(f * a - U64, f, 0);
  }

  /** Reaching the last RAM stripe bounds the product that places it. */
  lemma LastRamStripe(l: Layout)
    requires Opened(l) && Onto(l) && l.ramStripes >= 1
    ensures (l.ramStripes - 1) * l.fullStripes < U64
  {
    hide MapOffset, Before, Place, Describe;
    var off := (l.ramStripes - 1) * l.stripeSize;
    LastRamByte(l);
    assert Reached(l, Ram, off);
    var x: nat :| Lands(l, x, Ram, off);
    var s := UnfoldRam(l, x, off);
    LastRamPlace(l, s, x % l.stripeSize);
  }

  lemma LastRamByte(l: Layout)
    requires Opened(l) && l.ramStripes >= 1
    ensures 0 <= (l.ramStripes - 1) * l.stripeSize < l.ramSize
  {
    Sizes(l);
    MulStep(l.ramStripes - 1, l.ramStripes, l.stripeSize);
    MulNonNeg(l.ramStripes - 1, l.stripeSize);
  }

  lemma LastRamPlace(l: Layout, s: nat, i: nat)
    requires Opened(l) && i < l.stripeSize && 0 < l.fullStripes && s < l.fullStripes && l.ramStripes >= 1
    requires var p := Place(Before(l.ramStripes, l.fullStripes, s),
                            Before(l.ramStripes, l.fullStripes, Wrap(s + 1)), s, l.stripeSize, i);
             p.tier == Ram && p.tierOffset == (l.ramStripes - 1) * l.stripeSize
    ensures (l.ramStripes - 1) * l.fullStripes < U64
  {
    var before := Before(l.ramStripes, l.fullStripes, s);
    BeforeBound(l.ramStripes, l.fullStripes, s);
    RamFits(l, before, i);
    SplitByte(before, i, l.ramStripes - 1, 0, l.stripeSize);
    DivMod(Wrap(s * l.ramStripes), l.fullStripes);
  }

  lemma RamFits(l: Layout, before: nat, i: nat)
    requires Opened(l) && i < l.stripeSize && before < l.ramStripes
    ensures Wrap(Wrap(before * l.stripeSize) + i) == before * l.stripeSize + i
  {
    Sizes(l);
    OffsetFits(before, l.ramStripes, l.stripeSize, i, l.ramSize);
  }

  /** After an overflow the last striped byte is sent past the end of the SSD. */
  lemma OverflowOverrun(l: Layout)
    requires Opened(l) && Aligned(l) && 1 <= l.ramStripes <= l.fullStripes < U64
    requires Before(l.ramStripes, l.fullStripes, l.fullStripes - 1) == 0
    requires Before(l.ramStripes, l.fullStripes, l.fullStripes) == 0
    ensures 0 < l.fullSpan && MapOffset(l, l.fullSpan - 1).Some?
    ensures MapOffset(l, l.fullSpan - 1).value.tier == Ssd
    ensures MapOffset(l, l.fullSpan - 1).value.tierOffset >= l.ssdSize
  {
    hide MapOffset, Before, Wrap, Opened, Aligned, Place;
    OverflowSpan(l);
    OverflowPlace(l);
    SsdPlace(l.fullStripes - 1, l.stripeSize);
  }

  lemma SsdPlace(stripe: nat, m: nat)
    requires m > 0
    ensures Place(0, 0, stripe, m, m - 1) == Mapping(Ssd, Wrap(Wrap(stripe * m) + m - 1), 1)
  {
    hide Wrap;
  }

  lemma OverflowSpan(l: Layout)
    requires Opened(l) && Aligned(l) && 1 <= l.ramStripes <= l.fullStripes < U64
    ensures 0 < l.stripeSize && 0 < l.fullSpan <= l.logicalSize && (l.fullSpan - 1) / l.stripeSize == l.fullStripes - 1
    ensures (l.fullSpan - 1) % l.stripeSize == l.stripeSize - 1
    ensures l.ssdSize <= Wrap(Wrap((l.fullStripes - 1) * l.stripeSize) + l.stripeSize - 1)
  {
    var f, m := l.fullStripes, l.stripeSize;
    NoSpanWrap(l);
    SpanIndex(l, f - 1, m - 1);
    Distribute(f, -1, m);
    Small(f);
    Small((f - 1) * m);
    Small((f - 1) * m + m - 1);
    MulStep(0, l.ramStripes, m);
  }

  lemma OverflowPlace(l: Layout)
    requires Opened(l) && 0 < l.fullStripes < U64 && 0 < l.fullSpan <= l.logicalSize
    requires (l.fullSpan - 1) / l.stripeSize == l.fullStripes - 1
    requires Before(l.ramStripes, l.fullStripes, l.fullStripes - 1) == 0
    requires Before(l.ramStripes, l.fullStripes, l.fullStripes) == 0
    ensures MapOffset(l, l.fullSpan - 1) ==
            Some(Place(0, 0, l.fullStripes - 1, l.stripeSize, (l.fullSpan - 1) % l.stripeSize))
  {
    hide Before, Place, Describe;
    Small(l.fullStripes);
  }

  /**
   RAM of half a stripe: the byte after the one whole stripe is sent past the
   end of the SSD.
   */
  lemma PartStripeOverruns()
    ensures var l := Describe(1, 2, 3, 2);
      Opened(l) && WordSafe(l) && MapOffset(l, 2) == Some(Mapping(Ssd, 2, 1)) && l.ssdSize == 2 && !Bijective(l)
  {
    var l := Describe(1, 2, 3, 2);
    assert MapOffset(l, 2) == Some(Mapping(Ssd, 2, 1));
    assert !InRange(l);
  }

  ghost const FOUR_GIB: nat := 0x1_0000_0000

  /**
   With stripes of one byte, four gibibytes of RAM and one byte of SSD, the
   product for the last stripe is zero in 64 bits: the byte is sent past the end
   of the SSD.
   */
  lemma OverflowOverruns()
    ensures var l := Describe(FOUR_GIB, 1, FOUR_GIB + 1, 1);
      Opened(l) && Aligned(l) && MapOffset(l, FOUR_GIB) == Some(Mapping(Ssd, FOUR_GIB, 1)) && l.ssdSize == 1 && !Bijective(l)
  {
    var l := Describe(FOUR_GIB, 1, FOUR_GIB + 1, 1);
    assert MapOffset(l, FOUR_GIB) == Some(Mapping(Ssd, FOUR_GIB, 1));
    hide MapOffset, Injective, Onto;
    assert !InRange(l);
  }

  /**
   For sizes the driver reports consistently, the map is a bijection exactly
   when the product computed for the last stripe fits a 64-bit word.
   */
  lemma BijectiveIffWordSafe(l: Layout)
    requires Opened(l) && Aligned(l)
    ensures Bijective(l) <==> WordSafe(l)
  {
    hide MapOffset, Whole, Before;
    NoSpanWrap(l);
    if WordSafe(l) {
      BijectiveIffAligned(l);
    } else if Bijective(l) {
      NotSafeShape(l);
      LastRamStripe(l);
      OverflowShape(l.ramStripes, l.fullStripes);
      OverflowOverrun(l);
    }
  }

  lemma NotSafeShape(l: Layout)
    requires Opened(l) && !WordSafe(l)
    ensures 1 <= l.ramStripes <= l.fullStripes < U64
  {
    NoSpanWrap(l);
    DivMod(l.ramSize, l.stripeSize);
    DivMod(l.ssdSize, l.stripeSize);
  }

  // ------------------------------------------------------------ sizes by counting

  /** A place as a number: RAM first, then SSD. */
  function Number(l: Layout, t: Tier, off: nat): nat {
    if t.Ram? then off else l.ramSize + off
  }

  ghost function NumberAt(l: Layout, x: nat): nat
    requires Opened(l) && InRange(l) && x < l.logicalSize
  {
    var m := MapOffset(l, x).value;
    Number(l, m.tier, m.tierOffset)
  }

  /** As many logical bytes as places: no more when none share one, no fewer when all are reached. */
  lemma NoMoreBytes(l: Layout)
    requires Opened(l) && InRange(l) && Injective(l)
    ensures l.logicalSize <= l.ramSize + l.ssdSize
  {
    hide MapOffset, Describe, Opened;
    var places := seq(l.logicalSize, x requires 0 <= x < l.logicalSize => NumberAt(l, x));
    forall x: nat | x < l.logicalSize ensures places[x] < l.ramSize + l.ssdSize { NumberOf(l, x); }
    forall x: nat, y: nat | x < y < l.logicalSize ensures places[x] != places[y] {
      NumberOf(l, x);
      NumberOf(l, y);
    }
    DistinctBound(places, l.ramSize + l.ssdSize);
  }

  /** Its place is the only one with that number. */
  lemma NumberOf(l: Layout, x: nat)
    requires Opened(l) && InRange(l) && x < l.logicalSize
    ensures NumberAt(l, x) < l.ramSize + l.ssdSize && LandsOn(l, x, NumberAt(l, x))
  {
    hide MapOffset, Describe, Opened;
  }

  ghost predicate LandsOn(l: Layout, x: nat, place: nat)
    requires Opened(l)
  {
    if place < l.ramSize then Lands(l, x, Ram, place) else Lands(l, x, Ssd, place - l.ramSize)
  }

  ghost function ByteAt(l: Layout, place: nat): (x: nat)
    requires Opened(l) && Onto(l) && place < l.ramSize + l.ssdSize
    ensures LandsOn(l, x, place)
  {
    PlaceReached(l, place);
    hide LandsOn;
    var x: nat :| LandsOn(l, x, place);
    x
  }

  lemma PlaceReached(l: Layout, place: nat)
    requires Opened(l) && Onto(l) && place < l.ramSize + l.ssdSize
    ensures exists x: nat :: LandsOn(l, x, place)
  {
    hide MapOffset, Describe, Opened;
    if place < l.ramSize {
      assert Reached(l, Ram, place);
      var x: nat :| Lands(l, x, Ram, place);
      assert LandsOn(l, x, place);
    } else {
      assert Reached(l, Ssd, place - l.ramSize);
      var x: nat :| Lands(l, x, Ssd, place - l.ramSize);
      assert LandsOn(l, x, place);
    }
  }

  lemma NoFewerBytes(l: Layout)
    requires Opened(l) && Onto(l)
    ensures l.ramSize + l.ssdSize <= l.logicalSize
  {
    hide MapOffset, Describe, Opened;
    var n := l.ramSize + l.ssdSize;
    var bytes := seq(n, place requires 0 <= place < n => ByteAt(l, place));
    forall i: nat | i < n ensures bytes[i] < l.logicalSize { LandsOnce(l, bytes[i], i, i); }
    forall i: nat, j: nat | i < j < n ensures bytes[i] != bytes[j] {
      if bytes[i] == bytes[j] { LandsOnce(l, bytes[i], i, j); }
    }
    DistinctBound(bytes, l.logicalSize);
  }

  lemma LandsOnce(l: Layout, x: nat, i: nat, j: nat)
    requires Opened(l) && LandsOn(l, x, i) && LandsOn(l, x, j)
    ensures x < l.logicalSize && i == j
  {}

  /**
   For every layout the opener can produce: the tier map is a bijection exactly
   when RAM is a whole number of stripes, the logical size is RAM plus SSD, and
   the product for the last stripe fits a 64-bit word.
   */
  lemma BijectiveIff(l: Layout)
    requires Opened(l)
    ensures Bijective(l) <==> Aligned(l) && WordSafe(l)
  {
    hide MapOffset, Describe, Whole, InRange, Injective, Onto;
    if Bijective(l) {
      BijectiveNeedsAlignedRam(l);
      NoMoreBytes(l);
      NoFewerBytes(l);
      BijectiveIffWordSafe(l);
    } else if Aligned(l) && WordSafe(l) {
      BijectiveIffAligned(l);
    }
  }

  /** The bytes announced as contiguous are: same tier, consecutive offsets, and none past the end. */
  lemma ContiguousRun(l: Layout, x: nat, k: nat)
    requires Opened(l) && WordSafe(l) && Aligned(l) && x < l.logicalSize
    requires k < MapOffset(l, x).value.contiguous
    ensures x + k < l.logicalSize
    ensures Lands(l, x + k, MapOffset(l, x).value.tier, MapOffset(l, x).value.tierOffset + k)
  {
    hide Before, Exact, Place, Describe;
    Sizes(l);
    if l.fullSpan <= x {
      LandsInTail(l, x);
      LandsInTail(l, x + k);
    } else {
      var s, i := LandsInStripe(l, x);
      SpanIndex(l, s, i + k);
      StripedOffset(l, x + k);
    }
  }
}
