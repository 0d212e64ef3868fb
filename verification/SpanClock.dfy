/**
 Which pages survive when a span is promoted page by page
 (`copy_through`, serving/dram_window.hpp): the frames the clock will hand out
 are known before the first page is loaded, and the span is whole afterwards
 exactly when none of them is handed out twice or holds a page of the span that
 was already passed.
 */
module SpanClock {
  import opened Common
  import opened Counting
  import opened PageMath
  import opened WindowSpec
  import opened WindowProofs

  // ------------------------------------------------------------ one turn of the hand

  /** The frame the hand stands at. */
  function Spot(hand: nat, n: nat): (r: nat)
    requires n > 0
    ensures r < n
  {
    hand % n
  }

  /** The frame under the hand, unless it is blocked. */
  function Under(blocked: seq<bool>, hand: nat): seq<nat>
    requires |blocked| > 0
  {
    if blocked[hand % |blocked|] then [] else [hand % |blocked|]
  }

  lemma UnderTurn(blocked: seq<bool>, hand: nat)
    requires |blocked| > 0
    ensures Under(blocked, hand + |blocked|) == Under(blocked, hand)
  {
    TurnMod(hand, |blocked|);
  }

  /** The frames that are not blocked, in the order the hand meets them within `n` steps. */
  function Ahead(blocked: seq<bool>, hand: nat, n: nat): seq<nat>
    requires |blocked| > 0
    decreases n
  {
    if n == 0 then []
    else Under(blocked, hand) + Ahead(blocked, hand + 1, n - 1)
  }

  lemma {:induction false} AheadSplit(blocked: seq<bool>, hand: nat, a: nat, b: nat)
    requires |blocked| > 0
    ensures Ahead(blocked, hand, a + b) == Ahead(blocked, hand, a) + Ahead(blocked, hand + a, b)
    decreases a
  {
    hide Under;
    if a > 0 { AheadSplit(blocked, hand + 1, a - 1, b); }
  }

  lemma TurnMod(x: nat, n: nat)
    requires n > 0
    ensures (x + n) % n == x % n
  {
    PageDownOf(x, n);
    NextOff(x / n, n);
    IndexOf(x / n + 1, n, x % n);
  }

  lemma NearMod(x: nat, d: nat, n: nat)
    requires 0 < d < n
    ensures (x + d) % n != x % n
  {
    PageDownOf(x, n);
    var q, r := x / n, x % n;
    if r + d < n {
      IndexOf(q, n, r + d);
    } else {
      NextOff(q, n);
      IndexOf(q + 1, n, r + d - n);
    }
  }

  lemma {:induction false} AheadTurn(blocked: seq<bool>, hand: nat, n: nat)
    requires |blocked| > 0
    ensures Ahead(blocked, hand + |blocked|, n) == Ahead(blocked, hand, n)
    decreases n
  {
    hide Under;
    if n > 0 {
      UnderTurn(blocked, hand);
      AheadTurn(blocked, hand + 1, n - 1);
    }
  }

  lemma {:induction false} AheadNone(blocked: seq<bool>, hand: nat, n: nat)
    requires |blocked| > 0 && forall h: nat :: hand <= h < hand + n ==> Under(blocked, h) == []
    ensures Ahead(blocked, hand, n) == []
    decreases n
  {
    hide Under;
    if n > 0 { AheadNone(blocked, hand + 1, n - 1); }
  }

  lemma OneStep(blocked: seq<bool>, h: nat)
    requires |blocked| > 0
    ensures Ahead(blocked, h, 1) == Under(blocked, h)
  {
    hide Under;
    assert Ahead(blocked, h + 1, 0) == [];
  }

  /** The list up to and past the first clear frame. */
  lemma ToFirst(blocked: seq<bool>, hand: nat, d: nat, f: nat, n: nat)
    requires |blocked| > 0 && d < n && Under(blocked, hand + d) == [f] && forall x: nat :: hand <= x < hand + d ==> Under(blocked, x) == []
    ensures Ahead(blocked, hand, n) == [f] + Ahead(blocked, hand + d + 1, n - d - 1)
  {
    hide Under;
    AheadNone(blocked, hand, d);
    AheadSplit(blocked, hand, d, n - d);
    OneStep(blocked, hand + d);
    AheadSplit(blocked, hand + d, 1, n - d - 1);
    hide Ahead;
    assert d + (n - d) == n && 1 + (n - d - 1) == n - d && hand + d + 1 == (hand + d) + 1;
  }

  /** A turn from the frame after the first clear one is the turn from the hand with that frame moved to the end. */
  lemma TurnMoves(blocked: seq<bool>, hand: nat, d: nat, f: nat)
    requires d < |blocked| && Under(blocked, hand + d) == [f] && forall x: nat :: hand <= x < hand + d ==> Under(blocked, x) == []
    ensures var a := Ahead(blocked, hand, |blocked|);
      a != [] && a[0] == f && Ahead(blocked, hand + d + 1, |blocked|) == a[1..] + [f]
  {
    hide Under, Ahead;
    var n := |blocked|;
    ToFirst(blocked, hand, d, f, n);
    ToFirst(blocked, hand, d, f, d + 1);
    NoMore(blocked, hand + d + 1);
    var rest := Ahead(blocked, hand + d + 1, n - d - 1);
    RestOfTurn(blocked, hand, d, f);
    assert ([f] + rest)[1..] == rest;
  }

  lemma NoMore(blocked: seq<bool>, h: nat)
    requires |blocked| > 0
    ensures Ahead(blocked, h, 0) == []
  {}

  lemma RestOfTurn(blocked: seq<bool>, hand: nat, d: nat, f: nat)
    requires d < |blocked| && Ahead(blocked, hand, d + 1) == [f]
    ensures Ahead(blocked, hand + d + 1, |blocked|) == Ahead(blocked, hand + d + 1, |blocked| - d - 1) + [f]
  {
    hide Under, Ahead;
    var n := |blocked|;
    AheadSplit(blocked, hand + d + 1, n - d - 1, d + 1);
    AheadTurn(blocked, hand, d + 1);
    assert hand + d + 1 + (n - d - 1) == hand + n && n - d - 1 + (d + 1) == n;
  }

  lemma UnderIs(blocked: seq<bool>, h: nat)
    requires |blocked| > 0
    ensures Under(blocked, h) == if blocked[h % |blocked|] then [] else [h % |blocked|]
  {}

  /** The scan stops at the first frame of the list. */
  lemma ScanAhead(blocked: seq<bool>, hand: nat)
    requires |blocked| > 0
    ensures match Scan(blocked, hand, |blocked|)
      case None => Ahead(blocked, hand, |blocked|) == []
      case Some(h) =>
        var a := Ahead(blocked, hand, |blocked|);
        h >= 0 && a != [] && a[0] == Spot(h, |blocked|) && Ahead(blocked, h + 1, |blocked|) == a[1..] + [a[0]]
  {
    hide *;
    ScanUnder(blocked, hand);
    match Scan(blocked, hand, |blocked|)
    case None => AheadNone(blocked, hand, |blocked|);
    case Some(h) => TurnMoves(blocked, hand, h - hand, Spot(h, |blocked|));
  }

  /** What the scan passed is blocked, and where it stopped is not. */
  lemma ScanUnder(blocked: seq<bool>, hand: nat)
    requires |blocked| > 0
    ensures match Scan(blocked, hand, |blocked|)
      case None => forall x: nat :: hand <= x < hand + |blocked| ==> Under(blocked, x) == []
      case Some(h) =>
        hand <= h < hand + |blocked| && Under(blocked, h) == [Spot(h, |blocked|)] && forall x: nat :: hand <= x < h ==> Under(blocked, x) == []
  {
    hide Scan;
  }

  /** With one frame clear, the turn that ends on it meets no other. */
  lemma OneClear(blocked: seq<bool>, h: nat)
    requires |blocked| > 0 && !blocked[Spot(h, |blocked|)] && forall i :: 0 <= i < |blocked| && i != Spot(h, |blocked|) ==> blocked[i]
    ensures Ahead(blocked, h + 1, |blocked|) == [Spot(h, |blocked|)]
  {
    var n := |blocked|;
    forall x: nat | h + 1 <= x < h + n ensures Under(blocked, x) == [] {
      NearMod(h, x - h, n);
      UnderIs(blocked, x);
    }
    UnderIs(blocked, h);
    LastClear(blocked, h, h % n);
  }

  lemma LastClear(blocked: seq<bool>, h: nat, f: nat)
    requires |blocked| > 0 && Under(blocked, h) == [f] && forall x: nat :: h + 1 <= x < h + |blocked| ==> Under(blocked, x) == []
    ensures Ahead(blocked, h + 1, |blocked|) == [f]
  {
    hide Under;
    var n := |blocked|;
    AheadNone(blocked, h + 1, n - 1);
    AheadSplit(blocked, h + 1, n - 1, 1);
    UnderTurn(blocked, h);
    OneStep(blocked, h + n);
    assert h + 1 + (n - 1) == h + n;
  }

  lemma {:induction false} AheadMembers(blocked: seq<bool>, hand: nat, n: nat, x: nat)
    requires |blocked| > 0
    ensures x in Ahead(blocked, hand, n) <==> exists h: nat :: hand <= h < hand + n && h % |blocked| == x && !blocked[x]
    decreases n
  {
    if n > 0 { AheadMembers(blocked, hand + 1, n - 1, x); }
  }

  lemma {:induction false} AheadDistinct(blocked: seq<bool>, hand: nat, n: nat)
    requires |blocked| > 0 && n <= |blocked|
    ensures Distinct(Ahead(blocked, hand, n))
    decreases n
  {
    if n > 0 {
      AheadDistinct(blocked, hand + 1, n - 1);
      var x := hand % |blocked|;
      AheadMembers(blocked, hand + 1, n - 1, x);
      forall h: nat | hand + 1 <= h < hand + n ensures h % |blocked| != x { NearMod(hand, h - hand, |blocked|); }
    }
  }

  lemma {:induction false} ClearCard(blocked: seq<bool>)
    ensures |set i: nat | i < |blocked| && !blocked[i]| == |blocked| - Count(blocked)
  {
    var all := set i: nat | i < |blocked| && !blocked[i];
    if blocked == [] {
      assert all == {};
    } else {
      var n := |blocked| - 1;
      var init := blocked[..n];
      ClearCard(init);
      var rest := set i: nat | i < |init| && !init[i];
      ClearNext(blocked, init, all, rest);
      hide *;
      assert n !in rest;
    }
  }

  lemma ClearNext(blocked: seq<bool>, init: seq<bool>, all: set<nat>, rest: set<nat>)
    requires blocked != [] && init == blocked[..|blocked| - 1]
    requires all == (set i: nat | i < |blocked| && !blocked[i]) && rest == set i: nat | i < |init| && !init[i]
    ensures all == (if blocked[|blocked| - 1] then rest else rest + {|blocked| - 1}) && |blocked| - 1 !in rest
  {}

  /** A full turn meets every clear frame once. */
  lemma TurnCount(blocked: seq<bool>, hand: nat)
    requires |blocked| > 0
    ensures |Ahead(blocked, hand, |blocked|)| == |blocked| - Count(blocked)
  {
    var n := |blocked|;
    var a := Ahead(blocked, hand, n);
    AheadDistinct(blocked, hand, n);
    DistinctCard(a);
    ClearCard(blocked);
    var met := set x: nat | x in a;
    var clear := set i: nat | i < n && !blocked[i];
    forall x: nat ensures x in met <==> x in clear {
      AheadMembers(blocked, hand, n, x);
      if x < n {
        var j := Reach(hand, n, x);
        assert (hand + j) % n == x;
      }
    }
    assert met == clear;
  }

  // ------------------------------------------------------------ the frames handed out

  /**
   The frames the clock will hand out, in order, before it comes back to the
   first: those neither pinned, filling nor soft-pinned.  With none of these it
   takes the first idle frame, which is then the only one.
   */
  function HandOut(c: Config, w: Win): seq<nat>
    requires Shape(c, w) && c.nFrames > 0
  {
    var free := Ahead(GuardedFlags(w), w.hand, c.nFrames);
    var idle := Ahead(HeldFlags(w), w.hand, c.nFrames);
    if free != [] || idle == [] then free else idle[..1]
  }

  /** Frames neither pinned, filling nor soft-pinned. */
  function FreeFrames(c: Config, w: Win): int
    requires Shape(c, w)
  {
    c.nFrames - Count(GuardedFlags(w))
  }

  lemma HandOutSize(c: Config, w: Win)
    requires Shape(c, w) && c.nFrames > 0
    ensures |HandOut(c, w)| == if FreeFrames(c, w) > 0 then FreeFrames(c, w) else if HasIdle(w) then 1 else 0
    ensures Distinct(HandOut(c, w)) && forall i :: 0 <= i < |HandOut(c, w)| ==> HandOut(c, w)[i] < c.nFrames
  {
    IdleCount(c, w);
    HandOutIn(c, w);
    hide Ahead, HeldFlags, GuardedFlags, HasIdle, Count;
    TurnCount(GuardedFlags(w), w.hand);
    TurnCount(HeldFlags(w), w.hand);
    AheadDistinct(GuardedFlags(w), w.hand, c.nFrames);
    AheadDistinct(HeldFlags(w), w.hand, c.nFrames);
  }

  lemma IdleCount(c: Config, w: Win)
    requires Shape(c, w)
    ensures |HeldFlags(w)| == |GuardedFlags(w)| == c.nFrames
    ensures Count(HeldFlags(w)) <= c.nFrames && Count(GuardedFlags(w)) <= c.nFrames
    ensures HasIdle(w) <==> Count(HeldFlags(w)) < c.nFrames
    ensures !HasIdle(w) ==> Count(GuardedFlags(w)) == c.nFrames
  {
    CountFull(HeldFlags(w));
    CountBound(HeldFlags(w));
    CountFull(GuardedFlags(w));
    CountBound(GuardedFlags(w));
    hide Count;
    if HasIdle(w) {
      var i :| 0 <= i < |w.pinned| && !w.pinned[i] && !w.filling[i];
      assert !HeldFlags(w)[i];
    } else {
      forall i | 0 <= i < c.nFrames ensures HeldFlags(w)[i] && GuardedFlags(w)[i] {}
    }
  }

  lemma HandOutIn(c: Config, w: Win)
    requires Shape(c, w) && c.nFrames > 0
    ensures forall i :: 0 <= i < |HandOut(c, w)| ==> HandOut(c, w)[i] < c.nFrames
  {
    assert |HeldFlags(w)| == |GuardedFlags(w)| == c.nFrames;
    hide Ahead, HeldFlags, GuardedFlags;
    forall i | 0 <= i < |HandOut(c, w)| ensures HandOut(c, w)[i] < c.nFrames {
      var x := HandOut(c, w)[i];
      AheadIn(GuardedFlags(w), w.hand, c.nFrames, x);
      AheadIn(HeldFlags(w), w.hand, c.nFrames, x);
      assert x in Ahead(GuardedFlags(w), w.hand, c.nFrames) || x in Ahead(HeldFlags(w), w.hand, c.nFrames);
    }
  }

  lemma AheadIn(blocked: seq<bool>, hand: nat, n: nat, x: nat)
    requires |blocked| > 0
    ensures x in Ahead(blocked, hand, n) ==> x < |blocked|
  {
    AheadMembers(blocked, hand, n, x);
  }

  /** The frames handed out move round by one: the first is now the last. */
  ghost predicate MovedRound(c: Config, w: Win, w2: Win)
    requires Shape(c, w) && Shape(c, w2) && c.nFrames > 0
  {
    HandOut(c, w) != [] && HandOut(c, w2) == HandOut(c, w)[1..] + [HandOut(c, w)[0]]
  }

  /** An eviction takes the first of them, and once that frame has no guard the others follow in turn. */
  lemma EvictTakes(c: Config, w: Win, w2: Win)
    requires Shape(c, w) && Shape(c, w2) && c.nFrames > 0 && HandOut(c, w) != []
    requires w2.hand == Evict(c, w).0.hand && GuardedFlags(w2) == GuardedFlags(w)[Evict(c, w).1 := false]
    ensures Evict(c, w).1 == HandOut(c, w)[0] && MovedRound(c, w, w2)
  {
    ScanAhead(GuardedFlags(w), w.hand);
    if Scan(GuardedFlags(w), w.hand, c.nFrames).Some? { FreeTaken(c, w, w2); } else { SoftTaken(c, w, w2); }
  }

  lemma TakeHand(c: Config, w: Win, fr: nat, next: nat)
    requires fr < |w.key|
    ensures Take(c, w, fr, next).hand == next
  {}

  lemma EvictFree(c: Config, w: Win, h: nat)
    requires Shape(c, w) && c.nFrames > 0 && Scan(GuardedFlags(w), w.hand, c.nFrames) == Some(h)
    ensures Evict(c, w).1 == Spot(h, c.nFrames) && Evict(c, w).0.hand == h + 1 && !GuardedFlags(w)[Spot(h, c.nFrames)]
  {
    hide Take;
    TakeHand(c, w, Spot(h, c.nFrames), h + 1);
  }

  lemma EvictSoft(c: Config, w: Win, h: nat)
    requires Shape(c, w) && c.nFrames > 0 && Scan(GuardedFlags(w), w.hand, c.nFrames).None?
    requires Scan(HeldFlags(w), w.hand + c.nFrames, c.nFrames) == Some(h)
    ensures Evict(c, w).1 == Spot(h, c.nFrames) && Evict(c, w).0.hand == h + 1
  {
    hide Take;
    TakeHand(c, w, Spot(h, c.nFrames), h + 1);
  }

  lemma FreeTaken(c: Config, w: Win, w2: Win)
    requires Shape(c, w) && Shape(c, w2) && c.nFrames > 0 && Scan(GuardedFlags(w), w.hand, c.nFrames).Some?
    requires w2.hand == Evict(c, w).0.hand && GuardedFlags(w2) == GuardedFlags(w)[Evict(c, w).1 := false]
    ensures HandOut(c, w) != [] && Evict(c, w).1 == HandOut(c, w)[0] && MovedRound(c, w, w2)
  {
    hide Ahead, Scan, Evict, Spot;
    var h := Scan(GuardedFlags(w), w.hand, c.nFrames).value;
    EvictFree(c, w, h);
    assert GuardedFlags(w)[Spot(h, c.nFrames) := false] == GuardedFlags(w);
    ScanAhead(GuardedFlags(w), w.hand);
  }

  /** With no frame free the clock takes the first idle one. */
  lemma SoftScan(c: Config, w: Win) returns (h: nat)
    requires Shape(c, w) && c.nFrames > 0 && Scan(GuardedFlags(w), w.hand, c.nFrames).None? && HandOut(c, w) != []
    ensures Evict(c, w).1 == Spot(h, c.nFrames) && Evict(c, w).0.hand == h + 1 && HandOut(c, w) == [Spot(h, c.nFrames)]
  {
    hide Ahead, Scan, Evict, Spot;
    ScanAhead(GuardedFlags(w), w.hand);
    ScanAhead(HeldFlags(w), w.hand + c.nFrames);
    AheadTurn(HeldFlags(w), w.hand, c.nFrames);
    h := Scan(HeldFlags(w), w.hand + c.nFrames, c.nFrames).value;
    EvictSoft(c, w, h);
  }

  lemma SoftTaken(c: Config, w: Win, w2: Win)
    requires Shape(c, w) && Shape(c, w2) && c.nFrames > 0 && Scan(GuardedFlags(w), w.hand, c.nFrames).None? && HandOut(c, w) != []
    requires w2.hand == Evict(c, w).0.hand && GuardedFlags(w2) == GuardedFlags(w)[Evict(c, w).1 := false]
    ensures Evict(c, w).1 == HandOut(c, w)[0] && MovedRound(c, w, w2)
  {
    hide Ahead, Scan, Evict, Spot;
    FullTurn(GuardedFlags(w), w.hand);
    var h := SoftScan(c, w);
    OneClear(GuardedFlags(w2), h);
  }

  /** What one load of a missing page does, as far as residency and the clock go. */
  ghost predicate Loaded(c: Config, w: Win, w2: Win, p: nat)
    requires Shape(c, w) && Shape(c, w2) && c.nFrames > 0 && HandOut(c, w) != []
  {
    var f := HandOut(c, w)[0];
    && Valid(c, w2) && MovedRound(c, w, w2)
    && f < c.nFrames && (forall q :: q in w2.pageMap <==> q == p || (q in w.pageMap && w.pageMap[q] != f))
    && w2.pageMap[p] == f && forall q :: q in w2.pageMap && q != p ==> w2.pageMap[q] == w.pageMap[q]
  }

  lemma LoadStep(c: Config, w: Win, p: nat)
    requires Valid(c, w) && c.nFrames > 0 && IsPage(c, p) && p !in w.pageMap && HandOut(c, w) != []
    ensures MapInFrames(w)
    ensures Loaded(c, w, Promote(c, w, p, false).0, p)
  {
    hide MapInv, FlagInv, PinInv, SoftInv, BytesInv, Evict;
    HandOutSize(c, w);
    ValidInFrames(c, w);
    IdleIfAny(c, w);
    PromoteValid(c, w, p, false);
    var w2 := Promote(c, w, p, false).0;
    LoadedFlags(c, w, p);
    EvictTakes(c, w, w2);
    LoadedMap(c, w, p);
  }

  lemma IdleIfAny(c: Config, w: Win)
    requires Shape(c, w) && c.nFrames > 0 && HandOut(c, w) != []
    ensures HasIdle(w)
  {
    HandOutSize(c, w);
    if FreeFrames(c, w) > 0 {
      CountFull(GuardedFlags(w));
      var i :| 0 <= i < c.nFrames && !GuardedFlags(w)[i];
      assert !w.pinned[i] && !w.filling[i];
    }
  }

  lemma LoadedFlags(c: Config, w: Win, p: nat)
    requires Valid(c, w) && c.nFrames > 0 && IsPage(c, p) && p !in w.pageMap && HasIdle(w)
    ensures var (w2, f) := Load(c, w, p, PageAt(c, p));
      f == Evict(c, w).1 && w2.hand == Evict(c, w).0.hand && GuardedFlags(w2) == GuardedFlags(w)[f := false]
  {
    hide Evict;
    EvictPages(c, w);
    LoadPages(c, w, p, PageAt(c, p));
  }

  lemma LoadedMap(c: Config, w: Win, p: nat)
    requires Valid(c, w) && c.nFrames > 0 && p !in w.pageMap && HasIdle(w) && p + c.pageBytes <= |c.ssd|
    ensures var (w2, f) := Load(c, w, p, PageAt(c, p));
      && (forall q :: q in w2.pageMap <==> q == p || (q in w.pageMap && w.pageMap[q] != f))
      && w2.pageMap[p] == f && forall q :: q in w2.pageMap && q != p ==> w2.pageMap[q] == w.pageMap[q]
  {
    hide Evict;
    LoadPages(c, w, p, PageAt(c, p));
  }

  // ------------------------------------------------------------ the span, known before it is promoted

  /** Page `p` is missing when `j` frames have been handed out: it never was resident, or sat in one of them. */
  ghost predicate Gone(m: map<nat, nat>, out: seq<nat>, p: nat, j: nat) {
    p !in m || exists i :: 0 <= i < j && i < |out| && out[i] == m[p]
  }

  /** Frames handed out before page `k` of the span from `lo` has its turn. */
  ghost function Handed(m: map<nat, nat>, out: seq<nat>, pb: nat, lo: nat, k: nat): nat
    decreases k
  {
    if k <= lo then 0
    else
      var j := Handed(m, out, pb, lo, k - 1);
      if Gone(m, out, PageOff(k - 1, pb), j) then j + 1 else j
  }

  /** No frame is handed out twice, and none after the turn of a page of the span that was found in it. */
  ghost predicate Whole(m: map<nat, nat>, out: seq<nat>, pb: nat, lo: nat, last: nat) {
    var total := Handed(m, out, pb, lo, last + 1);
    total <= |out| && forall k: nat :: lo <= k <= last ==> Spared(m, out, pb, lo, k, total)
  }

  ghost predicate Spared(m: map<nat, nat>, out: seq<nat>, pb: nat, lo: nat, k: nat, total: nat) {
    !Gone(m, out, PageOff(k, pb), Handed(m, out, pb, lo, k)) ==> !Gone(m, out, PageOff(k, pb), total)
  }

  lemma {:induction false} HandedGrows(m: map<nat, nat>, out: seq<nat>, pb: nat, lo: nat, k: nat, l: nat)
    requires lo <= k <= l
    ensures Handed(m, out, pb, lo, k) <= Handed(m, out, pb, lo, l)
    decreases l
  {
    hide Gone;
    if k < l { HandedGrows(m, out, pb, lo, k, l - 1); }
  }

  /** Some page took the first frame. */
  lemma {:induction false} FirstMiss(m: map<nat, nat>, out: seq<nat>, pb: nat, lo: nat, k: nat) returns (i: nat)
    requires Handed(m, out, pb, lo, k) > 0
    ensures lo <= i < k && Handed(m, out, pb, lo, i) == 0 && Gone(m, out, PageOff(i, pb), 0)
    decreases k
  {
    if Handed(m, out, pb, lo, k - 1) > 0 { i := FirstMiss(m, out, pb, lo, k - 1); } else { i := k - 1; }
  }

  // ------------------------------------------------------------ the promotion follows it

  /** The pages `lo..k` of the span are resident. */
  ghost predicate AllIn(c: Config, w: Win, lo: nat, k: nat) {
    forall i: nat :: lo <= i < k ==> PageOff(i, c.pageBytes) in w.pageMap
  }

  ghost predicate InSpan(pb: nat, lo: nat, k: nat, p: nat) {
    exists i: nat :: lo <= i < k && PageOff(i, pb) == p
  }

  /** Where page `i` of the span is once it has had its turn: where it was found, or in the frame handed out to it. */
  ghost predicate Seated(m: map<nat, nat>, out: seq<nat>, pb: nat, lo: nat, w: Win, i: nat, j: nat) {
    var p, h := PageOff(i, pb), Handed(m, out, pb, lo, i);
    && p in w.pageMap
    && if Gone(m, out, p, h) then h < |out| && h < j && w.pageMap[p] == out[h]
       else p in m && w.pageMap[p] == m[p] && !Gone(m, out, p, j)
  }

  /** Pages outside the span, or not yet reached, are where they were unless their frame has been handed out. */
  ghost predicate Elsewhere(m: map<nat, nat>, out: seq<nat>, w: Win, p: nat, j: nat) {
    (p in w.pageMap <==> !Gone(m, out, p, j)) && (p in w.pageMap ==> w.pageMap[p] == m[p])
  }

  /** The window after the turns of pages `lo..k`, none of them lost. */
  ghost predicate Tracks(c: Config, w: Win, m: map<nat, nat>, out: seq<nat>, lo: nat, k: nat) {
    var j := Handed(m, out, c.pageBytes, lo, k);
    && Valid(c, w) && c.nFrames > 0 && out != [] && Distinct(out) && j <= |out|
    && HandOut(c, w) == out[j..] + out[..j]
    && (forall i: nat :: lo <= i < k ==> Seated(m, out, c.pageBytes, lo, w, i, j))
    && forall p :: !InSpan(c.pageBytes, lo, k, p) ==> Elsewhere(m, out, w, p, j)
  }

  lemma TracksStart(c: Config, w: Win, lo: nat)
    requires Valid(c, w) && c.nFrames > 0 && HasIdle(w)
    ensures HandOut(c, w) != [] && Tracks(c, w, w.pageMap, HandOut(c, w), lo, lo)
  {
    HandOutSize(c, w);
    hide Valid, HandOut;
    var out := HandOut(c, w);
    assert out[0..] + out[..0] == out;
  }

  /** A page found resident stays where it is. */
  lemma TracksHit(c: Config, w: Win, m: map<nat, nat>, out: seq<nat>, lo: nat, k: nat)
    requires Tracks(c, w, m, out, lo, k) && lo <= k && !Gone(m, out, PageOff(k, c.pageBytes), Handed(m, out, c.pageBytes, lo, k))
    ensures PageOff(k, c.pageBytes) in w.pageMap && Tracks(c, w, m, out, lo, k + 1)
  {
    hide *;
    var pb, j, k2 := c.pageBytes, Handed(m, out, c.pageBytes, lo, k), k + 1;
    TracksParts(c, w, m, out, lo, k);
    InMap(m, out, PageOff(k, pb), j);
    SameHanded(m, out, pb, lo, k);
    ValidSizes(c, w);
    NotYet(pb, lo, k);
    FoundSeated(m, out, pb, lo, w, k);
    forall q | !InSpan(pb, lo, k2, q) ensures Elsewhere(m, out, w, q, j) { SpanGrows(pb, lo, k, q); }
    forall i: nat | lo <= i < k2 ensures Seated(m, out, pb, lo, w, i, j) {
      assert i < k ==> Seated(m, out, pb, lo, w, i, j);
    }
    MakeTracks(c, w, m, out, lo, k2);
  }

  lemma SameHanded(m: map<nat, nat>, out: seq<nat>, pb: nat, lo: nat, k: nat)
    requires lo <= k && !Gone(m, out, PageOff(k, pb), Handed(m, out, pb, lo, k))
    ensures Handed(m, out, pb, lo, k + 1) == Handed(m, out, pb, lo, k)
  {
    hide Gone, PageOff;
  }

  lemma FoundSeated(m: map<nat, nat>, out: seq<nat>, pb: nat, lo: nat, w: Win, k: nat)
    requires var p, j := PageOff(k, pb), Handed(m, out, pb, lo, k); p in m && !Gone(m, out, p, j) && Elsewhere(m, out, w, p, j)
    ensures PageOff(k, pb) in w.pageMap && Seated(m, out, pb, lo, w, k, Handed(m, out, pb, lo, k))
  {}

  lemma ValidSizes(c: Config, w: Win)
    requires Valid(c, w)
    ensures Shape(c, w) && c.pageBytes > 0 && MapInFrames(w)
  {
    ValidInFrames(c, w);
  }

  lemma NotYet(pb: nat, lo: nat, k: nat)
    requires pb > 0
    ensures !InSpan(pb, lo, k, PageOff(k, pb))
  {
    forall i: nat | i < k ensures PageOff(i, pb) != PageOff(k, pb) { OffOrder(i, k, pb); }
  }

  lemma SpanGrows(pb: nat, lo: nat, k: nat, q: nat)
    requires lo <= k
    ensures InSpan(pb, lo, k + 1, q) <==> InSpan(pb, lo, k, q) || q == PageOff(k, pb)
  {
    if InSpan(pb, lo, k, q) {
      var i: nat :| lo <= i < k && PageOff(i, pb) == q;
      assert lo <= i < k + 1;
    }
  }

  /** Frame `f` holds no page of the span that has had its turn. */
  ghost predicate NotSeated(c: Config, w: Win, lo: nat, k: nat, f: nat) {
    forall i: nat :: lo <= i < k && PageOff(i, c.pageBytes) in w.pageMap ==> w.pageMap[PageOff(i, c.pageBytes)] != f
  }

  lemma GoneNext(m: map<nat, nat>, out: seq<nat>, p: nat, j: nat)
    requires j < |out|
    ensures Gone(m, out, p, j + 1) <==> Gone(m, out, p, j) || (p in m && m[p] == out[j])
  {
    if p in m && m[p] == out[j] { assert out[j] == m[p]; }
  }

  lemma OutMoves(out: seq<nat>, j: nat)
    requires j < |out|
    ensures (out[j..] + out[..j])[0] == out[j]
    ensures (out[j..] + out[..j])[1..] + [out[j]] == out[j + 1..] + out[..j + 1]
  {}

  /** One missing page takes the next frame, which holds no page of the span that has had its turn. */
  lemma TracksMiss(c: Config, w: Win, w2: Win, m: map<nat, nat>, out: seq<nat>, lo: nat, k: nat)
    requires Tracks(c, w, m, out, lo, k) && lo <= k && Gone(m, out, PageOff(k, c.pageBytes), Handed(m, out, c.pageBytes, lo, k))
    requires Handed(m, out, c.pageBytes, lo, k) < |out| && Shape(c, w) && Shape(c, w2)
    requires HandOut(c, w) != [] && Loaded(c, w, w2, PageOff(k, c.pageBytes)) && NotSeated(c, w, lo, k, HandOut(c, w)[0])
    ensures Tracks(c, w2, m, out, lo, k + 1)
  {
    hide *;
    var pb, j, k2 := c.pageBytes, Handed(m, out, c.pageBytes, lo, k), k + 1;
    var j2 := j + 1;
    TracksParts(c, w, m, out, lo, k);
    NextHanded(m, out, pb, lo, k);
    HandOutMoves(c, w, w2, PageOff(k, pb), out, j);
    forall i: nat | lo <= i < k2 ensures Seated(m, out, pb, lo, w2, i, j2) {
      if i < k { SeatedStays(c, w, w2, m, out, lo, k, i); } else { NewSeated(c, w, w2, m, out, lo, k); }
    }
    forall q | !InSpan(pb, lo, k2, q) ensures Elsewhere(m, out, w2, q, Handed(m, out, pb, lo, k2)) { ElsewhereStays(c, w, w2, m, out, lo, k, q); }
    MakeTracks(c, w2, m, out, lo, k2);
  }

  lemma TracksParts(c: Config, w: Win, m: map<nat, nat>, out: seq<nat>, lo: nat, k: nat)
    requires Tracks(c, w, m, out, lo, k)
    ensures var j := Handed(m, out, c.pageBytes, lo, k);
      && Valid(c, w) && Shape(c, w) && c.nFrames > 0 && out != [] && Distinct(out) && j <= |out|
      && HandOut(c, w) == out[j..] + out[..j]
    ensures forall i: nat :: lo <= i < k ==> Seated(m, out, c.pageBytes, lo, w, i, Handed(m, out, c.pageBytes, lo, k))
    ensures forall p :: !InSpan(c.pageBytes, lo, k, p) ==> Elsewhere(m, out, w, p, Handed(m, out, c.pageBytes, lo, k))
  {
    hide HandOut, Seated, Elsewhere, Handed, InSpan;
  }

  lemma MakeTracks(c: Config, w: Win, m: map<nat, nat>, out: seq<nat>, lo: nat, k: nat)
    requires Valid(c, w) && Shape(c, w) && c.nFrames > 0 && out != [] && Distinct(out) && Handed(m, out, c.pageBytes, lo, k) <= |out|
    requires HandOut(c, w) == out[Handed(m, out, c.pageBytes, lo, k)..] + out[..Handed(m, out, c.pageBytes, lo, k)]
    requires forall i: nat :: lo <= i < k ==> Seated(m, out, c.pageBytes, lo, w, i, Handed(m, out, c.pageBytes, lo, k))
    requires forall p :: !InSpan(c.pageBytes, lo, k, p) ==> Elsewhere(m, out, w, p, Handed(m, out, c.pageBytes, lo, k))
    ensures Tracks(c, w, m, out, lo, k)
  {
    hide HandOut, Seated, Elsewhere, Handed, InSpan;
  }

  lemma NextHanded(m: map<nat, nat>, out: seq<nat>, pb: nat, lo: nat, k: nat)
    requires lo <= k && Gone(m, out, PageOff(k, pb), Handed(m, out, pb, lo, k))
    ensures Handed(m, out, pb, lo, k + 1) == Handed(m, out, pb, lo, k) + 1
  {
    hide Gone, PageOff;
  }

  lemma HandOutMoves(c: Config, w: Win, w2: Win, p: nat, out: seq<nat>, j: nat)
    requires Shape(c, w) && Shape(c, w2) && c.nFrames > 0 && HandOut(c, w) != [] && Loaded(c, w, w2, p)
    requires j < |out| && HandOut(c, w) == out[j..] + out[..j]
    ensures HandOut(c, w)[0] == out[j] && HandOut(c, w2) == out[j + 1..] + out[..j + 1] && Valid(c, w2)
  {
    hide HandOut, Valid;
    OutMoves(out, j);
  }

  lemma NewSeated(c: Config, w: Win, w2: Win, m: map<nat, nat>, out: seq<nat>, lo: nat, k: nat)
    requires Shape(c, w) && Shape(c, w2) && c.nFrames > 0 && HandOut(c, w) != [] && Loaded(c, w, w2, PageOff(k, c.pageBytes))
    requires var j := Handed(m, out, c.pageBytes, lo, k); j < |out| && HandOut(c, w)[0] == out[j] && Gone(m, out, PageOff(k, c.pageBytes), j)
    ensures Seated(m, out, c.pageBytes, lo, w2, k, Handed(m, out, c.pageBytes, lo, k) + 1)
  {
    hide HandOut, Valid, Gone, Handed, PageOff, MovedRound;
  }

  lemma ElsewhereStays(c: Config, w: Win, w2: Win, m: map<nat, nat>, out: seq<nat>, lo: nat, k: nat, q: nat)
    requires Tracks(c, w, m, out, lo, k) && lo <= k && Handed(m, out, c.pageBytes, lo, k) < |out| && Shape(c, w) && Shape(c, w2)
    requires HandOut(c, w) != [] && Loaded(c, w, w2, PageOff(k, c.pageBytes)) && !InSpan(c.pageBytes, lo, k + 1, q)
    ensures c.nFrames > 0 && Elsewhere(m, out, w2, q, Handed(m, out, c.pageBytes, lo, k) + 1)
  {
    hide *;
    var j := Handed(m, out, c.pageBytes, lo, k);
    TracksParts(c, w, m, out, lo, k);
    HandOutMoves(c, w, w2, PageOff(k, c.pageBytes), out, j);
    SpanGrows(c.pageBytes, lo, k, q);
    GoneNext(m, out, q, j);
    ElseStep(c, w, w2, m, out, PageOff(k, c.pageBytes), q, j);
  }

  lemma ElseStep(c: Config, w: Win, w2: Win, m: map<nat, nat>, out: seq<nat>, p: nat, q: nat, j: nat)
    requires Shape(c, w) && Shape(c, w2) && c.nFrames > 0 && HandOut(c, w) != [] && Loaded(c, w, w2, p) && j < |out| && HandOut(c, w)[0] == out[j]
    requires Elsewhere(m, out, w, q, j) && q != p && (Gone(m, out, q, j + 1) <==> Gone(m, out, q, j) || (q in m && m[q] == out[j]))
    ensures Elsewhere(m, out, w2, q, j + 1)
  {
    InMap(m, out, q, j);
    hide HandOut, Valid, Gone, MovedRound;
  }

  lemma InMap(m: map<nat, nat>, out: seq<nat>, q: nat, j: nat)
    ensures !Gone(m, out, q, j) ==> q in m
  {}

  lemma SeatedStays(c: Config, w: Win, w2: Win, m: map<nat, nat>, out: seq<nat>, lo: nat, k: nat, i: nat)
    requires Tracks(c, w, m, out, lo, k) && lo <= i < k && Handed(m, out, c.pageBytes, lo, k) < |out| && Shape(c, w) && Shape(c, w2)
    requires HandOut(c, w) != [] && Loaded(c, w, w2, PageOff(k, c.pageBytes)) && NotSeated(c, w, lo, k, HandOut(c, w)[0])
    ensures Seated(m, out, c.pageBytes, lo, w2, i, Handed(m, out, c.pageBytes, lo, k) + 1)
  {
    hide *;
    var pb, j := c.pageBytes, Handed(m, out, c.pageBytes, lo, k);
    TracksParts(c, w, m, out, lo, k);
    ValidSizes(c, w);
    HandOutMoves(c, w, w2, PageOff(k, pb), out, j);
    OffOrder(i, k, pb);
    GoneNext(m, out, PageOff(i, pb), j);
    HeldBack(c, w, lo, k, i);
    SeatedIn(m, out, pb, lo, w, i, j);
    SeatStep(c, w, w2, m, out, lo, k, i, j);
  }

  lemma SeatedIn(m: map<nat, nat>, out: seq<nat>, pb: nat, lo: nat, w: Win, i: nat, j: nat)
    requires Seated(m, out, pb, lo, w, i, j)
    ensures PageOff(i, pb) in w.pageMap
  {}

  lemma HeldBack(c: Config, w: Win, lo: nat, k: nat, i: nat)
    requires Shape(c, w) && c.nFrames > 0 && HandOut(c, w) != [] && NotSeated(c, w, lo, k, HandOut(c, w)[0]) && lo <= i < k
    ensures PageOff(i, c.pageBytes) in w.pageMap ==> w.pageMap[PageOff(i, c.pageBytes)] != HandOut(c, w)[0]
  {
    hide HandOut;
  }

  lemma SeatStep(c: Config, w: Win, w2: Win, m: map<nat, nat>, out: seq<nat>, lo: nat, k: nat, i: nat, j: nat)
    requires Shape(c, w) && Shape(c, w2) && c.nFrames > 0 && HandOut(c, w) != [] && Loaded(c, w, w2, PageOff(k, c.pageBytes))
    requires Seated(m, out, c.pageBytes, lo, w, i, j) && PageOff(i, c.pageBytes) != PageOff(k, c.pageBytes) && j < |out| && HandOut(c, w)[0] == out[j]
    requires w.pageMap[PageOff(i, c.pageBytes)] != HandOut(c, w)[0]
    requires var p := PageOff(i, c.pageBytes); Gone(m, out, p, j + 1) <==> Gone(m, out, p, j) || (p in m && m[p] == out[j])
    ensures Seated(m, out, c.pageBytes, lo, w2, i, j + 1)
  {
    hide HandOut, Valid, Gone, MovedRound, Handed, PageOff;
  }

  // ------------------------------------------------------------ the outcome

  lemma TracksEnd(c: Config, w: Win, m: map<nat, nat>, out: seq<nat>, lo: nat, last: nat)
    requires Tracks(c, w, m, out, lo, last + 1) && lo <= last
    ensures AllIn(c, w, lo, last + 1) && Whole(m, out, c.pageBytes, lo, last)
  {
    var k, j := last + 1, Handed(m, out, c.pageBytes, lo, last + 1);
    hide Valid, HandOut, Gone, Elsewhere;
    forall i: nat | lo <= i < k ensures PageOff(i, c.pageBytes) in w.pageMap && Spared(m, out, c.pageBytes, lo, i, j) {
      assert Seated(m, out, c.pageBytes, lo, w, i, j);
    }
  }

  lemma GoneLater(m: map<nat, nat>, out: seq<nat>, p: nat, j: nat, l: nat)
    requires Gone(m, out, p, j) && j <= l
    ensures Gone(m, out, p, l)
  {}

  /** Handing out a frame that holds a page already passed, or more frames than there are, loses a page and is not whole. */
  lemma LostTurn(c: Config, w: Win, m: map<nat, nat>, out: seq<nat>, lo: nat, k: nat, last: nat) returns (i: nat)
    requires Tracks(c, w, m, out, lo, k) && lo <= k <= last && Gone(m, out, PageOff(k, c.pageBytes), Handed(m, out, c.pageBytes, lo, k))
    requires Shape(c, w) && HandOut(c, w) != []
    requires Handed(m, out, c.pageBytes, lo, k) == |out| || !NotSeated(c, w, lo, k, HandOut(c, w)[0])
    ensures lo <= i < k && PageOff(i, c.pageBytes) in w.pageMap && w.pageMap[PageOff(i, c.pageBytes)] == HandOut(c, w)[0]
    ensures !Whole(m, out, c.pageBytes, lo, last)
  {
    var pb, j := c.pageBytes, Handed(m, out, c.pageBytes, lo, k);
    var k2, end := k + 1, last + 1;
    assert Handed(m, out, pb, lo, k2) == j + 1;
    HandedGrows(m, out, pb, lo, k2, end);
    hide Valid, Elsewhere, HandOut, Handed, InSpan;
    if j == |out| {
      i := FirstMiss(m, out, pb, lo, k);
      assert Seated(m, out, pb, lo, w, i, j);
      assert (out[j..] + out[..j])[0] == out[0];
    } else {
      OutMoves(out, j);
      i :| lo <= i < k && PageOff(i, pb) in w.pageMap && w.pageMap[PageOff(i, pb)] == HandOut(c, w)[0];
      assert Seated(m, out, pb, lo, w, i, j);
      GoneNext(m, out, PageOff(i, pb), j);
      LostPassed(m, out, pb, lo, i, j, last);
    }
  }

  lemma LostPassed(m: map<nat, nat>, out: seq<nat>, pb: nat, lo: nat, i: nat, j: nat, last: nat)
    requires lo <= i <= last && Gone(m, out, PageOff(i, pb), j + 1) && !Gone(m, out, PageOff(i, pb), Handed(m, out, pb, lo, i))
    requires j + 1 <= Handed(m, out, pb, lo, last + 1)
    ensures !Whole(m, out, pb, lo, last)
  {
    GoneLater(m, out, PageOff(i, pb), j + 1, Handed(m, out, pb, lo, last + 1));
    hide Gone, Handed;
    assert !Spared(m, out, pb, lo, i, Handed(m, out, pb, lo, last + 1));
  }

  /** A promotion brings in its own page and no other. */
  lemma PromoteOnly(c: Config, w: Win, p: nat)
    requires Valid(c, w) && c.nFrames > 0 && HasIdle(w) && p + c.pageBytes <= |c.ssd|
    ensures MapInFrames(w) && forall q :: q in Promote(c, w, p, false).0.pageMap ==> q in w.pageMap || q == p
  {
    ValidInFrames(c, w);
    if p !in w.pageMap {
      LoadPages(c, w, p, PageAt(c, p));
      hide Load;
    }
  }

  lemma {:induction false} StaysLost(c: Config, w: Win, k: nat, last: nat, p: nat)
    requires Valid(c, w) && c.nFrames > 0 && HasIdle(w) && PageOff(last, c.pageBytes) + c.pageBytes <= |c.ssd|
    requires p !in w.pageMap && forall i: nat :: k <= i <= last ==> PageOff(i, c.pageBytes) != p
    ensures MapInFrames(w) && p !in PromotePages(c, w, k, last, false).pageMap
    decreases last + 1 - k
  {
    hide MapInv, FlagInv, PinInv, SoftInv, BytesInv, Promote;
    ValidInFrames(c, w);
    if k <= last {
      OffOrder(k, last, c.pageBytes);
      PageInImage(c, k, last);
      PromoteOnly(c, w, PageOff(k, c.pageBytes));
      PromoteValid(c, w, PageOff(k, c.pageBytes), false);
      var w2 := Promote(c, w, PageOff(k, c.pageBytes), false).0;
      StillIdle(c, w, PageOff(k, c.pageBytes));
      StaysLost(c, w2, k + 1, last, p);
    }
  }

  lemma PageInImage(c: Config, k: nat, last: nat)
    requires c.pageBytes > 0 && k <= last && PageOff(last, c.pageBytes) + c.pageBytes <= |c.ssd|
    ensures IsPage(c, PageOff(k, c.pageBytes))
  {
    OffOrder(k, last, c.pageBytes);
    IndexOf(k, c.pageBytes, 0);
  }

  lemma StillIdle(c: Config, w: Win, p: nat)
    requires Valid(c, w) && c.nFrames > 0 && HasIdle(w) && p + c.pageBytes <= |c.ssd|
    ensures MapInFrames(w) && HasIdle(Promote(c, w, p, false).0)
  {
    ValidInFrames(c, w);
    if p !in w.pageMap {
      LoadPages(c, w, p, PageAt(c, p));
      hide Load;
    }
  }

  /** Promoting the pages from `k` on leaves the whole span resident exactly when the frames handed out allow it. */
  lemma {:induction false} Outcome(c: Config, w: Win, m: map<nat, nat>, out: seq<nat>, lo: nat, k: nat, last: nat)
    requires Tracks(c, w, m, out, lo, k) && lo <= k <= last + 1 && lo <= last && PageOff(last, c.pageBytes) + c.pageBytes <= |c.ssd|
    ensures Shape(c, w) && MapInFrames(w)
    ensures AllIn(c, PromotePages(c, w, k, last, false), lo, last + 1) <==> Whole(m, out, c.pageBytes, lo, last)
    decreases last + 1 - k
  {
    hide *;
    TracksParts(c, w, m, out, lo, k);
    ValidSizes(c, w);
    if k > last {
      NoneLeft(c, w, k, last);
      TracksEnd(c, w, m, out, lo, last);
    } else if Gone(m, out, PageOff(k, c.pageBytes), Handed(m, out, c.pageBytes, lo, k)) {
      MissOutcome(c, w, m, out, lo, k, last);
    } else {
      TracksHit(c, w, m, out, lo, k);
      HitStep(c, w, k, last);
      Outcome(c, w, m, out, lo, k + 1, last);
    }
  }

  lemma NoneLeft(c: Config, w: Win, k: nat, last: nat)
    requires Shape(c, w) && MapInFrames(w) && c.nFrames > 0 && PageOff(last, c.pageBytes) + c.pageBytes <= |c.ssd| && k > last
    ensures PromotePages(c, w, k, last, false) == w
  {}

  lemma HitStep(c: Config, w: Win, k: nat, last: nat)
    requires Shape(c, w) && MapInFrames(w) && c.nFrames > 0 && PageOff(last, c.pageBytes) + c.pageBytes <= |c.ssd| && k <= last
    requires PageOff(k, c.pageBytes) in w.pageMap
    ensures PromotePages(c, w, k, last, false) == PromotePages(c, w, k + 1, last, false)
  {
    PromoteStep(c, w, k, last);
    hide PromotePages, PageOff;
  }

  lemma MissOutcome(c: Config, w: Win, m: map<nat, nat>, out: seq<nat>, lo: nat, k: nat, last: nat)
    requires Tracks(c, w, m, out, lo, k) && lo <= k <= last && PageOff(last, c.pageBytes) + c.pageBytes <= |c.ssd|
    requires Gone(m, out, PageOff(k, c.pageBytes), Handed(m, out, c.pageBytes, lo, k))
    ensures Shape(c, w) && MapInFrames(w)
    ensures AllIn(c, PromotePages(c, w, k, last, false), lo, last + 1) <==> Whole(m, out, c.pageBytes, lo, last)
    decreases last + 1 - k, 0
  {
    hide *;
    var pb, p := c.pageBytes, PageOff(k, c.pageBytes);
    MissFacts(c, w, m, out, lo, k);
    PageInImage(c, k, last);
    PromoteStep(c, w, k, last);
    LoadStep(c, w, p);
    var w2 := Promote(c, w, p, false).0;
    if Handed(m, out, pb, lo, k) < |out| && NotSeated(c, w, lo, k, HandOut(c, w)[0]) {
      TracksMiss(c, w, w2, m, out, lo, k);
      Outcome(c, w2, m, out, lo, k + 1, last);
    } else {
      var i := LostTurn(c, w, m, out, lo, k, last);
      LostFor(c, w, w2, lo, k, last, i);
    }
  }

  lemma MissFacts(c: Config, w: Win, m: map<nat, nat>, out: seq<nat>, lo: nat, k: nat)
    requires Tracks(c, w, m, out, lo, k) && lo <= k && Gone(m, out, PageOff(k, c.pageBytes), Handed(m, out, c.pageBytes, lo, k))
    ensures Valid(c, w) && c.nFrames > 0 && c.pageBytes > 0 && Shape(c, w) && MapInFrames(w) && HandOut(c, w) != []
    ensures PageOff(k, c.pageBytes) !in w.pageMap && Handed(m, out, c.pageBytes, lo, k) <= |out|
  {
    ValidSizes(c, w);
    NotYet(c.pageBytes, lo, k);
    hide Valid, HandOut, Gone, InSpan, Seated;
    assert Elsewhere(m, out, w, PageOff(k, c.pageBytes), Handed(m, out, c.pageBytes, lo, k));
  }

  lemma LostFor(c: Config, w: Win, w2: Win, lo: nat, k: nat, last: nat, i: nat)
    requires Valid(c, w) && c.nFrames > 0 && MapInFrames(w) && Shape(c, w) && Shape(c, w2) && HandOut(c, w) != []
    requires lo <= i < k <= last && PageOff(last, c.pageBytes) + c.pageBytes <= |c.ssd| && PageOff(k, c.pageBytes) + c.pageBytes <= |c.ssd|
    requires w2 == Promote(c, w, PageOff(k, c.pageBytes), false).0 && Loaded(c, w, w2, PageOff(k, c.pageBytes))
    requires PageOff(i, c.pageBytes) in w.pageMap && w.pageMap[PageOff(i, c.pageBytes)] == HandOut(c, w)[0]
    ensures !AllIn(c, PromotePages(c, w, k, last, false), lo, last + 1)
  {
    hide *;
    var pb, p := c.pageBytes, PageOff(i, c.pageBytes);
    ValidSizes(c, w);
    OffOrder(i, k, pb);
    IdleIfAny(c, w);
    StillIdle(c, w, PageOff(k, pb));
    LoadedLoses(c, w, w2, PageOff(k, pb), p);
    forall x: nat | k + 1 <= x <= last ensures PageOff(x, pb) != p { OffOrder(i, x, pb); }
    StaysLost(c, w2, k + 1, last, p);
    PromoteStep(c, w, k, last);
    NotAllIn(c, PromotePages(c, w, k, last, false), lo, last, i);
  }

  lemma LoadedLoses(c: Config, w: Win, w2: Win, p: nat, q: nat)
    requires Shape(c, w) && Shape(c, w2) && c.nFrames > 0 && HandOut(c, w) != [] && Loaded(c, w, w2, p)
    requires q != p && q in w.pageMap && w.pageMap[q] == HandOut(c, w)[0]
    ensures q !in w2.pageMap && Valid(c, w2)
  {
    hide Valid, HandOut, MovedRound;
  }

  lemma PromoteStep(c: Config, w: Win, k: nat, last: nat)
    requires Shape(c, w) && MapInFrames(w) && c.nFrames > 0 && PageOff(last, c.pageBytes) + c.pageBytes <= |c.ssd| && k <= last
    ensures PageOff(k, c.pageBytes) + c.pageBytes <= |c.ssd|
    ensures PromotePages(c, w, k, last, false) == PromotePages(c, Promote(c, w, PageOff(k, c.pageBytes), false).0, k + 1, last, false)
  {
    hide Promote;
    OffOrder(k, last, c.pageBytes);
  }

  lemma NotAllIn(c: Config, w: Win, lo: nat, last: nat, i: nat)
    requires lo <= i <= last && PageOff(i, c.pageBytes) !in w.pageMap
    ensures !AllIn(c, w, lo, last + 1)
  {
    var end := last + 1;
    assert lo <= i < end;
  }

  /**
   Once promoted page by page the whole span is resident exactly when, of the
   frames the clock was going to hand out, the span needs none twice and none
   after it found a page of its own there.
   */
  lemma SpanWholeIff(c: Config, w: Win, lo: nat, last: nat)
    requires Valid(c, w) && c.nFrames > 0 && HasIdle(w) && lo <= last && PageOff(last, c.pageBytes) + c.pageBytes <= |c.ssd|
    ensures Shape(c, w) && MapInFrames(w)
    ensures AllIn(c, PromotePages(c, w, lo, last, false), lo, last + 1) <==> Whole(w.pageMap, HandOut(c, w), c.pageBytes, lo, last)
  {
    hide *;
    ValidSizes(c, w);
    TracksStart(c, w, lo);
    Outcome(c, w, w.pageMap, HandOut(c, w), lo, lo, last);
  }

  lemma {:induction false} ColdHanded(m: map<nat, nat>, out: seq<nat>, pb: nat, lo: nat, k: nat)
    requires lo <= k && forall i: nat :: lo <= i < k ==> PageOff(i, pb) !in m
    ensures Handed(m, out, pb, lo, k) == k - lo
    decreases k
  {
    hide PageOff;
    if k > lo { ColdHanded(m, out, pb, lo, k - 1); }
  }

  /** With no page of the span resident beforehand: it is one page, or fits the frames neither pinned, filling nor soft-pinned. */
  lemma ColdSpanIff(c: Config, w: Win, lo: nat, last: nat)
    requires Valid(c, w) && c.nFrames > 0 && HasIdle(w) && lo <= last && PageOff(last, c.pageBytes) + c.pageBytes <= |c.ssd|
    requires forall i: nat :: lo <= i <= last ==> PageOff(i, c.pageBytes) !in w.pageMap
    ensures Shape(c, w) && MapInFrames(w)
    ensures AllIn(c, PromotePages(c, w, lo, last, false), lo, last + 1) <==> lo == last || last + 1 - lo <= FreeFrames(c, w)
  {
    hide *;
    ValidSizes(c, w);
    SpanWholeIff(c, w, lo, last);
    HandOutSize(c, w);
    ColdWhole(w.pageMap, HandOut(c, w), c.pageBytes, lo, last);
  }

  lemma ColdWhole(m: map<nat, nat>, out: seq<nat>, pb: nat, lo: nat, last: nat)
    requires lo <= last && forall i: nat :: lo <= i <= last ==> PageOff(i, pb) !in m
    ensures Whole(m, out, pb, lo, last) <==> last + 1 - lo <= |out|
  {
    ColdHanded(m, out, pb, lo, last + 1);
    hide PageOff, Handed;
  }

  /** The page promoted last is there whatever happens to the others. */
  lemma {:induction false} LastStays(c: Config, w: Win, k: nat, last: nat)
    requires Valid(c, w) && c.nFrames > 0 && HasIdle(w) && k <= last && PageOff(last, c.pageBytes) + c.pageBytes <= |c.ssd|
    ensures MapInFrames(w) && PageOff(last, c.pageBytes) in PromotePages(c, w, k, last, false).pageMap
    decreases last - k
  {
    hide *;
    ValidSizes(c, w);
    if k == last {
      PromoteOnePage(c, w, k);
    } else {
      PageInImage(c, k, last);
      PromoteStep(c, w, k, last);
      PromoteValid(c, w, PageOff(k, c.pageBytes), false);
      StillIdle(c, w, PageOff(k, c.pageBytes));
      LastStays(c, Promote(c, w, PageOff(k, c.pageBytes), false).0, k + 1, last);
    }
  }

  // ------------------------------------------------------------ with every frame held

  /** Page `q` is mapped to a frame that does not hold it, and no later load removes it from the map. */
  ghost predicate Stuck(w: Win, q: nat, f: nat)
    requires |w.key| == |w.filling|
  {
    && f < |w.key| && q in w.pageMap && w.pageMap[q] == f && (w.filling[f] || w.key[f] != Some(q))
    && forall i :: 0 <= i < |w.key| && !w.filling[i] ==> w.key[i] != Some(q)
  }

  lemma StuckInvalid(c: Config, w: Win, q: nat, f: nat)
    requires Shape(c, w) && Stuck(w, q, f)
    ensures !Valid(c, w)
  {}

  /** Evicting frees the key of a frame that is not being filled, or none. */
  lemma EvictKeys(c: Config, w: Win)
    requires Shape(c, w) && c.nFrames > 0
    ensures var (w1, fr) := Evict(c, w);
      && w1.filling == w.filling && |w1.key| == |w.key| && (forall i :: 0 <= i < c.nFrames && i != fr ==> w1.key[i] == w.key[i])
      && ((w1.pageMap == w.pageMap && w1.key == w.key) ||
          (!w.filling[fr] && w.key[fr].Some? && w1.pageMap == w.pageMap - {w.key[fr].value}))
  {
    EvictChoice(c, w);
    hide Evict, HasIdle;
  }

  lemma LoadKeys(c: Config, w: Win, p: nat, bytes: Bytes)
    requires Shape(c, w) && c.nFrames > 0
    ensures var (v, fr) := Load(c, w, p, bytes); var w1 := Evict(c, w).0;
      fr == Evict(c, w).1 && v.pageMap == w1.pageMap[p := fr] && v.key == w1.key[fr := Some(p)] && v.filling == w1.filling
  {
    hide Evict;
  }

  lemma StuckPromote(c: Config, w: Win, q: nat, f: nat, p: nat)
    requires Shape(c, w) && MapInFrames(w) && c.nFrames > 0 && p + c.pageBytes <= |c.ssd| && Stuck(w, q, f)
    ensures Stuck(Promote(c, w, p, false).0, q, f)
  {
    if p !in w.pageMap {
      EvictKeys(c, w);
      LoadKeys(c, w, p, PageAt(c, p));
      hide Evict, Load;
    }
  }

  lemma {:induction false} StuckPages(c: Config, w: Win, k: nat, last: nat, q: nat, f: nat)
    requires Shape(c, w) && MapInFrames(w) && c.nFrames > 0 && PageOff(last, c.pageBytes) + c.pageBytes <= |c.ssd| && Stuck(w, q, f)
    ensures Stuck(PromotePages(c, w, k, last, false), q, f)
    decreases last + 1 - k
  {
    hide *;
    if k > last {
      NoneLeft(c, w, k, last);
    } else {
      PromoteStep(c, w, k, last);
      StuckPromote(c, w, q, f, PageOff(k, c.pageBytes));
      StuckPages(c, Promote(c, w, PageOff(k, c.pageBytes), false).0, k + 1, last, q, f);
    }
  }

  /** A load while every frame is held writes over frame 0: its own entry, or that of the page pinned there, is stuck. */
  lemma LoadSticks(c: Config, w: Win, p: nat) returns (q: nat)
    requires Valid(c, w) && c.nFrames > 0 && !HasIdle(w) && p !in w.pageMap && p + c.pageBytes <= |c.ssd|
    ensures MapInFrames(w) && Stuck(Promote(c, w, p, false).0, q, 0)
  {
    EvictChoice(c, w);
    hide Evict;
    assert w.pinned[0] || w.filling[0];
    q := if w.filling[0] then p else w.key[0].value;
  }

  lemma {:induction false} SpanSticks(c: Config, w: Win, k: nat, last: nat) returns (q: nat)
    requires Valid(c, w) && c.nFrames > 0 && !HasIdle(w) && PageOff(last, c.pageBytes) + c.pageBytes <= |c.ssd|
    requires exists i: nat :: k <= i <= last && PageOff(i, c.pageBytes) !in w.pageMap
    ensures Shape(c, w) && MapInFrames(w) && Stuck(PromotePages(c, w, k, last, false), q, 0)
    decreases last + 1 - k
  {
    hide *;
    ValidSizes(c, w);
    PromoteStep(c, w, k, last);
    if PageOff(k, c.pageBytes) in w.pageMap {
      HitStep(c, w, k, last);
      q := SpanSticks(c, w, k + 1, last);
    } else {
      q := LoadSticks(c, w, PageOff(k, c.pageBytes));
      StuckPages(c, Promote(c, w, PageOff(k, c.pageBytes), false).0, k + 1, last, q, 0);
    }
  }

  lemma NoneHandedOut(c: Config, w: Win)
    requires Shape(c, w) && c.nFrames > 0 && !HasIdle(w)
    ensures HandOut(c, w) == []
  {
    HandOutSize(c, w);
    forall i | 0 <= i < c.nFrames ensures GuardedFlags(w)[i] { assert w.pinned[i] || w.filling[i]; }
    CountFull(GuardedFlags(w));
  }

  lemma {:induction false} WholeWithout(m: map<nat, nat>, pb: nat, lo: nat, k: nat)
    requires lo <= k
    ensures Handed(m, [], pb, lo, k) == 0 <==> forall i: nat :: lo <= i < k ==> PageOff(i, pb) in m
    decreases k
  {
    hide PageOff;
    if k > lo { WholeWithout(m, pb, lo, k - 1); }
  }

  lemma NothingHanded(m: map<nat, nat>, pb: nat, lo: nat, last: nat)
    requires lo <= last
    ensures Whole(m, [], pb, lo, last) <==> forall i: nat :: lo <= i <= last ==> PageOff(i, pb) in m
  {
    WholeWithout(m, pb, lo, last + 1);
    hide PageOff, Handed;
    if Handed(m, [], pb, lo, last + 1) == 0 {
      forall k: nat | lo <= k <= last ensures Spared(m, [], pb, lo, k, 0) {}
    }
  }

  /**
   The promotion of a span keeps the window consistent and leaves every page of
   it resident exactly when the span is whole for the frames the clock was going
   to hand out.  When it does not, the window is consistent with a page missing,
   or has an entry stuck.
   */
  lemma SpanKeptIff(c: Config, w: Win, lo: nat, last: nat)
    requires Valid(c, w) && c.nFrames > 0 && lo <= last && PageOff(last, c.pageBytes) + c.pageBytes <= |c.ssd|
    ensures Shape(c, w) && MapInFrames(w)
    ensures var v := PromotePages(c, w, lo, last, false);
      && (Valid(c, v) && AllIn(c, v, lo, last + 1) <==> Whole(w.pageMap, HandOut(c, w), c.pageBytes, lo, last))
      && (Valid(c, v) || exists q, f :: Stuck(v, q, f))
  {
    hide *;
    ValidSizes(c, w);
    if HasIdle(w) {
      SpanWholeIff(c, w, lo, last);
      PromotePagesValid(c, w, lo, last);
    } else {
      NoneHandedOut(c, w);
      NothingHanded(w.pageMap, c.pageBytes, lo, last);
      if forall i: nat :: lo <= i <= last ==> PageOff(i, c.pageBytes) in w.pageMap {
        PromoteResidentPages(c, w, lo, last);
        AllThere(c, w, lo, last);
      } else {
        var q := SpanSticks(c, w, lo, last);
        StuckInvalid(c, PromotePages(c, w, lo, last, false), q, 0);
      }
    }
  }

  /**
   A resident span is whole; so is one page while a frame is idle; a span of
   several pages with none resident is whole just when it fits the frames
   neither pinned, filling nor soft-pinned.
   */
  lemma WholeCases(c: Config, w: Win, lo: nat, last: nat)
    requires Valid(c, w) && c.nFrames > 0 && lo <= last && PageOff(last, c.pageBytes) + c.pageBytes <= |c.ssd|
    ensures Shape(c, w)
    ensures AllIn(c, w, lo, last + 1) || (HasIdle(w) && lo == last) ==> Whole(w.pageMap, HandOut(c, w), c.pageBytes, lo, last)
    ensures HasIdle(w) && lo < last && (forall k: nat :: lo <= k <= last ==> PageOff(k, c.pageBytes) !in w.pageMap) ==>
      (Whole(w.pageMap, HandOut(c, w), c.pageBytes, lo, last) <==> last + 1 - lo <= FreeFrames(c, w))
  {
    hide *;
    ValidSizes(c, w);
    SpanKeptIff(c, w, lo, last);
    if AllIn(c, w, lo, last + 1) {
      AllOf(c, w, lo, last);
      PromoteResidentPages(c, w, lo, last);
    }
    if HasIdle(w) {
      PromotePagesValid(c, w, lo, last);
      if lo == last { OneIn(c, w, lo); }
      if forall k: nat :: lo <= k <= last ==> PageOff(k, c.pageBytes) !in w.pageMap { ColdSpanIff(c, w, lo, last); }
    }
  }

  lemma AllOf(c: Config, w: Win, lo: nat, last: nat)
    requires AllIn(c, w, lo, last + 1)
    ensures forall i: nat :: lo <= i <= last ==> PageOff(i, c.pageBytes) in w.pageMap
  {
    var end := last + 1;
    assert AllIn(c, w, lo, end);
  }

  lemma OneIn(c: Config, w: Win, k: nat)
    requires Valid(c, w) && c.nFrames > 0 && HasIdle(w) && PageOff(k, c.pageBytes) + c.pageBytes <= |c.ssd|
    ensures MapInFrames(w) && AllIn(c, PromotePages(c, w, k, k, false), k, k + 1)
  {
    PromoteOnePage(c, w, k);
    ValidInFrames(c, w);
    hide PromotePages;
  }

  lemma AllThere(c: Config, w: Win, lo: nat, last: nat)
    requires forall i: nat :: lo <= i <= last ==> PageOff(i, c.pageBytes) in w.pageMap
    ensures AllIn(c, w, lo, last + 1)
  {}

  // ------------------------------------------------------------ a span that does not fit

  ghost const SOFT: Config := Config([0, 0, 0, 0], 1, 2, 0, 8, false)
  ghost const SOFT_WINDOW: Win :=
    Win(map[0 := 0, 1 := 1], [Some(0), Some(1)], [false, false], [false, false], [5, 5], [0, 1], {}, 0, 0, 2, [[0], [0]])

  lemma SoftWindow()
    ensures Valid(SOFT, SOFT_WINDOW) && HasIdle(SOFT_WINDOW) && FreeFrames(SOFT, SOFT_WINDOW) == 0
  {
    var w := SOFT_WINDOW;
    assert !w.pinned[0] && !w.filling[0];
    assert SoftFlags(w.ttl) == [true, true] && GuardedFlags(w) == [true, true];
    CountFull([true, true]);
    CountClear();
    hide Count;
    assert PageAt(SOFT, 0) == [0] && PageAt(SOFT, 1) == [0];
  }

  lemma CountClear()
    ensures Count([false, false]) == 0
  {
    CountBound([false, false]);
  }

  /** Two idle frames do not hold a two-page span when both are soft-pinned: the second page takes the frame of the first. */
  lemma SoftSpanEvictsItself()
    ensures Valid(SOFT, SOFT_WINDOW) && HasIdle(SOFT_WINDOW) && FreeFrames(SOFT, SOFT_WINDOW) == 0
    ensures 2 !in PromotePages(SOFT, SOFT_WINDOW, 2, 3, false).pageMap
    ensures 3 in PromotePages(SOFT, SOFT_WINDOW, 2, 3, false).pageMap
  {
    SoftWindow();
    SoftPages();
    hide Valid, HasIdle, FreeFrames, PromotePages, PageOff;
    ColdSpanIff(SOFT, SOFT_WINDOW, 2, 3);
    LastStays(SOFT, SOFT_WINDOW, 2, 3);
  }

  lemma SoftPages()
    ensures forall i: nat :: PageOff(i, 1) == i
  {}
}
