/** Which ids lie on a page (serving/placement.hpp): the two enumerations, against what they should visit. */
module PageIds {
  import opened Common
  import opened PageMath
  import opened Placements

  /** The first index whose multiple of `s` reaches `x`. */
  function CeilDiv(x: nat, s: nat): nat
    requires s > 0
  {
    (x + s - 1) / s
  }

  lemma CeilLeast(x: nat, s: nat, i: nat)
    requires s > 0
    ensures x <= PageOff(i, s) <==> CeilDiv(x, s) <= i
  {
    var c := CeilDiv(x, s);
    PageDownOf(x + s - 1, s);
    OffOrder(c, i, s);
    StepMul(i, c, s);
  }

  lemma FloorMost(x: nat, s: nat, i: nat)
    requires s > 0
    ensures PageOff(i, s) <= x <==> i <= x / s
  {
    PageDownOf(x, s);
    OffOrder(i, x / s, s);
    StepMul(x / s, i, s);
  }

  ghost predicate Increasing(s: seq<nat>) {
    forall i, j :: 0 <= i < j < |s| ==> s[i] < s[j]
  }

  /** The vector at index `i` overlaps the bytes [lo, hi). */
  ghost predicate Touching(p: Placement, lo: nat, hi: nat, i: nat) {
    RecOff(p.v0, p.stride, i) < hi && lo < RecOff(p.v0, p.stride, i) + p.packed
  }

  /** The `size` bytes of the record at index `i` lie inside [lo, hi). */
  ghost predicate Inside(p: Placement, lo: nat, hi: nat, i: nat, size: nat) {
    lo <= RecOff(p.v0, p.stride, i) && RecOff(p.v0, p.stride, i) + size <= hi
  }

  /** The header's sizes agree: the vectors fit the bytes set aside for them. */
  ghost predicate Consistent(p: Placement) {
    p.packed <= p.stride && PageOff(p.n, p.stride) <= p.vecLen
  }

  /** The first and the last index the loop visits. */
  function FirstAt(p: Placement, lo: nat): nat
    requires p.stride > 0
  {
    var rel := Max(lo, p.v0) - p.v0;
    if rel >= p.packed then CeilDiv(rel - p.packed + 1, p.stride) else 0
  }

  function LastAt(p: Placement, hi: nat): nat
    requires p.stride > 0 && p.v0 < Min(hi, p.v0 + p.vecLen)
  {
    (Min(hi, p.v0 + p.vecLen) - p.v0 - 1) / p.stride
  }

  /** What the loop visits, whatever the header says: it never looks past the bytes set aside. */
  ghost predicate Visited(p: Placement, lo: nat, hi: nat, i: nat) {
    && i < p.n && Max(lo, p.v0) < Min(hi, p.v0 + p.vecLen)
    && RecOff(p.v0, p.stride, i) < Min(hi, p.v0 + p.vecLen)
    && Max(lo, p.v0) < RecOff(p.v0, p.stride, i) + p.packed
  }

  lemma VisitRange(p: Placement, lo: nat, hi: nat, i: nat)
    requires p.stride > 0 && i < p.n && Max(lo, p.v0) < Min(hi, p.v0 + p.vecLen)
    ensures Visited(p, lo, hi, i) <==> FirstAt(p, lo) <= i <= LastAt(p, hi)
  {
    var rel := Max(lo, p.v0) - p.v0;
    if rel >= p.packed { CeilLeast(rel - p.packed + 1, p.stride, i); }
    FloorMost(Min(hi, p.v0 + p.vecLen) - p.v0 - 1, p.stride, i);
  }

  /** With a consistent header that is every index whose vector overlaps the range. */
  lemma VisitedTouch(p: Placement, lo: nat, hi: nat, i: nat)
    requires Consistent(p) && p.packed > 0 && lo < hi && i < p.n
    ensures Visited(p, lo, hi, i) <==> Touching(p, lo, hi, i)
  {
    StepMul(i, p.n, p.stride);
  }

  lemma OneHigher(ids: seq<nat>, i: nat)
    requires Increasing(ids) && forall j: nat :: j in ids ==> j < i
    ensures Increasing(ids + [i])
  {
    assert forall k :: 0 <= k < |ids| ==> ids[k] in ids;
  }

  /**
   `for_ids_touching_pages`: in increasing order, exactly the indexes whose
   vector overlaps the pages, as far as the bytes set aside for vectors go.  With
   no vector and a range that meets those bytes the source's last index wraps.
   */
  method IdsTouching(p: Placement, pageLo: nat, pageHi: nat, pageBytes: nat) returns (ids: seq<nat>)
    requires p.n > 0 || p.stride == 0 || pageBytes == 0 || Max(pageLo, p.v0) >= Min(pageHi + pageBytes, p.v0 + p.vecLen)
    ensures Increasing(ids)
    ensures pageBytes > 0 && p.stride > 0 ==> forall i: nat :: i in ids <==> Visited(p, pageLo, pageHi + pageBytes, i)
    ensures pageBytes > 0 && p.packed > 0 && Consistent(p) && pageLo <= pageHi ==>
      forall i: nat :: i in ids <==> i < p.n && Touching(p, pageLo, pageHi + pageBytes, i)
    ensures pageBytes == 0 || p.stride == 0 ==> ids == []
  {
    ids := [];
    if p.stride == 0 || pageBytes == 0 { return; }
    ghost var end := pageHi + pageBytes;
    if Consistent(p) && p.packed > 0 && pageLo <= pageHi {
      forall i: nat | i < p.n ensures Visited(p, pageLo, end, i) <==> Touching(p, pageLo, end, i) { VisitedTouch(p, pageLo, end, i); }
    }
    var lo := Max(pageLo, p.v0);
    var hi := Min(pageHi + pageBytes, p.v0 + p.vecLen);
    if lo >= hi { return; }
    forall i: nat | i < p.n ensures Visited(p, pageLo, end, i) <==> FirstAt(p, pageLo) <= i <= LastAt(p, end) {
      VisitRange(p, pageLo, end, i);
    }
    var i0 := 0;
    if lo - p.v0 >= p.packed { i0 := CeilDiv(lo - p.v0 - p.packed + 1, p.stride); }
    var i1 := (hi - p.v0 - 1) / p.stride;
    assert i0 == FirstAt(p, pageLo) && i1 == LastAt(p, end);
    assert forall i: nat :: Visited(p, pageLo, end, i) ==> i < p.n;
    hide Visited, Touching, FirstAt, LastAt, Increasing, Consistent;
    if i1 >= p.n { i1 := p.n - 1; }
    var i := i0;
    assert Increasing([]) by { StartIncreasing(); }
    while i <= i1
      invariant i0 <= i && Increasing(ids)
      invariant forall j: nat :: j in ids <==> i0 <= j < i && j <= i1
    {
      OneHigher(ids, i);
      ids := ids + [i];
      i := i + 1;
    }
  }

  lemma StartIncreasing()
    ensures Increasing([])
  {}

  /** The vector of id `id`, where the reader looks for it, overlaps [lo, hi). */
  ghost predicate VecTouching(p: Placement, lo: nat, hi: nat, id: nat)
    reads p
  {
    p.VecOff(id) < hi && lo < p.VecOff(id) + p.packed
  }

  /** Records `i` and `j` have their vectors on the same pages of `pb` bytes. */
  predicate SamePages(p: Placement, pb: nat, i: nat, j: nat)
    requires pb > 0 && p.packed > 0
  {
    && RecOff(p.v0, p.stride, i) / pb == RecOff(p.v0, p.stride, j) / pb
    && (RecOff(p.v0, p.stride, i) + p.packed - 1) / pb == (RecOff(p.v0, p.stride, j) + p.packed - 1) / pb
  }

  /** A vector overlaps pages `a` to `b` when its first page is not past `b` and its last not before `a`. */
  lemma TouchPages(p: Placement, pb: nat, a: nat, b: nat, i: nat)
    requires pb > 0 && p.packed > 0
    ensures Touching(p, PageOff(a, pb), PageOff(b, pb) + pb, i) <==>
            RecOff(p.v0, p.stride, i) / pb <= b && a <= (RecOff(p.v0, p.stride, i) + p.packed - 1) / pb
  {
    var x := RecOff(p.v0, p.stride, i);
    NextOff(b, pb);
    FloorMost(x, pb, b + 1);
    FloorMost(x + p.packed - 1, pb, a);
  }

  /** The indexes listed for pages `a` to `b` are the ids whose vector overlaps them. */
  ghost predicate ListsIds(p: Placement, pb: nat, a: nat, b: nat)
    reads p
  {
    forall id: nat :: id < p.n ==> ListedRight(p, pb, a, b, id)
  }

  ghost predicate ListedRight(p: Placement, pb: nat, a: nat, b: nat, id: nat)
    reads p
  {
    Touching(p, PageOff(a, pb), PageOff(b, pb) + pb, id) <==> VecTouching(p, PageOff(a, pb), PageOff(b, pb) + pb, id)
  }

  lemma RightForPages(p: Placement, pb: nat, a: nat, b: nat, id: nat)
    requires pb > 0 && p.packed > 0 && p.diskann
    ensures SamePages(p, pb, id, p.SlotOf(id)) ==> ListedRight(p, pb, a, b, id)
  {
    TouchPages(p, pb, a, b, id);
    TouchPages(p, pb, a, b, p.SlotOf(id));
    hide Touching;
    assert VecTouching(p, PageOff(a, pb), PageOff(b, pb) + pb, id) <==> Touching(p, PageOff(a, pb), PageOff(b, pb) + pb, p.SlotOf(id)) by { VecIsSlot(p, PageOff(a, pb), PageOff(b, pb) + pb, id); }
  }

  lemma VecIsSlot(p: Placement, lo: nat, hi: nat, id: nat)
    requires p.diskann
    ensures VecTouching(p, lo, hi, id) <==> Touching(p, lo, hi, p.SlotOf(id))
  {}

  /**
   The enumeration visits indexes.  In the disk layout they are slots, so over
   all page ranges it lists the ids exactly when the map leaves every id on the
   pages it would have without a map; packed vectors always stay.
   */
  lemma {:induction false} TouchingAreIds(p: Placement, pb: nat)
    requires pb > 0 && p.packed > 0
    ensures (forall a: nat, b: nat :: a <= b ==> ListsIds(p, pb, a, b)) <==>
            (p.diskann ==> forall id: nat :: id < p.n ==> SamePages(p, pb, id, p.SlotOf(id)))
  {
    if p.diskann {
      if forall id: nat :: id < p.n ==> SamePages(p, pb, id, p.SlotOf(id)) {
        forall a: nat, b: nat, id: nat | a <= b && id < p.n ensures ListedRight(p, pb, a, b, id) { RightForPages(p, pb, a, b, id); }
      }
      if forall a: nat, b: nat :: a <= b ==> ListsIds(p, pb, a, b) {
        forall id: nat | id < p.n ensures SamePages(p, pb, id, p.SlotOf(id)) {
          forall a: nat ensures ListedRight(p, pb, a, a, id) { assert ListsIds(p, pb, a, a); }
          EqualPages(p, pb, id);
        }
      }
    } else {
      forall a: nat, b: nat | a <= b ensures ListsIds(p, pb, a, b) {}
    }
  }

  /** An id listed right for every single page has its record and the one its slot number names on the same pages. */
  lemma EqualPages(p: Placement, pb: nat, id: nat)
    requires pb > 0 && p.packed > 0 && p.diskann && forall a: nat :: ListedRight(p, pb, a, a, id)
    ensures SamePages(p, pb, id, p.SlotOf(id))
  {
    hide *;
    var a, b, c, d := PageEnds(p, pb, id);
    assert ListedRight(p, pb, a, a, id) && ListedRight(p, pb, b, b, id) && ListedRight(p, pb, c, c, id) && ListedRight(p, pb, d, d, id);
  }

  /** The pages of the two records: `a` to `b`, and `c` to `d`. */
  lemma PageEnds(p: Placement, pb: nat, id: nat) returns (a: nat, b: nat, c: nat, d: nat)
    requires pb > 0 && p.packed > 0 && p.diskann
    ensures a <= b && c <= d && (SamePages(p, pb, id, p.SlotOf(id)) <==> a == c && b == d)
    ensures forall t: nat :: ListedRight(p, pb, t, t, id) ==> (a <= t <= b <==> c <= t <= d)
  {
    var x, y := RecOff(p.v0, p.stride, id), RecOff(p.v0, p.stride, p.SlotOf(id));
    DivBetween(x, x, x + p.packed - 1, pb);
    DivBetween(y, y, y + p.packed - 1, pb);
    a, b, c, d := x / pb, (x + p.packed - 1) / pb, y / pb, (y + p.packed - 1) / pb;
    hide ListedRight, RecOff;
    forall t: nat | ListedRight(p, pb, t, t, id) ensures a <= t <= b <==> c <= t <= d { OnPage(p, pb, t, id); }
  }

  lemma OnPage(p: Placement, pb: nat, a: nat, id: nat)
    requires pb > 0 && p.packed > 0 && p.diskann && ListedRight(p, pb, a, a, id)
    ensures var x, y := RecOff(p.v0, p.stride, id), RecOff(p.v0, p.stride, p.SlotOf(id));
      x / pb <= a <= (x + p.packed - 1) / pb <==> y / pb <= a <= (y + p.packed - 1) / pb
  {
    TouchPages(p, pb, a, a, id);
    TouchPages(p, pb, a, a, p.SlotOf(id));
    VecIsSlot(p, PageOff(a, pb), PageOff(a, pb) + pb, id);
    hide Touching, VecTouching;
  }

  /** Two records to a page: the enumeration is right exactly when the map never moves a record to another page. */
  lemma HalfPageRecords(p: Placement, v: nat)
    requires p.diskann && p.stride == 2048 && 0 < p.packed <= 2048 && p.v0 == PageOff(v, 4096)
    ensures (forall a: nat, b: nat :: a <= b ==> ListsIds(p, 4096, a, b)) <==>
            forall id: nat :: id < p.n ==> p.SlotOf(id) / 2 == id / 2
  {
    TouchingAreIds(p, 4096);
    forall id: nat ensures SamePages(p, 4096, id, p.SlotOf(id)) <==> p.SlotOf(id) / 2 == id / 2 {
      HalfPage(p, v, id);
      HalfPage(p, v, p.SlotOf(id));
    }
  }

  lemma HalfPage(p: Placement, v: nat, i: nat)
    requires p.stride == 2048 && 0 < p.packed <= 2048 && p.v0 == PageOff(v, 4096)
    ensures RecOff(p.v0, p.stride, i) / 4096 == v + i / 2
    ensures (RecOff(p.v0, p.stride, i) + p.packed - 1) / 4096 == v + i / 2
  {
    var rest := 2048 * (i % 2);
    assert RecOff(p.v0, p.stride, i) == PageOff(v + i / 2, 4096) + rest;
    IndexOf(v + i / 2, 4096, rest);
    IndexOf(v + i / 2, 4096, rest + p.packed - 1);
  }

  /** A map that swaps two pages: the ids visited for the first page are the two that left it. */
  lemma TouchingMissesMoved(p: Placement)
    requires p.diskann && p.n == 4 && p.v0 == 0 && p.stride == 2048 && p.packed == 2048 && p.idToSlot == [2, 3, 0, 1]
    ensures Touching(p, 0, 4096, 0) && !VecTouching(p, 0, 4096, 0)
    ensures !Touching(p, 0, 4096, 2) && VecTouching(p, 0, 4096, 2)
  {}

  /** The loop over candidate indexes, keeping those whose record lies inside. */
  method Keep(p: Placement, lo: nat, hi: nat, i0: nat, i1: nat, size: nat) returns (at: seq<nat>)
    ensures Increasing(at)
    ensures forall i: nat :: i in at <==> i0 <= i <= i1 && i < p.n && Inside(p, lo, hi, i, size)
  {
    at := [];
    var i := i0;
    while i <= i1 && i < p.n
      invariant i0 <= i && Increasing(at)
      invariant forall j: nat :: j in at <==> i0 <= j < i && j <= i1 && j < p.n && Inside(p, lo, hi, j, size)
    {
      var a := RecOff(p.v0, p.stride, i);
      if lo <= a && a + size <= hi {
        OneHigher(at, i);
        at := at + [i];
      }
      i := i + 1;
    }
  }

  /** The last index whose whole cell ends by `hi`, or 0, and at most the last vector. */
  function LastCell(p: Placement, hi: nat): nat
    requires p.n > 0 && p.stride > 0 && p.v0 <= hi
  {
    var cells := (hi - p.v0) / p.stride;
    Min(if cells > 0 then cells - 1 else 0, p.n - 1)
  }

  /** An index whose whole cell lies inside is one the loop looks at. */
  lemma CellRange(p: Placement, lo: nat, hi: nat, i: nat)
    requires p.stride > 0 && p.v0 < hi
    ensures lo <= RecOff(p.v0, p.stride, i) <==> CeilDiv(Max(lo, p.v0) - p.v0, p.stride) <= i
    ensures RecOff(p.v0, p.stride, i) + p.stride <= hi <==> i + 1 <= (hi - p.v0) / p.stride
  {
    CeilLeast(Max(lo, p.v0) - p.v0, p.stride, i);
    FloorMost(hi - p.v0, p.stride, i + 1);
    NextOff(i, p.stride);
  }

  /** The ids at the given indexes. */
  method IdsAt(p: Placement, at: seq<nat>) returns (ids: seq<nat>)
    requires p.Sound() && Increasing(at) && forall i :: 0 <= i < |at| ==> at[i] < p.n
    ensures Distinct(ids) && forall id: nat :: id in ids <==> p.SlotOf(id) in at
    ensures |ids| == |at| && forall k :: 0 <= k < |ids| ==> p.SlotOf(ids[k]) == at[k]
  {
    ids := [];
    for k := 0 to |at|
      invariant |ids| == k && forall j :: 0 <= j < k ==> ids[j] == p.IdOfSlot(at[j])
    {
      ids := ids + [p.IdOfSlot(at[k])];
    }
    forall i, j | 0 <= i < j < |ids| ensures ids[i] != ids[j] {
      p.SlotsUndo(at[i]);
      p.SlotsUndo(at[j]);
    }
    forall k | 0 <= k < |ids| ensures p.SlotOf(ids[k]) == at[k] { p.SlotsUndo(at[k]); }
    forall id: nat ensures id in ids <==> p.SlotOf(id) in at {
      p.SlotsUndo(id);
      if id in ids {
        var j :| 0 <= j < |ids| && ids[j] == id;
        p.SlotsUndo(at[j]);
      }
      if p.SlotOf(id) in at {
        var j :| 0 <= j < |at| && at[j] == p.SlotOf(id);
        assert ids[j] == id;
      }
    }
  }

  /** `for_ids_contained_in_page`, records of the disk layout: exactly the ids whose record lies inside the page, once each. */
  method IdsOfRecords(p: Placement, pageOff: nat, pageBytes: nat) returns (ids: seq<nat>)
    requires p.Sound() && p.n > 0 && p.stride > 0
    ensures Distinct(ids)
    ensures pageBytes > 0 ==> forall id: nat :: id in ids <==> id < p.n && Inside(p, pageOff, pageOff + pageBytes, p.SlotOf(id), p.stride)
    ensures forall i, j :: 0 <= i < j < |ids| ==> p.SlotOf(ids[i]) < p.SlotOf(ids[j])
    ensures pageBytes == 0 ==> ids == []
  {
    if pageBytes == 0 || pageOff + pageBytes <= p.v0 { return []; }
    var i0 := 0;
    if pageOff > p.v0 { i0 := CeilDiv(pageOff - p.v0, p.stride); }
    var i1 := LastCell(p, pageOff + pageBytes);
    var at := Keep(p, pageOff, pageOff + pageBytes, i0, i1, p.stride);
    assert CeilDiv(0, p.stride) == 0;
    hide Inside, CeilDiv, LastCell, Distinct, Placement.SlotOf, Placement.IdOfSlot, Placement.Sound;
    forall i: nat ensures i in at <==> i < p.n && Inside(p, pageOff, pageOff + pageBytes, i, p.stride) {
      RecordRange(p, pageOff, pageOff + pageBytes, i);
    }
    assert forall i :: 0 <= i < |at| ==> at[i] in at;
    ids := IdsAt(p, at);
    forall id: nat ensures id < p.n <==> p.SlotOf(id) < p.n { p.SlotsUndo(id); }
  }

  lemma RecordRange(p: Placement, lo: nat, hi: nat, i: nat)
    requires p.n > 0 && p.stride > 0 && p.v0 < hi
    ensures i < p.n && Inside(p, lo, hi, i, p.stride) <==>
            CeilDiv(Max(lo, p.v0) - p.v0, p.stride) <= i <= LastCell(p, hi) && i < p.n && Inside(p, lo, hi, i, p.stride)
  {
    CellRange(p, lo, hi, i);
  }

  /**
   `for_ids_contained_in_page`, vectors kept apart from the graph: the vectors
   that lie inside the page, except those (other than vector 0) whose padding
   sticks out of it.  Densely packed vectors have none.
   */
  method IdsOfVectors(p: Placement, pageOff: nat, pageBytes: nat) returns (ids: seq<nat>)
    requires Consistent(p) && p.n > 0
    ensures Increasing(ids)
    ensures p.packed > 0 && pageBytes > 0 ==> forall id: nat :: id in ids <==> VecListed(p, pageOff, pageOff + pageBytes, id)
    ensures p.packed > 0 && pageBytes > 0 && p.packed == p.stride ==>
      forall id: nat :: id in ids <==> id < p.n && Inside(p, pageOff, pageOff + pageBytes, id, p.packed)
    ensures p.packed == 0 || pageBytes == 0 ==> ids == []
  {
    ids := [];
    if pageBytes == 0 || p.packed == 0 { return; }
    var lo, hi := Max(pageOff, p.v0), pageOff + pageBytes;
    if p.packed > pageBytes || lo >= p.v0 + p.vecLen || lo >= hi {
      forall i: nat | i < p.n ensures !Inside(p, pageOff, hi, i, p.packed) { NoneInside(p, pageOff, pageBytes, i); }
      hide Inside;
      return;
    }
    var i0 := CeilDiv(lo - p.v0, p.stride);
    var i1 := LastCell(p, hi);
    ids := Keep(p, pageOff, hi, i0, i1, p.packed);
    hide Inside, CeilDiv, LastCell, VecListed, Increasing, Consistent;
    forall i: nat ensures i in ids <==> VecListed(p, pageOff, hi, i) { VectorRange(p, pageOff, hi, i); }
    if p.packed == p.stride {
      forall i: nat ensures VecListed(p, pageOff, hi, i) <==> i < p.n && Inside(p, pageOff, hi, i, p.packed) { DenseListed(p, pageOff, hi, i); }
    }
  }

  /**
   All vectors inside the page are listed exactly when the last that could end
   in it has its padding there too, is none, or is vector 0, or starts before.
   */
  lemma AllListedIff(p: Placement, lo: nat, hi: nat)
    requires Consistent(p) && p.packed > 0 && p.v0 <= hi
    ensures (forall i: nat :: i < p.n && Inside(p, lo, hi, i, p.packed) ==> VecListed(p, lo, hi, i)) <==>
      var last := (hi - p.v0) / p.stride;
      last == 0 || last >= p.n || RecOff(p.v0, p.stride, last) < lo || (hi - p.v0) % p.stride < p.packed
  {
    var last := (hi - p.v0) / p.stride;
    PageDownOf(hi - p.v0, p.stride);
    forall i: nat | i < p.n && Inside(p, lo, hi, i, p.packed) && !VecListed(p, lo, hi, i) ensures i == last {
      FloorMost(hi - p.v0, p.stride, i);
      FloorMost(hi - p.v0, p.stride, i + 1);
      NextOff(i, p.stride);
    }
    assert RecOff(p.v0, p.stride, last) + (hi - p.v0) % p.stride == hi;
    assert Inside(p, lo, hi, last, p.packed) <==> lo <= RecOff(p.v0, p.stride, last) && p.packed <= (hi - p.v0) % p.stride;
    assert !Inside(p, lo, hi, last, p.stride);
    assert VecListed(p, lo, hi, last) <==> last == 0 && last < p.n && Inside(p, lo, hi, last, p.packed);
  }

  /** A vector that lies inside the first page and is skipped, its padding ending on the second. */
  lemma PaddedVectorSkipped(p: Placement)
    requires p.n == 8 && p.v0 == 0 && p.packed == 1000 && p.stride == 1500 && p.vecLen == 12000
    ensures Consistent(p) && Inside(p, 0, 4096, 2, p.packed) && !VecListed(p, 0, 4096, 2)
  {
    assert PageOff(2, 1500) == 3000 && PageOff(8, 1500) == 12000;
  }

  /** The vectors the loop lists. */
  ghost predicate VecListed(p: Placement, lo: nat, hi: nat, i: nat) {
    i < p.n && Inside(p, lo, hi, i, p.packed) && (i == 0 || Inside(p, lo, hi, i, p.stride))
  }

  lemma DenseListed(p: Placement, lo: nat, hi: nat, i: nat)
    requires p.packed == p.stride
    ensures VecListed(p, lo, hi, i) <==> i < p.n && Inside(p, lo, hi, i, p.packed)
  {}

  lemma NoneInside(p: Placement, lo: nat, size: nat, i: nat)
    requires Consistent(p) && p.packed > 0 && i < p.n
    requires p.packed > size || Max(lo, p.v0) >= p.v0 + p.vecLen || Max(lo, p.v0) >= lo + size
    ensures !Inside(p, lo, lo + size, i, p.packed)
  {
    StepMul(i, p.n, p.stride);
  }

  lemma VectorRange(p: Placement, lo: nat, hi: nat, i: nat)
    requires Consistent(p) && p.n > 0 && p.packed > 0 && p.v0 < hi && Max(lo, p.v0) < hi
    ensures VecListed(p, lo, hi, i) <==>
            CeilDiv(Max(lo, p.v0) - p.v0, p.stride) <= i <= LastCell(p, hi) && i < p.n && Inside(p, lo, hi, i, p.packed)
  {
    CellRange(p, lo, hi, i);
  }
}
