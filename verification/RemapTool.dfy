/**
 The page remapping end to end: the tool assigns slots, in a pairing mode or in
 extent mode, and rewrites the image (tools/remap_diskann_pages.cpp); the reader
 loads the map file and looks ids up (serving/placement.hpp).
 */
module RemapTool {
  import opened Common
  import opened ExtentPages
  import opened Numberers
  import opened PagePairs
  import opened Placements
  import opened Relabel

  /** A renumbering's arrays are permutations. */
  lemma RenumberingPermutes(newToOld: seq<nat>, oldToNew: seq<nat>)
    requires Renumbering(newToOld, oldToNew)
    ensures IsPermutation(oldToNew)
  {
    forall i, j | 0 <= i < j < |oldToNew| ensures oldToNew[i] != oldToNew[j] {
      assert newToOld[oldToNew[i]] == i && newToOld[oldToNew[j]] == j;
    }
  }

  /** The record the reader finds for `id`. */
  ghost predicate ReadsBack(p: Placement, base: Bytes, img: Bytes, id: nat)
    reads p
  {
    && p.EntryOff(id) + p.stride <= |img| && RecOff(p.v0, p.stride, id) + p.stride <= |base|
    && img[p.EntryOff(id)..p.EntryOff(id) + p.stride] == Rec(base, p.v0, p.stride, id)
  }

  /** The map's slots: mates on neighbouring ones. */
  ghost predicate SlotsOf(mate: seq<nat>, file: seq<nat>) {
    && |file| == |mate| && IsPermutation(file)
    && forall v: nat :: v < |mate| && mate[v] != UNSET ==>
      mate[v] < |mate| && file[v] / 2 == file[mate[v]] / 2 && file[v] != file[mate[v]]
  }

  /** The tool: the map file and the image. */
  method Remap(m: Matching, base: Bytes, v0: nat, stride: nat) returns (file: seq<nat>, img: Bytes)
    requires m.Valid() && RecOff(v0, stride, m.n) <= |base|
    ensures SlotsOf(m.mate[..], file)
    ensures |img| == RecOff(v0, stride, m.n) && img[..v0] == base[..v0]
    ensures forall i :: 0 <= i < m.n ==> Moved(base, img, v0, stride, m.n, i, file[i])
  {
    var num: Numberer;
    ghost var pairs;
    num, pairs := AssignSlots(m);
    ghost var mate := m.mate[..];
    assert Involution(mate) && forall v: nat :: v in pairs <==> v < |mate| && mate[v] != UNSET;
    file := num.oldToNew[..];
    MatesOnSlots(mate, pairs, num.newToOld[..], file);
    hide *;
    ghost var table;
    assert IsPermutation(file) by { SlotsPermute(mate, file); }
    img, table := RewriteImage(base, v0, stride, m.n, file);
  }

  lemma SlotsPermute(mate: seq<nat>, file: seq<nat>)
    requires SlotsOf(mate, file)
    ensures |file| == |mate| && IsPermutation(file)
  {}

  lemma MatesOnSlots(mate: seq<nat>, pairs: seq<nat>, newToOld: seq<nat>, file: seq<nat>)
    requires Renumbering(newToOld, file) && pairs <= newToOld && PairedUp(pairs, mate) && Involution(mate) && |mate| == |file|
    requires forall v: nat :: v in pairs <==> v < |mate| && mate[v] != UNSET
    ensures SlotsOf(mate, file)
  {
    RenumberingPermutes(newToOld, file);
    forall v: nat | v < |mate| && mate[v] != UNSET ensures file[v] / 2 == file[mate[v]] / 2 && file[v] != file[mate[v]] {
      MatesShare(pairs, mate, newToOld, file, v);
    }
  }

  /**
   Tool and reader together: the reader accepts the tool's map, finds every
   id's own record in the rewritten image, and the header is as it was.  Where
   a page holds two records or more, `page_sibling` of a paired id is its mate.
   */
  method RemapAndLoad(m: Matching, base: Bytes, p: Placement) returns (img: Bytes, ok: bool)
    requires m.Valid() && p.n == m.n && RecOff(p.v0, p.stride, p.n) <= |base|
    modifies p
    ensures ok && p.Mapped()
    ensures |img| == RecOff(p.v0, p.stride, p.n) && img[..p.v0] == base[..p.v0]
    ensures forall id: nat :: id < p.n ==> ReadsBack(p, base, img, id)
    ensures p.stride > 0 && 4096 / p.stride >= 2 ==> SiblingsAreMates(p, m.mate[..])
  {
    var file;
    file, img := Remap(m, base, p.v0, p.stride);
    assert file[..p.n] == file;
    hide Moved, ReadsBack, SiblingsAreMates, RecOff, Placement.Mapped;
    ok := p.LoadSlotMap(file);
    AllReadBack(p, base, img, file);
    if p.stride > 0 && 4096 / p.stride >= 2 { AllSiblings(p, m.mate[..]); }
  }

  /** The half-full last page keeps its place, or there is none. */
  ghost predicate LastStays(n: nat, runs: seq<seq<nat>>) {
    n % 2 == 0 || (var np := PageCount(n); var order := Rest(PackAll(np, runs), 0, np); |order| == np && order[np - 1] == np - 1)
  }

  /** Two ids share a page of two records under the loaded map exactly when they did under the tool's input. */
  ghost predicate SharesKept(p: Placement, idToSlot: seq<nat>)
    reads p
  {
    forall a: nat, b: nat :: a < |idToSlot| && b < |idToSlot| ==>
      (p.SlotOf(a) / 2 == p.SlotOf(b) / 2 <==> idToSlot[a] / 2 == idToSlot[b] / 2)
  }

  /**
   Extent mode and reader together: the reader accepts the map the tool writes
   exactly when the half-full last page, if there is one, stays last.  Then it
   reads every id's own record from the rewritten image, and ids share pages as
   they did.  Otherwise the tool's table of slots is too short, and no image is
   written here.
   */
  method ExtentAndLoad(idToSlot: seq<nat>, runs: seq<seq<nat>>, base: Bytes, p: Placement) returns (img: Option<Bytes>, ok: bool)
    requires IsPermutation(idToSlot) && |idToSlot| == p.n <= UNSET && RecOff(p.v0, p.stride, p.n) <= |base|
    modifies p
    ensures ok <==> LastStays(p.n, runs)
    ensures ok <==> img.Some?
    ensures ok ==> p.Mapped() && SharesKept(p, idToSlot)
    ensures ok ==> |img.value| == RecOff(p.v0, p.stride, p.n) && img.value[..p.v0] == base[..p.v0]
    ensures ok ==> forall id: nat :: id < p.n ==> ReadsBack(p, base, img.value, id)
  {
    var file := ExtentFile(idToSlot, runs);
    assert file[..p.n] == file;
    hide Moved, ReadsBack, RecOff, Placement.Mapped, SharesKept, PagesMoved, LastStays, IsPermutation;
    ok := p.LoadSlotMap(file);
    if !ok { return None, false; }
    ghost var table;
    var out;
    out, table := RewriteImage(base, p.v0, p.stride, p.n, file);
    AllReadBack(p, base, out, file);
    AllShared(p, idToSlot, file);
    img := Some(out);
  }

  /** Pages of two records move as wholes. */
  ghost predicate PagesMoved(idToSlot: seq<nat>, file: seq<nat>) {
    |file| == |idToSlot| && forall a: nat, b: nat :: a < |file| && b < |file| ==> (file[a] / 2 == file[b] / 2 <==> idToSlot[a] / 2 == idToSlot[b] / 2)
  }

  method ExtentFile(idToSlot: seq<nat>, runs: seq<seq<nat>>) returns (file: seq<nat>)
    requires IsPermutation(idToSlot) && |idToSlot| <= UNSET
    ensures |file| == |idToSlot| && PagesMoved(idToSlot, file) && (IsPermutation(file) <==> LastStays(|idToSlot|, runs))
  {
    hide PackAll, Rest;
    var r, num := ExtentMap(idToSlot, runs);
    file := r.value;
    ghost var pageOld, pageNew := num.newToOld[..], num.oldToNew[..];
    BijectiveIffLastStays(pageOld, pageNew, idToSlot);
    forall a: nat, b: nat | a < |file| && b < |file| ensures file[a] / 2 == file[b] / 2 <==> idToSlot[a] / 2 == idToSlot[b] / 2 {
      KeepsMates(pageOld, pageNew, idToSlot, a, b);
    }
    LastPage(pageOld, pageNew, |idToSlot|, runs);
  }

  lemma LastPage(pageOld: seq<nat>, pageNew: seq<nat>, n: nat, runs: seq<seq<nat>>)
    requires Renumbering(pageOld, pageNew) && |pageNew| == PageCount(n) && pageOld == Rest(PackAll(PageCount(n), runs), 0, PageCount(n))
    ensures LastStays(n, runs) <==> n % 2 == 0 || pageNew[|pageNew| - 1] == |pageNew| - 1
  {
    hide PackAll, Rest;
    if n % 2 != 0 {
      var last := |pageNew| - 1;
      assert pageOld[pageNew[last]] == last && pageNew[pageOld[last]] == last;
    }
  }

  lemma AllShared(p: Placement, idToSlot: seq<nat>, file: seq<nat>)
    requires p.Mapped() && p.idToSlot == file && |idToSlot| == p.n && PagesMoved(idToSlot, file)
    ensures SharesKept(p, idToSlot)
  {}

  lemma AllReadBack(p: Placement, base: Bytes, img: Bytes, file: seq<nat>)
    requires p.Mapped() && p.idToSlot == file
    requires forall i :: 0 <= i < p.n ==> Moved(base, img, p.v0, p.stride, p.n, i, file[i])
    ensures forall id: nat :: id < p.n ==> ReadsBack(p, base, img, id)
  {
    forall id: nat | id < p.n ensures ReadsBack(p, base, img, id) { RemapReadsBack(p, base, img, p.n, id); }
  }

  /** `page_sibling` finds every mate. */
  ghost predicate SiblingsAreMates(p: Placement, mate: seq<nat>)
    reads p
  {
    forall v: nat :: v < |mate| && mate[v] != UNSET ==> p.PageSibling(v) == mate[v]
  }

  lemma AllSiblings(p: Placement, mate: seq<nat>)
    requires p.Mapped() && p.n == |mate| && p.stride > 0 && 4096 / p.stride >= 2 && SlotsOf(mate, p.idToSlot)
    ensures SiblingsAreMates(p, mate)
  {
    forall v: nat | v < p.n && mate[v] != UNSET ensures p.PageSibling(v) == mate[v] { SiblingIsMate(p, v, mate[v]); }
  }

  /** Two ids on one pair of slots are each other's sibling. */
  lemma SiblingIsMate(p: Placement, v: nat, w: nat)
    requires p.Mapped() && v < p.n && w < p.n && p.stride > 0 && 4096 / p.stride >= 2
    requires p.SlotOf(v) / 2 == p.SlotOf(w) / 2 && p.SlotOf(v) != p.SlotOf(w)
    ensures p.PageSibling(v) == w
  {
    assert FlipLow(p.SlotOf(v)) == p.SlotOf(w);
    p.SlotsUndo(w);
  }
}
