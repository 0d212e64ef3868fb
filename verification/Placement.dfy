/**
 Where records lie (serving/placement.hpp) and the rewriting of an image by
 slots (tools/remap_diskann_pages.cpp).  Offsets are byte offsets into the
 mapped image; no neighbour bundle is attached.
 */
module Placements {
  import opened Common
  import opened Counting
  import opened PageMath
  import opened Relabel

  type Bytes = seq<bv8>

  /** Byte offset of record `s`. */
  function RecOff(v0: nat, stride: nat, s: nat): nat {
    v0 + PageOff(s, stride)
  }

  /** Record `s` of an image. */
  function Rec(img: Bytes, v0: nat, stride: nat, s: nat): Bytes
    requires RecOff(v0, stride, s) + stride <= |img|
  {
    img[RecOff(v0, stride, s)..RecOff(v0, stride, s) + stride]
  }

  lemma RecFits(v0: nat, stride: nat, s: nat, n: nat)
    requires s < n
    ensures RecOff(v0, stride, s) + stride <= RecOff(v0, stride, n)
  {
    StepMul(s, n, stride);
  }

  /** Flip the lowest bit. */
  function FlipLow(s: nat): nat {
    if s % 2 == 0 then s + 1 else s - 1
  }

  class Placement {
    const n: nat
    const v0: nat            // off_vectors
    const vecLen: nat        // len_vectors
    const stride: nat        // vec_stride
    const packed: nat        // bytes of one vector
    const diskann: bool
    var idToSlot: seq<nat>
    var slotToId: seq<nat>

    ghost predicate Mapped()
      reads this
    {
      |idToSlot| == n && Renumbering(slotToId, idToSlot)
    }

    /** No map, and ids are slots both ways, or a map that is a bijection. */
    ghost predicate Sound()
      reads this
    {
      (idToSlot == [] && forall s :: 0 <= s < |slotToId| ==> slotToId[s] == s) || Mapped()
    }

    constructor (count: nat, off: nat, len: nat, step: nat, vecBytes: nat, disk: bool)
      ensures n == count && v0 == off && vecLen == len && stride == step && packed == vecBytes && diskann == disk
      ensures idToSlot == [] && slotToId == []
    {
      n, v0, vecLen, stride, packed, diskann := count, off, len, step, vecBytes, disk;
      idToSlot, slotToId := [], [];
    }

    /**
     `load_id_slot_map`: accepted exactly when the file holds a permutation; a
     refused one leaves `slot_of` as it was.  A short file changes nothing, but a
     file refused for its numbers has overwritten the other direction: the two
     still fit only for a single record.
     */
    method LoadSlotMap(file: seq<nat>) returns (ok: bool)
      modifies this
      ensures ok <==> n <= |file| && IsPermutation(file[..n])
      ensures ok ==> Mapped() && idToSlot == file[..n]
      ensures !ok ==> idToSlot == old(idToSlot)
      ensures |file| < n ==> slotToId == old(slotToId)
      ensures !ok && n <= |file| ==>
        |slotToId| == n && forall s: nat :: s < n ==> slotToId[s] == 0 || (slotToId[s] < n && file[slotToId[s]] == s)
      ensures !ok && old(Sound()) ==> (Sound() <==> |file| < n || n == 1)
    {
      if |file| < n { return false; }
      var slots := file[..n];
      var seen := new bool[n](_ => false);
      slotToId := seq(n, _ => 0);
      hide IsPermutation;
      for i := 0 to n
        invariant |slotToId| == n && idToSlot == old(idToSlot)
        invariant forall j :: 0 <= j < i ==> slots[j] < n && seen[slots[j]] && slotToId[slots[j]] == j
        invariant forall s :: 0 <= s < n && seen[s] ==> slotToId[s] < i && slots[slotToId[s]] == s
        invariant forall s :: 0 <= s < n && !seen[s] ==> slotToId[s] == 0
      {
        var s := slots[i];
        if s >= n || seen[s] {
          NotPermutation(slots, i, if s >= n then i else slotToId[s]);
          NoLast(idToSlot, slotToId, n);
          return false;
        }
        seen[s] := true;
        slotToId := slotToId[s := i];
      }
      idToSlot := slots;
      AllNamed(slots, slotToId);
      return true;
    }

    function SlotOf(id: nat): nat
      reads this
    {
      if idToSlot == [] || id >= |idToSlot| then id else idToSlot[id]
    }

    function IdOfSlot(slot: nat): nat
      reads this
    {
      if slotToId == [] || slot >= |slotToId| then slot else slotToId[slot]
    }

    /** Slots and ids undo each other. */
    lemma SlotsUndo(id: nat)
      requires Sound()
      ensures IdOfSlot(SlotOf(id)) == id && SlotOf(IdOfSlot(id)) == id
      ensures id < n <==> SlotOf(id) < n
    {
      if id < |idToSlot| { assert slotToId[idToSlot[id]] == id && idToSlot[slotToId[id]] == id; }
    }

    function EntryOff(id: nat): nat
      reads this
    {
      RecOff(v0, stride, SlotOf(id))
    }

    function VecOff(id: nat): nat
      reads this
    {
      if diskann then EntryOff(id) else RecOff(v0, stride, id)
    }

    /** `page_sibling`: whoever holds the slot next to this id's on the page. */
    function PageSibling(id: nat): nat
      reads this
    {
      if stride == 0 || 4096 / stride < 2 then id
      else
        var s := FlipLow(SlotOf(id));
        if s >= n then id else IdOfSlot(s)
    }

    /** Siblings come in pairs, on neighbouring slots; with an even number of records a page they share the page. */
    lemma SiblingsPair(id: nat)
      requires Sound() && id < n && stride > 0
      ensures PageSibling(PageSibling(id)) == id && PageSibling(id) < n
      ensures PageSibling(id) == id <==> 4096 / stride < 2 || (SlotOf(id) % 2 == 0 && SlotOf(id) + 1 == n)
      ensures SlotOf(PageSibling(id)) / 2 == SlotOf(id) / 2
      ensures PageSibling(id) != id && (4096 / stride) % 2 == 0 ==>
        SlotOf(PageSibling(id)) / (4096 / stride) == SlotOf(id) / (4096 / stride)
    {
      var s := SlotOf(id);
      SlotsUndo(id);
      var t := FlipLow(s);
      SlotsUndo(t);
      SlotsUndo(IdOfSlot(t));
      assert FlipLow(t) == s && t != s;
      if 4096 / stride >= 2 && t < n {
        assert IdOfSlot(t) != id;
        if (4096 / stride) % 2 == 0 { SameCell(s, 4096 / stride); }
      }
    }
  }

  /** Half-written slots name no slot for the last id, so they undo nothing unless there is one record. */
  lemma NoLast(idToSlot: seq<nat>, slotToId: seq<nat>, n: nat)
    requires |slotToId| == n > 0 && forall s :: 0 <= s < n ==> slotToId[s] == 0 || slotToId[s] < n - 1
    ensures n > 1 ==> !Renumbering(slotToId, idToSlot) && slotToId[n - 1] != n - 1
    ensures n == 1 ==> slotToId == [0] && (|idToSlot| == 1 && idToSlot[0] == 0 ==> Renumbering(slotToId, idToSlot))
  {
    if Renumbering(slotToId, idToSlot) { LastNamed(idToSlot, slotToId, n); }
  }

  /** A number out of range, or one met before, and the list is no permutation. */
  lemma NotPermutation(slots: seq<nat>, i: nat, j: nat)
    requires i < |slots| && (slots[i] >= |slots| || (j < i && slots[j] == slots[i]))
    ensures !IsPermutation(slots)
  {}

  /** Every id's slot names it: the map is a permutation and the two undo each other. */
  lemma AllNamed(slots: seq<nat>, slotToId: seq<nat>)
    requires |slots| == |slotToId| && forall i :: 0 <= i < |slots| ==> slots[i] < |slots| && slotToId[slots[i]] == i
    ensures IsPermutation(slots) && Renumbering(slotToId, slots)
  {
    forall i, j | 0 <= i < j < |slots| ensures slots[i] != slots[j] { assert slotToId[slots[i]] == i && slotToId[slots[j]] == j; }
    forall s: nat | s < |slots| ensures slotToId[s] < |slots| && slots[slotToId[s]] == s {
      var i := PermutationOnto(slots, s);
      assert slotToId[slots[i]] == i;
    }
  }

  lemma LastNamed(idToSlot: seq<nat>, slotToId: seq<nat>, n: nat)
    requires |slotToId| == n > 0 && Renumbering(slotToId, idToSlot)
    ensures exists s :: 0 <= s < n && slotToId[s] == n - 1
  {
    assert slotToId[idToSlot[n - 1]] == n - 1;
  }

  /** No map loaded, and a file that names slot 0 twice: it is refused, and then slot 1 has no id and id 0 no sibling. */
  method RefusedMapBreaks() returns (p: Placement, ok: bool)
    ensures p.n == 2 && p.stride == 2048 && !ok && !p.Sound()
    ensures p.SlotOf(1) == 1 && p.IdOfSlot(1) == 0 && p.PageSibling(0) == 0
  {
    p := new Placement(2, 0, 4096, 2048, 4, true);
    var file := [0, 0];
    assert file[..2] == file && file[0] == file[1];
    ok := p.LoadSlotMap(file);
  }

  /** Flipping the lowest bit stays within a block of even length. */
  lemma SameCell(s: nat, k: nat)
    requires k > 0 && k % 2 == 0
    ensures FlipLow(s) / k == s / k
  {
    PageDownOf(s, k);
    var q, r := s / k, s % k;
    EvenOff(q, k);
    assert r % 2 == s % 2 by { EvenSplit(PageOff(q, k), r); }
    if s % 2 == 0 { IndexOf(q, k, r + 1); } else { IndexOf(q, k, r - 1); }
  }

  lemma EvenSplit(a: nat, r: nat)
    requires a % 2 == 0
    ensures (a + r) % 2 == r % 2
  {}

  lemma EvenOff(q: nat, k: nat)
    requires k % 2 == 0
    ensures PageOff(q, k) % 2 == 0
  {
    var h := k / 2;
    assert q * (2 * h) == 2 * (q * h);
  }

  // ------------------------------------------------------------ the rewritten image

  /** The header, then the records in slot order. */
  method RewriteImage(base: Bytes, v0: nat, stride: nat, n: nat, idToSlot: seq<nat>) returns (out: Bytes, ghost slotToId: seq<nat>)
    requires |idToSlot| == n && IsPermutation(idToSlot) && RecOff(v0, stride, n) <= |base|
    ensures Renumbering(slotToId, idToSlot)
    ensures |out| == RecOff(v0, stride, n) && out[..v0] == base[..v0]
    ensures forall id :: 0 <= id < n ==> Moved(base, out, v0, stride, n, id, idToSlot[id])
  {
    var table := InvertSlots(idToSlot);
    slotToId := table;
    out := base[..v0];
    assert RecOff(v0, stride, 0) == v0;
    for s := 0 to n
      invariant |out| == RecOff(v0, stride, s) && out[..v0] == base[..v0]
      invariant forall r :: 0 <= r < s ==> Moved(base, out, v0, stride, n, table[r], r)
    {
      var id := table[s];
      RecFits(v0, stride, id, n);
      RecFits(v0, stride, s, s + 1);
      NextOff(s, stride);
      var rec := base[RecOff(v0, stride, id)..RecOff(v0, stride, id) + stride];
      RecAppends(base, out, rec, v0, stride, n, table, s);
      out := out + rec;
    }
    forall id | 0 <= id < n ensures Moved(base, out, v0, stride, n, id, idToSlot[id]) {
      assert table[idToSlot[id]] == id;
    }
  }

  /** Record `id` of the old image is record `s` of the new one. */
  ghost predicate Moved(base: Bytes, out: Bytes, v0: nat, stride: nat, n: nat, id: nat, s: nat) {
    && RecOff(v0, stride, id) + stride <= |base| && RecOff(v0, stride, s) + stride <= |out|
    && Rec(out, v0, stride, s) == Rec(base, v0, stride, id)
  }

  lemma RecAppends(base: Bytes, out: Bytes, rec: Bytes, v0: nat, stride: nat, n: nat, table: seq<nat>, s: nat)
    requires s < |table| && |out| == RecOff(v0, stride, s) && |rec| == stride
    requires RecOff(v0, stride, table[s]) + stride <= |base| && rec == Rec(base, v0, stride, table[s])
    requires forall r :: 0 <= r < s ==> Moved(base, out, v0, stride, n, table[r], r)
    ensures forall r :: 0 <= r < s + 1 ==> Moved(base, out + rec, v0, stride, n, table[r], r)
  {
    forall r | 0 <= r < s + 1 ensures Moved(base, out + rec, v0, stride, n, table[r], r) {
      if r < s {
        assert Moved(base, out, v0, stride, n, table[r], r);
        var o := RecOff(v0, stride, r);
        assert (out + rec)[o..o + stride] == out[o..o + stride];
      } else {
        assert (out + rec)[|out|..|out| + stride] == rec;
      }
    }
  }

  method InvertSlots(idToSlot: seq<nat>) returns (table: seq<nat>)
    requires IsPermutation(idToSlot)
    ensures Renumbering(table, idToSlot)
  {
    var n := |idToSlot|;
    table := seq(n, _ => 0);
    for id := 0 to n
      invariant |table| == n && forall j :: 0 <= j < id ==> table[idToSlot[j]] == j
    {
      table := table[idToSlot[id] := id];
    }
    AllNamed(idToSlot, table);
  }

  /** Reading id by id through the loaded map gives back the image the tool started from. */
  lemma RemapReadsBack(p: Placement, base: Bytes, out: Bytes, n: nat, id: nat)
    requires p.Mapped() && p.n == n && id < n
    requires forall i :: 0 <= i < n ==> Moved(base, out, p.v0, p.stride, n, i, p.idToSlot[i])
    ensures p.EntryOff(id) + p.stride <= |out| && RecOff(p.v0, p.stride, id) + p.stride <= |base|
    ensures out[p.EntryOff(id)..p.EntryOff(id) + p.stride] == Rec(base, p.v0, p.stride, id)
  {
    assert Moved(base, out, p.v0, p.stride, n, id, p.idToSlot[id]);
  }
}
