/**
 The hops a fill asks for reach the frames of its pages: what a pump of the
 fill pipe does to soft pins, action by action (serving/hide_fill.hpp).
 */
module SoftFills {
  import opened Common
  import opened Counting
  import PageMath
  import opened WindowSpec
  import opened WindowProofs
  import opened SoftPins
  import opened PipeSpec
  import opened PipeProofs

  /** Pages of a slot the owner has not noted yet. */
  function UnnotedOf(sl: Slot): nat {
    if sl.active && |sl.consumed| >= Count(sl.consumed) then |sl.consumed| - Count(sl.consumed) else 0
  }

  function Unnoted(slots: seq<Slot>): nat {
    if slots == [] then 0 else Unnoted(slots[..|slots| - 1]) + UnnotedOf(slots[|slots| - 1])
  }

  lemma {:induction false} UnnotedUpdate(slots: seq<Slot>, s: nat, sl: Slot)
    requires s < |slots|
    ensures Unnoted(slots[s := sl]) + UnnotedOf(slots[s]) == Unnoted(slots) + UnnotedOf(sl)
  {
    var n := |slots| - 1;
    if s == n {
      assert slots[s := sl][..n] == slots[..n];
    } else {
      assert slots[s := sl][..n] == slots[..n][s := sl];
      UnnotedUpdate(slots[..n], s, sl);
    }
  }

  lemma {:induction false} UnnotedSame(a: seq<Slot>, b: seq<Slot>)
    requires |a| == |b| && forall s :: 0 <= s < |a| ==> UnnotedOf(a[s]) == UnnotedOf(b[s])
    ensures Unnoted(a) == Unnoted(b)
  {
    if a != [] { UnnotedSame(a[..|a| - 1], b[..|b| - 1]); }
  }

  /** Slots still active list what they listed, and ask for the hops they asked for. */
  ghost predicate KeptSlots(p: Pipe, q: Pipe) {
    && |q.slots| == |p.slots|
    && forall s :: 0 <= s < |p.slots| && q.slots[s].active ==>
         p.slots[s].active && q.slots[s].pages == p.slots[s].pages && q.slots[s].ttl == p.slots[s].ttl
  }

  /** Fill `s` listed the page, which is now guarded for the hops that fill asked for. */
  ghost predicate BySlot(p: Pipe, q: Pipe, x: nat, s: nat) {
    s < |p.slots| && p.slots[s].active && x in p.slots[s].pages && Guarded(q.win, x, p.slots[s].ttl)
  }

  ghost predicate Accounted(p: Pipe, q: Pipe, x: nat) {
    StaysGuarded(p.win, q.win, x) || exists s: nat :: BySlot(p, q, x, s)
  }

  /** The soft budget has room for every page not yet noted and `n` noted ones waiting, neighbours included. */
  ghost predicate SoftFits(c: Config, p: Pipe, n: nat) {
    SoftRoom(c, p.win, Unnoted(p.slots) + n)
  }

  /**
   With room in the soft budget, every resident page was resident before and is
   guarded no less, or is guarded for at least the hops of a fill that listed it.
   */
  ghost predicate Softened(c: Config, p: Pipe, m: nat, q: Pipe, n: nat) {
    && KeptSlots(p, q)
    && (SoftFits(c, p, m) ==> SoftFits(c, q, n) && forall x :: x in q.win.pageMap ==> Accounted(p, q, x))
  }

  lemma SoftenedSelf(c: Config, p: Pipe, m: nat)
    ensures Softened(c, p, m, p, m)
  {
    hide SoftFits;
    AllStay(p.win);
  }

  lemma SoftenedTwice(c: Config, p: Pipe, m: nat, q: Pipe, n: nat, r: Pipe, k: nat)
    requires Softened(c, p, m, q, n) && Softened(c, q, n, r, k)
    ensures Softened(c, p, m, r, k)
  {
    hide SoftFits, Accounted, StaysGuarded;
    if SoftFits(c, p, m) {
      forall x | x in r.win.pageMap ensures Accounted(p, r, x) { AccountedTwice(p, q, r, x); }
    }
  }

  lemma AccountedTwice(p: Pipe, q: Pipe, r: Pipe, x: nat)
    requires KeptSlots(p, q) && Accounted(q, r, x) && forall y :: y in q.win.pageMap ==> Accounted(p, q, y)
    ensures Accounted(p, r, x)
  {
    if StaysGuarded(q.win, r.win, x) {
      assert Accounted(p, q, x);
      if !StaysGuarded(p.win, q.win, x) {
        var s: nat :| BySlot(p, q, x, s);
        assert BySlot(p, r, x, s);
      }
    } else {
      var s: nat :| BySlot(q, r, x, s);
      assert BySlot(p, r, x, s);
    }
  }

  /** Actions that touch neither soft pins nor what is listed and noted. */
  lemma SoftenedSame(c: Config, p: Pipe, q: Pipe, n: nat)
    requires |q.slots| == |p.slots| && q.win == p.win.(frames := q.win.frames)
    requires forall s :: 0 <= s < |p.slots| ==>
      && q.slots[s].active == p.slots[s].active && q.slots[s].pages == p.slots[s].pages
      && q.slots[s].ttl == p.slots[s].ttl && q.slots[s].consumed == p.slots[s].consumed
    ensures Softened(c, p, n, q, n)
  {
    UnnotedSame(p.slots, q.slots);
    hide Unnoted, SoftRoom;
    forall x | x in q.win.pageMap ensures StaysGuarded(p.win, q.win, x) {}
    assert c == c && SoftFits(c, p, n) == SoftFits(c, q, n) by { SameRoom(c, p.win, q.win, Unnoted(p.slots) + n); }
  }

  lemma SameRoom(c: Config, w: Win, w': Win, n: nat)
    requires w'.softBytes == w.softBytes
    ensures SoftRoom(c, w, n) == SoftRoom(c, w', n)
  {}

  /** One page noted and put on the batch. */
  lemma SoftenedMark(c: Config, p: Pipe, s: nat, i: nat, n: nat)
    requires s < |p.slots| && p.slots[s].active && i < |p.slots[s].consumed| && !p.slots[s].consumed[i]
    ensures Softened(c, p, n, Mark(p, s, i), n + 1)
  {
    OneNoted(p.slots[s], Mark(p, s, i).slots[s], i);
    UnnotedUpdate(p.slots, s, Mark(p, s, i).slots[s]);
    hide Unnoted, UnnotedOf, SoftRoom;
    AllStay(p.win);
  }

  lemma OneNoted(a: Slot, b: Slot, i: nat)
    requires a.active && b.active && i < |a.consumed| && !a.consumed[i] && b.consumed == a.consumed[i := true]
    ensures UnnotedOf(b) + 1 == UnnotedOf(a)
  {
    CountUpdate(a.consumed, i, true);
    CountBound(a.consumed);
    CountBound(b.consumed);
  }

  /** A page filled in place is committed with the hops its fill asked for. */
  lemma SoftenedCommit(c: Config, p: Pipe, s: nat, i: nat)
    requires Valid(c, p.win) && s < |p.slots| && p.slots[s].active && i < |p.slots[s].pages| && i < |p.slots[s].frames|
    requires i < |p.slots[s].consumed| && !p.slots[s].consumed[i]
    requires p.slots[s].frames[i] < c.nFrames && p.win.filling[p.slots[s].frames[i]]
    ensures Softened(c, p, 0, CommitEntry(c, p, s, i), 0)
  {
    var q := CommitEntry(c, p, s, i);
    var page, fr, t := p.slots[s].pages[i], p.slots[s].frames[i], p.slots[s].ttl;
    OneNoted(p.slots[s], q.slots[s], i);
    UnnotedUpdate(p.slots, s, q.slots[s]);
    CommitOthers(c, p.win, page, fr, t);
    if page !in p.win.pageMap { CommitGuards(c, p.win, page, fr, t); }
    assert q.slots == p.slots[s := q.slots[s]];
    hide Unnoted, UnnotedOf, Valid, Commit, Guarded, StaysGuarded;
    if SoftFits(c, p, 0) {
      RoomOne2(c, p.win, q.win, Unnoted(q.slots));
      forall x | x in q.win.pageMap ensures Accounted(p, q, x) {
        if x == page && page !in p.win.pageMap { assert BySlot(p, q, x, s); }
      }
    }
  }

  lemma RoomOne2(c: Config, w: Win, w': Win, n: nat)
    requires c.pageBytes > 0 && SoftRoom(c, w, n + 1) && w'.softBytes <= w.softBytes + c.pageBytes
    ensures SoftRoom(c, w', n) && !Spent(c, w)
  {
    OffOrderThree(c.pageBytes);
    RoomOne(c, w, w', n);
  }

  lemma OffOrderThree(pb: nat)
    ensures pb <= PageMath.PageOff(3, pb)
  {}

  /** A batch of pages of slot `s` goes into the window with the hops its fill asked for. */
  lemma SoftenedBatch(c: Config, p: Pipe, s: nat, pages: seq<nat>, hosts: seq<Bytes>, w: Win)
    requires Valid(c, p.win) && c.nFrames > 0 && HasIdle(p.win) && |pages| == |hosts| && s < |p.slots| && p.slots[s].active
    requires forall k :: 0 <= k < |pages| ==> IsPage(c, pages[k]) && hosts[k] == PageAt(c, pages[k])
    requires forall k :: 0 <= k < |pages| ==> pages[k] in p.slots[s].pages
    requires w == InstallAll(c, p.win, pages, hosts, p.slots[s].ttl)
    ensures Softened(c, p, |pages|, p.(win := w), 0)
  {
    assert KeptSlots(p, p.(win := w));
    hide Valid, HasIdle, InstallAll, Accounted, SoftFits;
    if SoftFits(c, p, |pages|) { BatchFits(c, p, s, pages, hosts, p.(win := w)); }
  }

  lemma BatchFits(c: Config, p: Pipe, s: nat, pages: seq<nat>, hosts: seq<Bytes>, q: Pipe)
    requires Valid(c, p.win) && c.nFrames > 0 && HasIdle(p.win) && |pages| == |hosts| && s < |p.slots| && p.slots[s].active
    requires forall k :: 0 <= k < |pages| ==> IsPage(c, pages[k]) && hosts[k] == PageAt(c, pages[k])
    requires forall k :: 0 <= k < |pages| ==> pages[k] in p.slots[s].pages
    requires q.win == InstallAll(c, p.win, pages, hosts, p.slots[s].ttl) && q.slots == p.slots && SoftFits(c, p, |pages|)
    ensures SoftFits(c, q, 0) && forall x :: x in q.win.pageMap ==> Accounted(p, q, x)
  {
    hide *;
    FitsBefore(c, p, |pages|);
    BatchRoom(c, p.win, pages, hosts, p.slots[s].ttl, Unnoted(p.slots), q.win);
    FitsAfter(c, p, q);
    BatchAccounted(p, q, s, pages);
  }

  lemma FitsBefore(c: Config, p: Pipe, n: nat)
    requires SoftFits(c, p, n)
    ensures SoftRoom(c, p.win, n + Unnoted(p.slots))
  {}

  lemma FitsAfter(c: Config, p: Pipe, q: Pipe)
    requires q.slots == p.slots && SoftRoom(c, q.win, Unnoted(p.slots))
    ensures SoftFits(c, q, 0)
  {}

  lemma BatchAccounted(p: Pipe, q: Pipe, s: nat, pages: seq<nat>)
    requires s < |p.slots| && p.slots[s].active && forall k :: 0 <= k < |pages| ==> pages[k] in p.slots[s].pages
    requires forall x :: x in q.win.pageMap ==> StaysGuarded(p.win, q.win, x) || (x in pages && Guarded(q.win, x, p.slots[s].ttl))
    ensures forall x :: x in q.win.pageMap ==> Accounted(p, q, x)
  {
    hide *;
    forall x | x in q.win.pageMap ensures Accounted(p, q, x) {
      if StaysGuarded(p.win, q.win, x) { StillThere(p, q, x); } else { InBatch(p, q, x, s, pages); }
    }
  }

  lemma BatchRoom(c: Config, v: Win, pages: seq<nat>, hosts: seq<Bytes>, t: nat, n: nat, w: Win)
    requires Valid(c, v) && c.nFrames > 0 && HasIdle(v) && |pages| == |hosts| && SoftRoom(c, v, |pages| + n)
    requires forall k :: 0 <= k < |pages| ==> IsPage(c, pages[k]) && hosts[k] == PageAt(c, pages[k])
    requires w == InstallAll(c, v, pages, hosts, t)
    ensures SoftRoom(c, w, n) && forall x :: x in w.pageMap ==> StaysGuarded(v, w, x) || (x in pages && Guarded(w, x, t))
  {
    InstallAllRoom(c, v, pages, hosts, t, n);
  }

  lemma StillThere(p: Pipe, q: Pipe, x: nat)
    requires StaysGuarded(p.win, q.win, x)
    ensures Accounted(p, q, x)
  {}

  lemma InBatch(p: Pipe, q: Pipe, x: nat, s: nat, pages: seq<nat>)
    requires s < |p.slots| && p.slots[s].active && x in pages && Guarded(q.win, x, p.slots[s].ttl)
    requires forall k :: 0 <= k < |pages| ==> pages[k] in p.slots[s].pages
    ensures Accounted(p, q, x)
  {
    assert BySlot(p, q, x, s);
  }

  /** Giving back a slot whose pages are all noted. */
  lemma SoftenedClear(c: Config, p: Pipe, s: nat, n: nat)
    requires s < |p.slots| && (forall i :: 0 <= i < |p.slots[s].consumed| ==> p.slots[s].consumed[i])
    ensures Softened(c, p, n, ClearSlot(p, s), n)
  {
    CountFull(p.slots[s].consumed);
    UnnotedUpdate(p.slots, s, Cleared(p.slots[s]));
    hide Unnoted, SoftRoom;
    AllStay(p.win);
  }
}
