/** What every operation of the page window keeps, and what each does to residency. */
module WindowProofs {
  import opened Common
  import opened Counting
  import opened PageMath
  import opened WindowSpec

  function SoftFlags(ttl: seq<nat>): (r: seq<bool>) {
    seq(|ttl|, i requires 0 <= i < |ttl| => ttl[i] > 0)
  }

  // ------------------------------------------------------------ the invariant

  /** The map is the exact inverse of the keys of the frames that are not being filled. */
  ghost predicate Inverse(m: map<nat, nat>, key: seq<Option<nat>>, filling: seq<bool>)
    requires |key| == |filling|
  {
    && (forall p :: p in m ==> m[p] < |key| && !filling[m[p]] && key[m[p]] == Some(p))
    && (forall i :: 0 <= i < |key| && !filling[i] && key[i].Some? ==>
          key[i].value in m && m[key[i].value] == i)
  }

  ghost predicate MapInv(c: Config, w: Win)
    requires Shape(c, w)
  {
    Inverse(w.pageMap, w.key, w.filling) && forall p :: p in w.pageMap ==> IsPage(c, p)
  }

  /** Pins and soft pins sit only on resident frames; a frame being filled has a key and neither. */
  ghost predicate FlagInv(c: Config, w: Win)
    requires Shape(c, w)
  {
    && (forall i :: 0 <= i < c.nFrames && (w.pinned[i] || w.ttl[i] > 0) ==> !w.filling[i] && w.key[i].Some?)
    && (forall i :: 0 <= i < c.nFrames && w.filling[i] ==> w.key[i].Some?)
  }

  /** The pin counter is the page size times the pinned frames, within its cap; the pinned pages are theirs. */
  ghost predicate PinInv(c: Config, w: Win)
    requires Shape(c, w)
  {
    && w.pinBytes == PageOff(Count(w.pinned), c.pageBytes) <= c.pinCap
    && (forall p :: p in w.pinnedPages ==> p in w.pageMap && w.pageMap[p] < c.nFrames && w.pinned[w.pageMap[p]])
    && (forall i :: 0 <= i < c.nFrames && w.pinned[i] && w.key[i].Some? ==> w.key[i].value in w.pinnedPages)
  }

  ghost predicate SoftInv(c: Config, w: Win) {
    w.softBytes == PageOff(Count(SoftFlags(w.ttl)), c.pageBytes) <= c.softCap
  }

  /** Every resident frame holds the bytes of its page. */
  ghost predicate BytesInv(c: Config, w: Win)
    requires Shape(c, w) && MapInv(c, w)
  {
    forall p :: p in w.pageMap ==> w.frames[w.pageMap[p]] == PageAt(c, p)
  }

  ghost predicate Valid(c: Config, w: Win) {
    && Shape(c, w) && MapInv(c, w) && FlagInv(c, w)
    && PinInv(c, w) && SoftInv(c, w) && BytesInv(c, w)
  }

  /** Some frame is neither pinned nor being filled. */
  ghost predicate HasIdle(w: Win)
    requires |w.pinned| == |w.filling|
  {
    exists i :: 0 <= i < |w.pinned| && !w.pinned[i] && !w.filling[i]
  }

  // ------------------------------------------------------------ soft pins

  lemma SoftFlagsUpdate(ttl: seq<nat>, i: nat, v: nat)
    requires i < |ttl|
    ensures Count(SoftFlags(ttl[i := v])) ==
            Count(SoftFlags(ttl)) + (if v > 0 then 1 else 0) - (if ttl[i] > 0 then 1 else 0)
    ensures ttl[i] > 0 ==> Count(SoftFlags(ttl)) >= 1
  {
    assert SoftFlags(ttl[i := v]) == SoftFlags(ttl)[i := v > 0];
    CountUpdate(SoftFlags(ttl), i, v > 0);
    CountBound(SoftFlags(ttl));
    assert SoftFlags(ttl)[i] == (ttl[i] > 0);
  }

  lemma ClearSoftKeeps(c: Config, w: Win, fr: nat)
    requires c.pageBytes > 0 && SoftInv(c, w)
    ensures SoftInv(c, ClearSoft(c, w, fr))
    ensures fr < |w.ttl| ==> ClearSoft(c, w, fr).ttl == w.ttl[fr := 0]
  {
    if fr < |w.ttl| {
      if w.ttl[fr] > 0 {
        SoftFlagsUpdate(w.ttl, fr, 0);
        NextOff(Count(SoftFlags(w.ttl)) - 1, c.pageBytes);
      } else {
        assert w.ttl == w.ttl[fr := 0];
      }
    }
  }

  lemma SetSoftCount(c: Config, w: Win, fr: nat, t: nat)
    requires c.pageBytes > 0 && |w.ttl| == |w.pinned| && SoftInv(c, w)
    ensures SoftInv(c, SetSoft(c, w, fr, t))
  {
    if fr < |w.ttl| {
      SoftFlagsUpdate(w.ttl, fr, t);
      NextOff(Count(SoftFlags(w.ttl)), c.pageBytes);
    }
  }

  /** A soft pin on a resident frame, whatever the request, keeps the invariant. */
  lemma SetSoftValid(c: Config, w: Win, fr: nat, t: nat)
    requires Valid(c, w) && (fr < c.nFrames ==> !w.filling[fr] && w.key[fr].Some?)
    ensures Valid(c, SetSoft(c, w, fr, t))
  {
    SetSoftCount(c, w, fr, t);
  }

  lemma TouchSoftValid(c: Config, w: Win, p: nat, t: nat)
    requires Valid(c, w)
    ensures Valid(c, TouchSoft(c, w, p, t))
  {
    if p in w.pageMap { SetSoftValid(c, w, w.pageMap[p], t); }
  }

  // ------------------------------------------------------------ the clock

  /** The hand stopped over the first frame, from `hand` on, that is not blocked. */
  ghost predicate FirstClear(blocked: seq<bool>, hand: nat, r: nat, next: nat) {
    && |blocked| > 0
    && hand < next <= hand + |blocked|
    && r == (next - 1) % |blocked|
    && !blocked[r]
    && forall h :: hand <= h < next - 1 ==> blocked[h % |blocked|]
  }

  lemma FullTurn(blocked: seq<bool>, hand: nat)
    requires |blocked| > 0 && Scan(blocked, hand, |blocked|).None?
    ensures forall i :: 0 <= i < |blocked| ==> blocked[i]
  {
    forall i | 0 <= i < |blocked| ensures blocked[i] {
      var j := Reach(hand, |blocked|, i);
      assert blocked[(hand + j) % |blocked|];
    }
  }

  /** The first turn of the clock found a frame. */
  lemma FreeFound(c: Config, w: Win)
    requires Shape(c, w) && c.nFrames > 0 && Scan(GuardedFlags(w), w.hand, c.nFrames).Some?
    ensures var (w', r) := Evict(c, w);
      && HasIdle(w) && !w.pinned[r] && !w.filling[r] && w.ttl[r] == 0
      && FirstClear(GuardedFlags(w), w.hand, r, w'.hand) && w' == Take(c, w, r, w'.hand)
  {
    var r := Evict(c, w).1;
    assert !GuardedFlags(w)[r];
  }

  lemma NoneFree(c: Config, w: Win)
    requires Shape(c, w) && c.nFrames > 0 && Scan(GuardedFlags(w), w.hand, c.nFrames).None?
    ensures forall i :: 0 <= i < c.nFrames && !w.pinned[i] && !w.filling[i] ==> w.ttl[i] > 0
  {
    FullTurn(GuardedFlags(w), w.hand);
    forall i | 0 <= i < c.nFrames && !w.pinned[i] && !w.filling[i] ensures w.ttl[i] > 0 {
      assert GuardedFlags(w)[i];
    }
  }

  /** The second turn did. */
  lemma SoftFound(c: Config, w: Win)
    requires Shape(c, w) && c.nFrames > 0 && Scan(GuardedFlags(w), w.hand, c.nFrames).None?
    requires Scan(HeldFlags(w), w.hand + c.nFrames, c.nFrames).Some?
    ensures var (w', r) := Evict(c, w);
      && HasIdle(w) && !w.pinned[r] && !w.filling[r] && w.ttl[r] > 0
      && FirstClear(HeldFlags(w), w.hand + c.nFrames, r, w'.hand) && w' == Take(c, w, r, w'.hand)
  {
    NoneFree(c, w);
    hide GuardedFlags;
    var r := Evict(c, w).1;
    assert !HeldFlags(w)[r];
  }

  /** Neither did. */
  lemma NoneFound(c: Config, w: Win)
    requires Shape(c, w) && c.nFrames > 0 && Scan(GuardedFlags(w), w.hand, c.nFrames).None?
    requires Scan(HeldFlags(w), w.hand + c.nFrames, c.nFrames).None?
    ensures !HasIdle(w) && Evict(c, w) == (w.(hand := w.hand + 2 * c.nFrames), 0)
  {
    FullTurn(HeldFlags(w), w.hand + c.nFrames);
    hide GuardedFlags;
    forall i | 0 <= i < c.nFrames ensures w.pinned[i] || w.filling[i] {
      assert HeldFlags(w)[i];
    }
  }

  /**
   The allocator never hands out a pinned or filling frame while an idle one
   exists, and a soft-pinned one only when every idle frame is soft-pinned; in
   both cases it is the first such frame in clock order.  With no idle frame it
   names frame 0 and takes nothing.
   */
  lemma EvictChoice(c: Config, w: Win)
    requires Shape(c, w) && c.nFrames > 0
    ensures var (w', r) := Evict(c, w);
      && (HasIdle(w) ==> !w.pinned[r] && !w.filling[r])
      && (HasIdle(w) && w.ttl[r] > 0 ==>
            forall i :: 0 <= i < c.nFrames && !w.pinned[i] && !w.filling[i] ==> w.ttl[i] > 0)
      && (HasIdle(w) && w.ttl[r] == 0 ==> FirstClear(GuardedFlags(w), w.hand, r, w'.hand))
      && (HasIdle(w) && w.ttl[r] > 0 ==> FirstClear(HeldFlags(w), w.hand + c.nFrames, r, w'.hand))
      && (HasIdle(w) ==> w' == Take(c, w, r, w'.hand))
      && (!HasIdle(w) ==> r == 0 && w' == w.(hand := w.hand + 2 * c.nFrames))
  {
    assert |w.key| == |w.pinned| == |w.filling| == |w.ttl| == c.nFrames == |GuardedFlags(w)| == |HeldFlags(w)|;
    hide *;
    if Scan(GuardedFlags(w), w.hand, c.nFrames).Some? {
      FreeFound(c, w);
    } else {
      NoneFree(c, w);
      if Scan(HeldFlags(w), w.hand + c.nFrames, c.nFrames).Some? { SoftFound(c, w); } else { NoneFound(c, w); }
    }
  }

  lemma TakeInverse(m: map<nat, nat>, key: seq<Option<nat>>, filling: seq<bool>, fr: nat)
    requires |key| == |filling| && fr < |key| && Inverse(m, key, filling) && !filling[fr]
    ensures Inverse(match key[fr] case None => m case Some(k) => m - {k}, key[fr := None], filling)
  {}

  lemma DropKeyValid(c: Config, w: Win, fr: nat, next: nat)
    requires Valid(c, w) && fr < c.nFrames && !w.pinned[fr] && !w.filling[fr] && w.ttl[fr] == 0
    ensures Valid(c, Take(c, w, fr, next))
  {
    TakeInverse(w.pageMap, w.key, w.filling, fr);
  }

  lemma ClearSoftValid(c: Config, w: Win, fr: nat)
    requires Valid(c, w)
    ensures Valid(c, ClearSoft(c, w, fr))
  {
    ClearSoftKeeps(c, w, fr);
  }

  lemma TakeValid(c: Config, w: Win, fr: nat, next: nat)
    requires Valid(c, w) && fr < c.nFrames && !w.pinned[fr] && !w.filling[fr]
    ensures Valid(c, Take(c, w, fr, next))
    ensures Take(c, w, fr, next).ttl == w.ttl[fr := 0]
  {
    ClearSoftValid(c, w, fr);
    ClearSoftKeeps(c, w, fr);
    DropKeyValid(c, ClearSoft(c, w, fr), fr, next);
    TakeClears(c, w, fr, next);
  }

  lemma TakeClears(c: Config, w: Win, fr: nat, next: nat)
    requires fr < |w.key| == |w.ttl| && (w.key[fr].None? ==> w.ttl[fr] == 0)
    ensures Take(c, w, fr, next) == Take(c, ClearSoft(c, w, fr), fr, next)
  {}

  lemma EvictValid(c: Config, w: Win)
    requires Valid(c, w) && c.nFrames > 0
    ensures Valid(c, Evict(c, w).0)
    ensures HasIdle(w) <==> Evict(c, w).0.key[Evict(c, w).1].None?
    ensures HasIdle(w) ==> !w.filling[Evict(c, w).1] && !w.pinned[Evict(c, w).1]
  {
    EvictChoice(c, w);
    var (w', r) := Evict(c, w);
    if HasIdle(w) { TakeValid(c, w, r, w'.hand); }
  }

  // ------------------------------------------------------------ loading

  /** Giving page `p` frame `fr` keeps map and keys inverse just when the frame had no page and no fill. */
  lemma PlaceInverse(m: map<nat, nat>, key: seq<Option<nat>>, filling: seq<bool>, fr: nat, p: nat)
    requires |key| == |filling| && fr < |key| && Inverse(m, key, filling) && p !in m
    requires filling[fr] ==> key[fr].Some?
    ensures Inverse(m[p := fr], key[fr := Some(p)], filling) <==> key[fr].None?
  {
    var m', key' := m[p := fr], key[fr := Some(p)];
    assert m'[p] == fr;
    if key[fr].Some? && !filling[fr] {
      assert key[fr].value in m' && m'[key[fr].value] == fr && key'[fr] == Some(p);
    }
  }

  lemma PlaceValid(c: Config, w: Win, fr: nat, p: nat, bytes: Bytes)
    requires Valid(c, w) && fr < c.nFrames && IsPage(c, p) && p !in w.pageMap && bytes == PageAt(c, p)
    requires w.key[fr].None?
    ensures Valid(c, PlacePage(c, w, fr, p, bytes))
  {
    PlaceInverse(w.pageMap, w.key, w.filling, fr, p);
    assert w.pinned[fr := false] == w.pinned;
  }

  /** Loading a page keeps the invariant exactly when some frame was idle. */
  lemma LoadValid(c: Config, w: Win, p: nat, bytes: Bytes)
    requires Valid(c, w) && c.nFrames > 0 && IsPage(c, p) && p !in w.pageMap && bytes == PageAt(c, p)
    ensures Valid(c, Load(c, w, p, bytes).0) <==> HasIdle(w)
  {
    EvictValid(c, w);
    EvictPages(c, w);
    var (w1, fr) := Evict(c, w);
    if HasIdle(w) {
      PlaceValid(c, w1, fr, p, bytes);
    } else {
      PlaceInverse(w1.pageMap, w1.key, w1.filling, fr, p);
    }
  }

  /** The one frame is arriving with page 0 when page 1 is loaded: page 1 is mapped to a frame still being filled. */
  lemma FillingFrameLoaded()
    ensures var w := Win(map[], [Some(0)], [false], [true], [0], [], {}, 0, 0, 0, [[0]]); var v := Load(TINY, w, 1, [0]).0;
      Valid(TINY, w) && !HasIdle(w) && v.pageMap == map[1 := 0] && v.filling == [true] && !Valid(TINY, v)
  {
    var w := Win(map[], [Some(0)], [false], [true], [0], [], {}, 0, 0, 0, [[0]]);
    CountBound(w.pinned);
    CountBound(SoftFlags(w.ttl));
    EvictChoice(TINY, w);
    assert Load(TINY, w, 1, [0]).0.pageMap == map[1 := 0];
  }

  /** Eviction removes at most one page, and nothing but the hand and soft pins otherwise moves. */
  lemma EvictPages(c: Config, w: Win)
    requires Shape(c, w) && FlagInv(c, w) && c.nFrames > 0
    ensures var (w', fr) := Evict(c, w);
      && w'.pinned == w.pinned && w'.filling == w.filling && w'.frames == w.frames
      && w'.pinBytes == w.pinBytes && w'.pinnedPages == w.pinnedPages && w'.softList == w.softList
      && (HasIdle(w) ==>
        && w'.pageMap == (match w.key[fr] case None => w.pageMap case Some(k) => w.pageMap - {k})
        && w'.key == w.key[fr := None] && w'.ttl == w.ttl[fr := 0])
  {
    EvictChoice(c, w);
    var (w', fr) := Evict(c, w);
    if w.ttl[fr] == 0 { assert w.ttl == w.ttl[fr := 0]; }
  }

  /** What loading changes: one page out, one page in. */
  lemma LoadPages(c: Config, w: Win, p: nat, bytes: Bytes)
    requires Shape(c, w) && FlagInv(c, w) && c.nFrames > 0 && HasIdle(w)
    ensures var (w', fr) := Load(c, w, p, bytes);
      && w'.pinned == w.pinned && w'.filling == w.filling && !w.pinned[fr] && !w.filling[fr]
      && w'.frames == w.frames[fr := bytes]
      && w'.key == w.key[fr := Some(p)] && w'.ttl == w.ttl[fr := 0]
      && w'.pageMap == (match w.key[fr] case None => w.pageMap case Some(k) => w.pageMap - {k})[p := fr]
      && w'.pinBytes == w.pinBytes && w'.pinnedPages == w.pinnedPages
  {
    EvictChoice(c, w);
    EvictPages(c, w);
    var fr := Evict(c, w).1;
    assert w.pinned[fr := false] == w.pinned;
    assert w.ttl[fr := 0][fr := 0] == w.ttl[fr := 0];
  }

  // ------------------------------------------------------------ pinning

  lemma PinFrameValid(c: Config, w: Win, p: nat)
    requires Valid(c, w) && p in w.pageMap && !w.pinned[w.pageMap[p]]
    ensures Valid(c, PinFrame(c, w, p, w.pageMap[p]))
  {
    var fr := w.pageMap[p];
    CountUpdate(w.pinned, fr, true);
    NextOff(Count(w.pinned), c.pageBytes);
  }

  /**
   Promoting keeps the invariant exactly when the page is already resident or
   some frame is idle; the page then has a frame holding its bytes, and a
   requested pin is refused only for lack of pin budget.
   */
  lemma PromoteValid(c: Config, w: Win, p: nat, pin: bool)
    requires Valid(c, w) && c.nFrames > 0 && IsPage(c, p)
    ensures var (w', fr) := Promote(c, w, p, pin);
      && (Valid(c, w') <==> p in w.pageMap || HasIdle(w))
      && (Valid(c, w') ==> p in w'.pageMap && w'.pageMap[p] == fr && w'.frames[fr] == PageAt(c, p))
      && (Valid(c, w') && pin ==> w'.pinned[fr] || w'.pinBytes + c.pageBytes > c.pinCap)
      && w'.filling == w.filling
  {
    if p in w.pageMap {
      if pin && !w.pinned[w.pageMap[p]] { PinFrameValid(c, w, p); }
    } else if HasIdle(w) {
      PromoteMissing(c, w, p, pin);
    } else {
      EvictPages(c, w);
      LoadBreaks(c, w, p, PageAt(c, p));
      hide Evict;
    }
  }

  lemma PromoteMissing(c: Config, w: Win, p: nat, pin: bool)
    requires Valid(c, w) && c.nFrames > 0 && IsPage(c, p) && p !in w.pageMap && HasIdle(w)
    ensures var (w', fr) := Promote(c, w, p, pin);
      && Valid(c, w') && p in w'.pageMap && w'.pageMap[p] == fr && w'.frames[fr] == PageAt(c, p)
      && (pin ==> w'.pinned[fr] || w'.pinBytes + c.pageBytes > c.pinCap)
      && w'.filling == w.filling
  {
    LoadValid(c, w, p, PageAt(c, p));
    LoadPages(c, w, p, PageAt(c, p));
    if pin { PinFrameValid(c, Load(c, w, p, PageAt(c, p)).0, p); }
    hide Valid, Load;
  }

  /** A pin is taken exactly when one is asked for, the page has none and the budget allows it. */
  ghost predicate PinTaken(c: Config, w: Win, p: nat, pin: bool) {
    pin && !(p in w.pageMap && w.pageMap[p] < |w.pinned| && w.pinned[w.pageMap[p]]) && w.pinBytes + c.pageBytes <= c.pinCap
  }

  /** What promoting changes: the pin, if one is taken, and for a page not resident one page out and one page in. */
  lemma PromoteExact(c: Config, w: Win, p: nat, pin: bool)
    requires Valid(c, w) && c.nFrames > 0 && IsPage(c, p) && (p in w.pageMap || HasIdle(w))
    ensures var (w', fr) := Promote(c, w, p, pin); var taken := PinTaken(c, w, p, pin);
      && fr < c.nFrames && w'.filling == w.filling
      && w'.pinned == (if taken then w.pinned[fr := true] else w.pinned)
      && w'.pinBytes == (if taken then w.pinBytes + c.pageBytes else w.pinBytes)
      && w'.pinnedPages == (if taken then w.pinnedPages + {p} else w.pinnedPages)
      && (p in w.pageMap ==> w' == w.(pinned := w'.pinned, pinBytes := w'.pinBytes, pinnedPages := w'.pinnedPages))
      && (p !in w.pageMap ==>
            && w'.frames == w.frames[fr := PageAt(c, p)] && w'.key == w.key[fr := Some(p)] && w'.ttl == w.ttl[fr := 0]
            && w'.pageMap == (match w.key[fr] case None => w.pageMap case Some(k) => w.pageMap - {k})[p := fr])
  {
    if p !in w.pageMap {
      LoadPages(c, w, p, PageAt(c, p));
      hide Load;
    }
  }

  /** With every frame held, loading leaves map and keys out of step. */
  lemma LoadBreaks(c: Config, w: Win, p: nat, bytes: Bytes)
    requires Valid(c, w) && c.nFrames > 0 && !HasIdle(w) && p !in w.pageMap
    ensures var w' := Load(c, w, p, bytes).0; !Inverse(w'.pageMap, w'.key, w'.filling)
  {
    EvictValid(c, w);
    EvictPages(c, w);
    var (w1, fr) := Evict(c, w);
    EvictChoice(c, w);
    PlaceInverse(w1.pageMap, w1.key, w1.filling, fr, p);
  }

  // ------------------------------------------------------------ the fill protocol

  /**
   A reservation never disturbs a resident page.  It keeps the invariant and
   hands out a frame that was idle exactly when one existed; a resident page is
   refused.
   */
  lemma ReserveValid(c: Config, w: Win, p: nat)
    requires Valid(c, w) && c.nFrames > 0 && IsPage(c, p)
    ensures var (w', r) := Reserve(c, w, p);
      && (r.None? <==> p in w.pageMap) && (r.None? ==> w' == w)
      && (r.Some? && HasIdle(w) ==>
            && Valid(c, w') && r.value < c.nFrames
            && !w.filling[r.value] && !w.pinned[r.value]
            && w'.filling == w.filling[r.value := true] && w'.key == w.key[r.value := Some(p)]
            && w'.pageMap == (match w.key[r.value] case None => w.pageMap case Some(k) => w.pageMap - {k})
            && w'.frames == w.frames[r.value := w'.frames[r.value]]
            && w'.pinned == w.pinned)
      && (r.Some? && !HasIdle(w) ==> r.value == 0 && (w.pinned[0] || w.filling[0]) && (Valid(c, w') <==> w.filling[0]))
  {
    if p !in w.pageMap {
      if HasIdle(w) { ReserveIdle(c, w, p); } else { ReserveHeld(c, w, p); }
    }
  }

  lemma ReserveIdle(c: Config, w: Win, p: nat)
    requires Valid(c, w) && c.nFrames > 0 && IsPage(c, p) && p !in w.pageMap && HasIdle(w)
    ensures var (w', r) := Reserve(c, w, p);
      && r.Some? && Valid(c, w') && r.value < c.nFrames
      && !w.filling[r.value] && !w.pinned[r.value]
      && w'.filling == w.filling[r.value := true] && w'.key == w.key[r.value := Some(p)]
      && w'.pageMap == (match w.key[r.value] case None => w.pageMap case Some(k) => w.pageMap - {k})
      && w'.frames == w.frames[r.value := w'.frames[r.value]]
      && w'.pinned == w.pinned
  {
    EvictValid(c, w);
    EvictPages(c, w);
    var (w1, fr) := Evict(c, w);
    hide Evict, MapInv, PinInv, SoftInv, BytesInv;
    var w' := Reserve(c, w, p).0;
    assert w'.key == w.key[fr := Some(p)];
    ReservedValid(c, w1, fr, p, w'.frames[fr]);
  }

  lemma ReserveHeld(c: Config, w: Win, p: nat)
    requires Valid(c, w) && c.nFrames > 0 && IsPage(c, p) && p !in w.pageMap && !HasIdle(w)
    ensures var (w', r) := Reserve(c, w, p);
      && r.Some? && r.value == 0 && (w.pinned[0] || w.filling[0]) && (Valid(c, w') <==> w.filling[0])
  {
    EvictValid(c, w);
    EvictChoice(c, w);
    hide Evict;
    var w1, w' := Evict(c, w).0, Reserve(c, w, p).0;
    if w.filling[0] {
      assert w'.filling == w.filling;
      ReservedValid(c, w1, 0, p, w'.frames[0]);
    } else {
      assert w.pageMap[w.key[0].value] == 0 && w'.filling[0];
      assert w.key[0].value in w'.pageMap;
    }
  }

  lemma ReservedValid(c: Config, w: Win, fr: nat, p: nat, b: Bytes)
    requires Valid(c, w) && fr < c.nFrames && (w.key[fr].None? || w.filling[fr])
    ensures Valid(c, w.(filling := w.filling[fr := true], key := w.key[fr := Some(p)], frames := w.frames[fr := b]))
  {}

  /** Committing a frame that holds its page's bytes, or naming a frame not being filled, keeps the invariant. */
  lemma CommitValid(c: Config, w: Win, p: nat, fr: nat, t: nat)
    requires Valid(c, w) && IsPage(c, p)
    requires fr < c.nFrames && w.filling[fr] ==> w.frames[fr] == PageAt(c, p)
    ensures Valid(c, Commit(c, w, p, fr, t))
  {
    if fr < c.nFrames && w.filling[fr] {
      if p in w.pageMap {
        FreedValid(c, w, fr);
      } else {
        ArrivedValid(c, w, fr, p);
        SetSoftValid(c, w.(filling := w.filling[fr := false], key := w.key[fr := Some(p)], pageMap := w.pageMap[p := fr]), fr, t);
      }
    }
  }

  /** A commit makes the page resident, in its own frame unless it had arrived some other way. */
  lemma CommitPages(c: Config, w: Win, p: nat, fr: nat, t: nat)
    requires Shape(c, w) && fr < c.nFrames && w.filling[fr]
    ensures var w' := Commit(c, w, p, fr, t);
      && w'.pageMap == (if p in w.pageMap then w.pageMap else w.pageMap[p := fr])
      && w'.filling == w.filling[fr := false] && w'.frames == w.frames && w'.pinned == w.pinned
      && w'.key == w.key[fr := if p in w.pageMap then None else Some(p)]
  {}

  lemma ArrivedInverse(m: map<nat, nat>, key: seq<Option<nat>>, filling: seq<bool>, fr: nat, p: nat)
    requires |key| == |filling| && fr < |key| && Inverse(m, key, filling) && filling[fr] && p !in m
    ensures Inverse(m[p := fr], key[fr := Some(p)], filling[fr := false])
  {}

  lemma ArrivedValid(c: Config, w: Win, fr: nat, p: nat)
    requires Valid(c, w) && fr < c.nFrames && w.filling[fr] && IsPage(c, p) && w.frames[fr] == PageAt(c, p) && p !in w.pageMap
    ensures Valid(c, w.(filling := w.filling[fr := false], key := w.key[fr := Some(p)], pageMap := w.pageMap[p := fr]))
  {
    ArrivedInverse(w.pageMap, w.key, w.filling, fr, p);
  }

  lemma FreedValid(c: Config, w: Win, fr: nat)
    requires Valid(c, w) && fr < c.nFrames && w.filling[fr]
    ensures Valid(c, w.(filling := w.filling[fr := false], key := w.key[fr := None]))
  {}

  /** Aborting frees the frame of a fill in flight and leaves every resident page alone. */
  lemma AbortValid(c: Config, w: Win, fr: nat)
    requires Valid(c, w)
    ensures Valid(c, Abort(c, w, fr)) && Abort(c, w, fr).pageMap == w.pageMap
    ensures fr < c.nFrames ==> !Abort(c, w, fr).filling[fr]
    ensures fr < c.nFrames && w.filling[fr] ==> Abort(c, w, fr).key[fr] == None
    ensures forall g :: 0 <= g < c.nFrames && (g != fr || !w.filling[g]) ==>
              Abort(c, w, fr).filling[g] == w.filling[g] && Abort(c, w, fr).key[g] == w.key[g]
  {
    if fr < c.nFrames && w.filling[fr] { FreedValid(c, w, fr); }
  }

  // ------------------------------------------------------------ installing

  lemma TouchNeighborsValid(c: Config, w: Win, p: nat, t: nat)
    requires Valid(c, w)
    ensures Valid(c, TouchNeighbors(c, w, p, t))
  {
    hide MapInv, FlagInv, PinInv, SoftInv, BytesInv, TouchSoft;
    if p >= c.pageBytes { TouchSoftValid(c, w, p - c.pageBytes, t); }
    TouchSoftValid(c, if p >= c.pageBytes then TouchSoft(c, w, p - c.pageBytes, t) else w, p + c.pageBytes, t);
  }

  /** Installing keeps the invariant exactly when the page is already resident or some frame is idle. */
  lemma InstallValid(c: Config, w: Win, p: nat, bytes: Bytes, t: nat)
    requires Valid(c, w) && c.nFrames > 0 && IsPage(c, p) && bytes == PageAt(c, p)
    ensures Valid(c, Install(c, w, p, bytes, t)) <==> p in w.pageMap || HasIdle(w)
  {
    if p in w.pageMap {
      SetSoftValid(c, w, w.pageMap[p], t);
    } else if HasIdle(w) {
      InstallLoaded(c, w, p, bytes, t);
    } else {
      LoadBreaks(c, w, p, bytes);
      InstallPages(c, w, p, bytes, t);
    }
  }

  lemma InstallLoaded(c: Config, w: Win, p: nat, bytes: Bytes, t: nat)
    requires Valid(c, w) && c.nFrames > 0 && IsPage(c, p) && bytes == PageAt(c, p) && p !in w.pageMap && HasIdle(w)
    ensures Valid(c, Install(c, w, p, bytes, t))
  {
    LoadValid(c, w, p, bytes);
    LoadPages(c, w, p, bytes);
    var (w1, fr) := Load(c, w, p, bytes);
    SetSoftValid(c, w1, fr, t);
    TouchNeighborsValid(c, SetSoft(c, w1, fr, t), p, t);
  }

  /** Soft pins aside, installing a missing page is loading it. */
  lemma InstallPages(c: Config, w: Win, p: nat, bytes: Bytes, t: nat)
    requires Shape(c, w) && c.nFrames > 0 && p !in w.pageMap
    ensures var w1 := Load(c, w, p, bytes).0; var w' := Install(c, w, p, bytes, t);
      && w'.pageMap == w1.pageMap && w'.key == w1.key && w'.filling == w1.filling
      && w'.pinned == w1.pinned && w'.frames == w1.frames
  {
    var (w1, fr) := Load(c, w, p, bytes);
    var w2 := SetSoft(c, w1, fr, t);
    var w3 := TouchNeighbors(c, w2, p, t);
  }

  // ------------------------------------------------------------ flushing

  lemma FlushFrameValid(c: Config, w: Win, i: nat)
    requires Valid(c, w) && i < c.nFrames
    ensures Valid(c, FlushFrame(c, w, i))
  {
    if !w.pinned[i] && !w.filling[i] {
      TakeValid(c, w, i, w.hand);
      assert FlushFrame(c, w, i) == Take(c, w, i, w.hand);
    }
  }

  lemma {:induction false} FlushUpToValid(c: Config, w: Win, n: nat)
    requires Valid(c, w) && n <= c.nFrames
    ensures Valid(c, FlushUpTo(c, w, n))
  {
    hide MapInv, FlagInv, PinInv, SoftInv, BytesInv, FlushFrame;
    if n > 0 {
      FlushUpToValid(c, w, n - 1);
      FlushFrameValid(c, FlushUpTo(c, w, n - 1), n - 1);
    }
  }

  ghost predicate Flushed(c: Config, w: Win, w': Win, n: nat)
    requires Shape(c, w) && Shape(c, w') && n <= c.nFrames
  {
    && w'.pinned == w.pinned && w'.filling == w.filling && w'.frames == w.frames
    && forall i :: 0 <= i < c.nFrames ==>
         if i < n && !w.pinned[i] && !w.filling[i] then w'.key[i] == None && w'.ttl[i] == 0
         else w'.key[i] == w.key[i] && w'.ttl[i] == w.ttl[i]
  }

  lemma {:induction false} FlushUpToFrames(c: Config, w: Win, n: nat)
    requires Shape(c, w) && n <= c.nFrames
    ensures Flushed(c, w, FlushUpTo(c, w, n), n)
  {
    if n > 0 { FlushUpToFrames(c, w, n - 1); }
  }

  /** After a flush exactly the pinned pages are resident, with their bytes; fills in flight go on. */
  lemma FlushValid(c: Config, w: Win)
    requires Valid(c, w)
    ensures var w' := Flush(c, w);
      && Valid(c, w')
      && (forall p :: p in w'.pageMap <==> p in w.pageMap && w.pinned[w.pageMap[p]])
      && (forall p :: p in w'.pageMap ==> w'.pageMap[p] == w.pageMap[p])
      && w'.pinned == w.pinned && w'.filling == w.filling
      && (forall i :: 0 <= i < c.nFrames && w.filling[i] ==> w'.key[i] == w.key[i])
      && (forall i :: 0 <= i < c.nFrames && !w.pinned[i] && !w.filling[i] ==> w'.key[i] == None && w'.ttl[i] == 0)
      && w'.hand == 0 && w'.softList == []
  {
    FlushUpToValid(c, w, c.nFrames);
    FlushUpToFrames(c, w, c.nFrames);
    var w' := Flush(c, w);
    forall p ensures p in w'.pageMap <==> p in w.pageMap && w.pinned[w.pageMap[p]] {
      if p in w.pageMap && w.pinned[w.pageMap[p]] { assert w'.key[w.pageMap[p]] == Some(p); }
      if p in w'.pageMap { assert w.key[w'.pageMap[p]] == Some(p); }
    }
  }

  // ------------------------------------------------------------ room for one more

  /**
   Pins within their cap and fills within their bound leave an idle frame as
   long as cap plus bound is below the whole frames' bytes.
   */
  lemma RoomyHasIdle(c: Config, w: Win, maxFills: nat)
    requires Valid(c, w) && Count(w.filling) <= maxFills
    requires c.pinCap + PageOff(maxFills, c.pageBytes) < PageOff(c.nFrames, c.pageBytes)
    ensures HasIdle(w)
  {
    var pins, fills := Count(w.pinned), Count(w.filling);
    OffOrder(fills, maxFills, c.pageBytes);
    Dist(pins, fills, c.pageBytes);
    OffOrder(c.nFrames, pins + fills, c.pageBytes);
    var i := FreeIndex(w.pinned, w.filling);
  }

  // ------------------------------------------------------------ ageing soft pins

  lemma {:induction false} TickUpToValid(c: Config, w: Win, r: nat)
    requires Valid(c, w) && r <= |w.softList|
    ensures Valid(c, TickUpTo(c, w, r).0)
  {
    if r > 0 {
      TickUpToValid(c, w, r - 1);
      var t := TickUpTo(c, w, r - 1);
      TickEntryValid(c, t.0, t.1, w.softList[r - 1]);
    }
  }

  lemma NextEntry(c: Config, w: Win, r: nat)
    requires Shape(c, w) && r < |w.softList|
    ensures var t := TickUpTo(c, w, r); TickUpTo(c, w, r + 1) == TickEntry(c, t.0, t.1, w.softList[r])
  {
    hide TickEntry;
  }

  lemma TickEntryValid(c: Config, w: Win, kept: seq<nat>, fr: nat)
    requires Valid(c, w)
    ensures Valid(c, TickEntry(c, w, kept, fr).0)
  {
    assert Shape(c, w);
    if fr < c.nFrames && w.ttl[fr] > 0 {
      hide Valid;
      if w.ttl[fr] == 1 { ClearSoftValid(c, w, fr); } else { AgedValid(c, w, fr); }
    }
  }

  /** A soft pin with more than a tick left loses one. */
  lemma AgedValid(c: Config, w: Win, fr: nat)
    requires Valid(c, w) && fr < |w.ttl| && w.ttl[fr] > 1
    ensures Valid(c, w.(ttl := w.ttl[fr := w.ttl[fr] - 1]))
  {
    SoftFlagsUpdate(w.ttl, fr, w.ttl[fr] - 1);
  }

  lemma TickValid(c: Config, w: Win)
    requires Valid(c, w)
    ensures Valid(c, Tick(c, w)) && Tick(c, w).pageMap == w.pageMap
  {
    TickUpToValid(c, w, |w.softList|);
    TickUpToFrames(c, w, |w.softList|);
  }

  function Less(a: nat, b: nat): nat { if a > b then a - b else 0 }

  lemma TickEntryFrames(c: Config, w: Win, kept: seq<nat>, fr: nat)
    requires Shape(c, w)
    ensures var t := TickEntry(c, w, kept, fr);
      && t.0.pageMap == w.pageMap && |t.0.ttl| == |w.ttl|
      && (forall i :: 0 <= i < c.nFrames ==> t.0.ttl[i] == Less(w.ttl[i], if i == fr then 1 else 0))
      && t.1 == kept + if fr < c.nFrames && w.ttl[fr] > 1 then [fr] else []
  {}

  lemma {:induction false} TickUpToFrames(c: Config, w: Win, r: nat)
    requires Shape(c, w) && r <= |w.softList|
    ensures var t := TickUpTo(c, w, r);
      && t.0.pageMap == w.pageMap
      && (forall i :: 0 <= i < c.nFrames ==> t.0.ttl[i] == Less(w.ttl[i], multiset(w.softList[..r])[i]))
  {
    hide TickEntry;
    if r > 0 {
      TickUpToFrames(c, w, r - 1);
      var t := TickUpTo(c, w, r - 1);
      TickEntryFrames(c, t.0, t.1, w.softList[r - 1]);
      assert w.softList[..r] == w.softList[..r - 1] + [w.softList[r - 1]];
    } else {
      assert w.softList[..0] == [];
    }
  }

  /** How often frame `i` is listed. */
  function Listed(s: seq<nat>, i: nat): nat { multiset(s)[i] }

  function KeptCount(listed: nat, ttl: nat): nat { if listed < ttl then listed else Less(ttl, 1) }

  /** One more listing of a frame: it is written back while hops are left. */
  lemma KeptStep(kept: nat, listed: nat, here: bool, ttl: nat)
    requires kept == KeptCount(listed, ttl)
    ensures kept + (if here && Less(ttl, listed) > 1 then 1 else 0) == KeptCount(listed + if here then 1 else 0, ttl)
  {}

  lemma ListedPlus(s: seq<nat>, x: nat, i: nat)
    ensures Listed(s + [x], i) == Listed(s, i) + if x == i then 1 else 0
  {}

  lemma ListedNext(list: seq<nat>, r: nat, i: nat)
    requires r < |list|
    ensures Listed(list[..r + 1], i) == Listed(list[..r], i) + if list[r] == i then 1 else 0
  {
    ListedPlus(list[..r], list[r], i);
    hide Listed;
    assert list[..r + 1] == list[..r] + [list[r]];
  }

  lemma NoneListed(c: Config, w: Win, i: nat)
    requires Shape(c, w) && i < |w.ttl|
    ensures Listed(TickUpTo(c, w, 0).1, i) == KeptCount(Listed(w.softList[..0], i), w.ttl[i])
  {
    assert w.softList[..0] == [];
  }

  /** An entry is written back as long as its frame still has hops left. */
  lemma {:induction false} TickUpToKept(c: Config, w: Win, r: nat, i: nat)
    requires Shape(c, w) && r <= |w.softList| && i < c.nFrames
    ensures Listed(TickUpTo(c, w, r).1, i) == KeptCount(Listed(w.softList[..r], i), w.ttl[i])
    decreases r
  {
    ShapeTtl(c, w);
    hide *;
    if r == 0 {
      NoneListed(c, w, i);
    } else {
      TickUpToKept(c, w, r - 1, i);
      KeptMore(c, w, r - 1, i);
    }
  }

  lemma KeptMore(c: Config, w: Win, r: nat, i: nat)
    requires Shape(c, w) && r < |w.softList| && i < c.nFrames == |w.ttl|
    requires Listed(TickUpTo(c, w, r).1, i) == KeptCount(Listed(w.softList[..r], i), w.ttl[i])
    ensures Listed(TickUpTo(c, w, r + 1).1, i) == KeptCount(Listed(w.softList[..r + 1], i), w.ttl[i])
  {
    hide *;
    WrittenBack(c, w, r, i);
    ListedNext(w.softList, r, i);
    KeptStep(Listed(TickUpTo(c, w, r).1, i), Listed(w.softList[..r], i), w.softList[r] == i, w.ttl[i]);
  }

  lemma AgedAt(c: Config, w: Win, r: nat, i: nat)
    requires Shape(c, w) && r <= |w.softList| && i < c.nFrames
    ensures i < |TickUpTo(c, w, r).0.ttl| && TickUpTo(c, w, r).0.ttl[i] == Less(w.ttl[i], Listed(w.softList[..r], i))
  {
    TickUpToFrames(c, w, r);
  }

  /** What entry `r` adds to the listings of frame `i`. */
  lemma WrittenBack(c: Config, w: Win, r: nat, i: nat)
    requires Shape(c, w) && r < |w.softList| && i < c.nFrames == |w.ttl|
    ensures Listed(TickUpTo(c, w, r + 1).1, i) ==
            Listed(TickUpTo(c, w, r).1, i) + (if w.softList[r] == i && Less(w.ttl[i], Listed(w.softList[..r], i)) > 1 then 1 else 0)
  {
    AgedAt(c, w, r, i);
    var stays := KeptNext(c, w, r);
    hide *;
    var kept, fr := TickUpTo(c, w, r).1, w.softList[r];
    assert kept + [] == kept;
    ListedPlus(kept, fr, i);
  }

  lemma KeptNext(c: Config, w: Win, r: nat) returns (stays: bool)
    requires Shape(c, w) && r < |w.softList|
    ensures var t, fr := TickUpTo(c, w, r), w.softList[r];
      (stays <==> fr < c.nFrames && fr < |t.0.ttl| && t.0.ttl[fr] > 1) && TickUpTo(c, w, r + 1).1 == t.1 + if stays then [fr] else []
  {
    hide TickEntry, TickUpTo;
    var t, fr := TickUpTo(c, w, r), w.softList[r];
    NextEntry(c, w, r);
    TickEntryFrames(c, t.0, t.1, fr);
    stays := fr < c.nFrames && t.0.ttl[fr] > 1;
  }

  lemma ShapeTtl(c: Config, w: Win)
    requires Shape(c, w)
    ensures |w.ttl| == c.nFrames
  {}

  /**
   A tick takes one hop from a frame for every time the frame is listed.  A
   soft-pinned frame therefore loses exactly one hop just when it is listed
   once, or listed more often with a single hop left.
   */
  lemma TickExact(c: Config, w: Win, i: nat)
    requires Shape(c, w) && i < c.nFrames
    ensures Tick(c, w).ttl[i] == Less(w.ttl[i], multiset(w.softList)[i])
    ensures w.ttl[i] > 0 ==>
      (Tick(c, w).ttl[i] == w.ttl[i] - 1 <==>
        multiset(w.softList)[i] == 1 || (multiset(w.softList)[i] > 1 && w.ttl[i] == 1))
    ensures Tick(c, w).ttl[i] > 0 ==> multiset(Tick(c, w).softList)[i] == multiset(w.softList)[i]
  {
    TickUpToFrames(c, w, |w.softList|);
    TickUpToKept(c, w, |w.softList|, i);
    assert w.softList[..|w.softList|] == w.softList;
  }

  ghost const TINY: Config := Config([0, 0], 1, 1, 0, 8, false)

  lemma TinyFirst()
    ensures var w := Win(map[], [None], [false], [false], [0], [], {}, 0, 0, 0, [[]]);
      Install(TINY, w, 0, [0], 5) == Win(map[0 := 0], [Some(0)], [false], [false], [5], [0], {}, 1, 0, 1, [[0]])
  {
    var w := Win(map[], [None], [false], [false], [0], [], {}, 0, 0, 0, [[]]);
    assert GuardedFlags(w) == [false];
    assert Scan(GuardedFlags(w), 0, 1) == Some(0);
  }

  lemma TinySecond()
    ensures var w := Win(map[0 := 0], [Some(0)], [false], [false], [5], [0], {}, 1, 0, 1, [[0]]);
      Install(TINY, w, 1, [0], 5) == Win(map[1 := 0], [Some(1)], [false], [false], [5], [0, 0], {}, 3, 0, 1, [[0]])
  {
    var w := Win(map[0 := 0], [Some(0)], [false], [false], [5], [0], {}, 1, 0, 1, [[0]]);
    assert GuardedFlags(w) == [true] && HeldFlags(w) == [false];
    assert Scan(GuardedFlags(w), 1, 1) == None;
    assert Scan(HeldFlags(w), 2, 1) == Some(2);
    assert w.pageMap - {0} == map[];
  }

  /** A soft-pinned page evicted on the second turn leaves its list entry behind, and its successor ages twice as fast. */
  lemma SoftEntryTwice()
    ensures var w := Win(map[], [None], [false], [false], [0], [], {}, 0, 0, 0, [[]]);
      && Valid(TINY, w)
      && var w2 := Install(TINY, Install(TINY, w, 0, [0], 5), 1, [0], 5);
         w2.softList == [0, 0] && w2.ttl == [5] && Tick(TINY, w2).ttl[0] == 3
  {
    hide Install, TickUpTo;
    var w := Win(map[], [None], [false], [false], [0], [], {}, 0, 0, 0, [[]]);
    CountBound(w.pinned);
    CountBound(SoftFlags(w.ttl));
    TinyFirst();
    TinySecond();
    var w2 := Install(TINY, Install(TINY, w, 0, [0], 5), 1, [0], 5);
    TickExact(TINY, w2, 0);
    assert multiset(w2.softList)[0] == 2;
  }

  // ------------------------------------------------------------ spans

  /** Pins never go away while promoting, and a requested one is there or the budget is spent. */
  lemma PromotePins(c: Config, w: Win, p: nat, pin: bool)
    requires Valid(c, w) && c.nFrames > 0 && IsPage(c, p) && (p in w.pageMap || HasIdle(w))
    ensures var w' := Promote(c, w, p, pin).0;
      && w.pinnedPages <= w'.pinnedPages && w.pinBytes <= w'.pinBytes
      && (pin ==> p in w'.pinnedPages || w'.pinBytes + c.pageBytes > c.pinCap)
      && (!pin ==> w'.pinned == w.pinned) && w'.filling == w.filling
  {
    if p !in w.pageMap { LoadPages(c, w, p, PageAt(c, p)); }
  }

  lemma ValidInFrames(c: Config, w: Win)
    requires Valid(c, w)
    ensures MapInFrames(w)
  {}

  /** Promoting a span without pinning keeps the invariant as long as one frame is idle. */
  lemma {:induction false} PromotePagesValid(c: Config, w: Win, k: nat, last: nat)
    requires Valid(c, w) && c.nFrames > 0 && HasIdle(w) && PageOff(last, c.pageBytes) + c.pageBytes <= |c.ssd|
    ensures var w' := PromotePages(c, w, k, last, false);
      Valid(c, w') && w'.pinned == w.pinned && w'.filling == w.filling
    decreases last + 1 - k
  {
    hide Promote, MapInv, FlagInv, PinInv, SoftInv, BytesInv;
    ValidInFrames(c, w);
    if k <= last {
      var p := PageOff(k, c.pageBytes);
      OffOrder(k, last, c.pageBytes);
      IndexOf(k, c.pageBytes, 0);
      PromoteValid(c, w, p, false);
      PromotePins(c, w, p, false);
      PromotePagesValid(c, Promote(c, w, p, false).0, k + 1, last);
    }
  }

  /**
   Pinning a span while pin cap and fill bound together stay below the window:
   the invariant holds throughout, and each page ends up pinned unless the pin
   budget has run out.
   */
  lemma {:induction false} PinPagesValid(c: Config, w: Win, k: nat, last: nat, maxFills: nat)
    requires Valid(c, w) && c.nFrames > 0 && Count(w.filling) <= maxFills
    requires c.pinCap + PageOff(maxFills, c.pageBytes) < PageOff(c.nFrames, c.pageBytes)
    requires PageOff(last, c.pageBytes) + c.pageBytes <= |c.ssd|
    ensures var w' := PromotePages(c, w, k, last, true);
      && Valid(c, w') && w'.filling == w.filling
      && w.pinnedPages <= w'.pinnedPages && w.pinBytes <= w'.pinBytes
      && forall j: nat :: k <= j <= last ==> PageOff(j, c.pageBytes) in w'.pinnedPages || w'.pinBytes + c.pageBytes > c.pinCap
    decreases last + 1 - k
  {
    hide Promote, MapInv, FlagInv, PinInv, SoftInv, BytesInv;
    ValidInFrames(c, w);
    if k <= last {
      var p := PageOff(k, c.pageBytes);
      OffOrder(k, last, c.pageBytes);
      IndexOf(k, c.pageBytes, 0);
      RoomyHasIdle(c, w, maxFills);
      PromoteValid(c, w, p, true);
      PromotePins(c, w, p, true);
      PinPagesValid(c, Promote(c, w, p, true).0, k + 1, last, maxFills);
    }
  }

  /** A page that is promoted alone is resident afterwards. */
  lemma PromoteOnePage(c: Config, w: Win, k: nat)
    requires Valid(c, w) && c.nFrames > 0 && HasIdle(w) && PageOff(k, c.pageBytes) + c.pageBytes <= |c.ssd|
    ensures PageOff(k, c.pageBytes) in PromotePages(c, w, k, k, false).pageMap
  {
    IndexOf(k, c.pageBytes, 0);
    PromoteValid(c, w, PageOff(k, c.pageBytes), false);
  }

  /** Pages already resident are not moved by promoting them. */
  lemma {:induction false} PromoteResidentPages(c: Config, w: Win, k: nat, last: nat)
    requires Valid(c, w) && c.nFrames > 0 && PageOff(last, c.pageBytes) + c.pageBytes <= |c.ssd|
    requires forall j: nat :: k <= j <= last ==> PageOff(j, c.pageBytes) in w.pageMap
    ensures PromotePages(c, w, k, last, false) == w
    decreases last + 1 - k
  {
    if k <= last {
      OffOrder(k, last, c.pageBytes);
      PromoteResidentPages(c, w, k + 1, last);
    }
  }

  lemma TinyPromoteFirst()
    ensures var w := Win(map[], [None], [false], [false], [0], [], {}, 0, 0, 0, [[]]);
      Promote(TINY, w, 0, false).0 == Win(map[0 := 0], [Some(0)], [false], [false], [0], [], {}, 1, 0, 0, [[0]])
  {
    var w := Win(map[], [None], [false], [false], [0], [], {}, 0, 0, 0, [[]]);
    assert GuardedFlags(w) == [false];
    assert Scan(GuardedFlags(w), 0, 1) == Some(0);
    assert PageAt(TINY, 0) == [0];
  }

  lemma TinyPromoteSecond()
    ensures var w := Win(map[0 := 0], [Some(0)], [false], [false], [0], [], {}, 1, 0, 0, [[0]]);
      Promote(TINY, w, 1, false).0 == Win(map[1 := 0], [Some(1)], [false], [false], [0], [], {}, 2, 0, 0, [[0]])
  {
    var w := Win(map[0 := 0], [Some(0)], [false], [false], [0], [], {}, 1, 0, 0, [[0]]);
    assert GuardedFlags(w) == [false];
    assert Scan(GuardedFlags(w), 1, 1) == Some(1);
    assert w.pageMap - {0} == map[];
    assert PageAt(TINY, 1) == [0];
  }

  /** With a single frame a two-page span pushes its own first page out again. */
  lemma SpanEvictsItself()
    ensures var w := Win(map[], [None], [false], [false], [0], [], {}, 0, 0, 0, [[]]);
      && Valid(TINY, w) && HasIdle(w)
      && 0 !in PromotePages(TINY, w, 0, 1, false).pageMap
  {
    hide Promote;
    var w := Win(map[], [None], [false], [false], [0], [], {}, 0, 0, 0, [[]]);
    CountBound(w.pinned);
    CountBound(SoftFlags(w.ttl));
    assert !w.pinned[0] && !w.filling[0];
    TinyPromoteFirst();
    TinyPromoteSecond();
    PromotePagesUnfold(TINY, w);
  }

  lemma PromotePagesUnfold(c: Config, w: Win)
    requires Shape(c, w) && MapInFrames(w) && c.nFrames > 0 && c.pageBytes == 1 && |c.ssd| == 2
    ensures PromotePages(c, w, 0, 1, false) == Promote(c, Promote(c, w, 0, false).0, 1, false).0
  {
    hide Promote;
    assert PageOff(0, 1) == 0 && PageOff(1, 1) == 1;
    assert PromotePages(c, Promote(c, w, 0, false).0, 1, 1, false) == Promote(c, Promote(c, w, 0, false).0, 1, false).0;
  }
}
