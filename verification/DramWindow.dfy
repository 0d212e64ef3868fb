/**
 The page window of serving/dram_window.hpp, updating its fields in place.
 `arena` is indexed by frame, so copying a whole page is one assignment.  Each
 method is one critical section under the window's mutex; metrics are left out.
 Every update is proved equal to the operation of the same name in WindowSpec.
 */
module DramWindows {
  import opened Common
  import opened Counting
  import opened PageMath
  import opened WindowSpec
  import opened WindowProofs
  import opened SpanClock

  /** Every page overlapping the bytes [off, off + n) is resident. */
  ghost predicate SpanResident(c: Config, w: Win, off: nat, n: nat)
    requires c.pageBytes > 0
  {
    n > 0 ==> forall k: nat :: off / c.pageBytes <= k <= (off + n - 1) / c.pageBytes ==> PageOff(k, c.pageBytes) in w.pageMap
  }

  ghost predicate SpanInImage(c: Config, off: nat, n: nat)
    requires c.pageBytes > 0
  {
    n > 0 ==> PageOff((off + n - 1) / c.pageBytes, c.pageBytes) + c.pageBytes <= |c.ssd|
  }

  /** `m'` is `m` with entries for missing pages made up by `map[po]`, all naming frame 0. */
  ghost predicate MadeUp(m: map<nat, nat>, m': map<nat, nat>) {
    && (forall p :: p in m ==> p in m' && m'[p] == m[p])
    && (forall p :: p in m' && p !in m ==> m'[p] == 0)
  }

  /** One made-up entry is enough to put the map out of step with the keys. */
  lemma MadeUpBreaks(c: Config, w: Win, m': map<nat, nat>)
    requires Valid(c, w) && MadeUp(w.pageMap, m') && m' != w.pageMap
    ensures !Inverse(m', w.key, w.filling)
  {
    var p :| p in m' && p !in w.pageMap;
    assert m'[p] == 0;
  }

  lemma MadeUpInvalid(c: Config, w: Win, w': Win)
    requires Valid(c, w) && w' == w.(pageMap := w'.pageMap) && MadeUp(w.pageMap, w'.pageMap) && w' != w
    ensures !Valid(c, w')
  {
    MadeUpBreaks(c, w, w'.pageMap);
  }

  /** A stuck entry stays stuck when others are made up. */
  lemma MadeUpStuck(c: Config, w: Win, w': Win, q: nat, f: nat)
    requires Shape(c, w) && Stuck(w, q, f) && w' == w.(pageMap := w'.pageMap) && MadeUp(w.pageMap, w'.pageMap)
    ensures !Valid(c, w')
  {
    StuckInvalid(c, w', q, f);
  }

  /** Of the frames the clock is going to hand out, the span needs none twice and none after it found a page of its own there. */
  ghost predicate SpanWhole(c: Config, w: Win, off: nat, len: nat)
    requires Shape(c, w) && c.nFrames > 0 && len > 0
  {
    Whole(w.pageMap, HandOut(c, w), c.pageBytes, off / c.pageBytes, (off + len - 1) / c.pageBytes)
  }

  /** The window once a span is promoted: consistent with the whole span resident exactly when the span was whole. */
  lemma SpanPromoted(c: Config, w: Win, off: nat, len: nat)
    requires Valid(c, w) && c.nFrames > 0 && SpanInImage(c, off, len) && len > 0
    ensures MapInFrames(w)
    ensures var v := PromotePages(c, w, off / c.pageBytes, (off + len - 1) / c.pageBytes, false);
      && (Valid(c, v) && SpanResident(c, v, off, len) <==> SpanWhole(c, w, off, len))
      && (Valid(c, v) || exists q, f :: Stuck(v, q, f))
  {
    hide *;
    ValidSizes(c, w);
    WholeSpan(c, w, off, len);
    DivBetween(off, off, off + len - 1, c.pageBytes);
    SpanKeptIff(c, w, off / c.pageBytes, (off + len - 1) / c.pageBytes);
    AllInSpan(c, PromotePages(c, w, off / c.pageBytes, (off + len - 1) / c.pageBytes, false), off, len);
  }

  /** The window once a span, or for no length the one page, is promoted and pinned page by page. */
  ghost function PinnedSpan(c: Config, w: Win, off: nat, len: nat): Win
    requires Valid(c, w) && c.nFrames > 0 && SpanInImage(c, off, if len == 0 then 1 else len)
  {
    hide *;
    ValidSizes(c, w);
    var n := if len == 0 then 1 else len;
    LastFits(c, off, n);
    PromotePages(c, w, PageNo(c, off), PageNo(c, off + n - 1), true)
  }

  /** The number of the page that holds a byte. */
  ghost function PageNo(c: Config, x: nat): nat
    requires c.pageBytes > 0
  {
    x / c.pageBytes
  }

  /** The pages from the one of `off` up to page `k` are resident. */
  ghost predicate PagesMapped(c: Config, w: Win, off: nat, k: nat)
    requires c.pageBytes > 0
  {
    PageNo(c, off) <= k && forall j: nat :: PageNo(c, off) <= j < k ==> PageOff(j, c.pageBytes) in w.pageMap
  }

  lemma PageNoIs(c: Config, w: Win, x: nat)
    requires c.pageBytes > 0
    ensures PageNo(c, x) == x / c.pageBytes && PagesMapped(c, w, x, PageNo(c, x))
  {}

  lemma PageMapped(c: Config, w: Win, off: nat, k: nat)
    requires c.pageBytes > 0 && PagesMapped(c, w, off, k) && PageOff(k, c.pageBytes) in w.pageMap
    ensures PagesMapped(c, w, off, k + 1)
  {}

  lemma PageMissing(c: Config, w: Win, off: nat, n: nat, k: nat)
    requires c.pageBytes > 0 && n > 0 && PagesMapped(c, w, off, k) && k <= PageNo(c, off + n - 1) && PageOff(k, c.pageBytes) !in w.pageMap
    ensures !SpanResident(c, w, off, n)
  {}

  lemma AllMapped(c: Config, w: Win, off: nat, n: nat, k: nat)
    requires c.pageBytes > 0 && n > 0 && PagesMapped(c, w, off, k) && k > PageNo(c, off + n - 1)
    ensures SpanResident(c, w, off, n)
  {}

  lemma LastFits(c: Config, off: nat, n: nat)
    requires c.pageBytes > 0 && n > 0 && SpanInImage(c, off, n)
    ensures PageOff(PageNo(c, off + n - 1), c.pageBytes) + c.pageBytes <= |c.ssd|
  {}

  lemma WholeSpan(c: Config, w: Win, off: nat, len: nat)
    requires Shape(c, w) && c.nFrames > 0 && len > 0 && SpanInImage(c, off, len)
    ensures SpanWhole(c, w, off, len) == Whole(w.pageMap, HandOut(c, w), c.pageBytes, off / c.pageBytes, (off + len - 1) / c.pageBytes)
    ensures PageOff((off + len - 1) / c.pageBytes, c.pageBytes) + c.pageBytes <= |c.ssd|
  {}

  lemma AllInSpan(c: Config, w: Win, off: nat, len: nat)
    requires c.pageBytes > 0 && len > 0
    ensures SpanResident(c, w, off, len) <==> AllIn(c, w, off / c.pageBytes, (off + len - 1) / c.pageBytes + 1)
  {}

  lemma SliceOfSlice(s: Bytes, a: nat, b: nat, i: nat, j: nat)
    requires a <= b <= |s| && i <= j <= b - a
    ensures s[a..b][i..j] == s[a + i..a + j]
  {
    assert |s[a..b][i..j]| == |s[a + i..a + j]|;
    forall k | 0 <= k < j - i ensures s[a..b][i..j][k] == s[a + i..a + j][k] {}
  }

  /** Bytes of one resident page are the image's bytes. */
  lemma PageBytes(c: Config, w: Win, off: nat, n: nat, cur: nat)
    requires Valid(c, w) && SpanResident(c, w, off, n) && off <= cur < off + n
    ensures var po := PageDown(cur, c.pageBytes);
      && po in w.pageMap && w.pageMap[po] < c.nFrames && po <= cur < po + c.pageBytes <= |c.ssd|
      && w.frames[w.pageMap[po]] == c.ssd[po..po + c.pageBytes]
  {
    PageDownOf(cur, c.pageBytes);
    DivBetween(off, cur, off + n - 1, c.pageBytes);
    assert PageOff(cur / c.pageBytes, c.pageBytes) in w.pageMap;
  }

  /** A span whose first and last bytes share a page is in one page, and resident exactly when that is. */
  lemma OnePageSpan(c: Config, w: Win, off: nat, n: nat)
    requires c.pageBytes > 0 && n > 0
    ensures PageDown(off, c.pageBytes) == PageDown(off + n - 1, c.pageBytes) <==> off / c.pageBytes == (off + n - 1) / c.pageBytes
    ensures PageDown(off, c.pageBytes) == PageDown(off + n - 1, c.pageBytes) ==>
      (SpanResident(c, w, off, n) <==> PageDown(off, c.pageBytes) in w.pageMap) && off + n <= PageDown(off, c.pageBytes) + c.pageBytes
    ensures PageDown(off, c.pageBytes) <= off
  {
    PageDownOf(off, c.pageBytes);
    PageDownOf(off + n - 1, c.pageBytes);
    DivBetween(off, off, off + n - 1, c.pageBytes);
    OffOrder(off / c.pageBytes, (off + n - 1) / c.pageBytes, c.pageBytes);
    hide PageDown, PageOff;
  }

  /** A span that is resident lies within the image. */
  lemma SpanFits(c: Config, w: Win, off: nat, n: nat)
    requires Valid(c, w) && SpanResident(c, w, off, n) && n > 0
    ensures off + n <= |c.ssd|
  {
    PageBytes(c, w, off, n, off + n - 1);
  }

  /** Frames being filled keep their key and their bytes. */
  ghost predicate FillsUntouched(w: Win, w': Win) {
    && |w'.filling| == |w.filling| == |w.key| == |w'.key| == |w.frames| == |w'.frames|
    && forall f :: 0 <= f < |w.filling| && w.filling[f] ==> w'.filling[f] && w'.key[f] == w.key[f] && w'.frames[f] == w.frames[f]
  }

  /** Installing brings in its page, no other, and touches no pin and no fill. */
  lemma InstallStep(c: Config, w: Win, p: nat, bytes: Bytes, t: nat)
    requires Valid(c, w) && c.nFrames > 0 && HasIdle(w) && IsPage(c, p) && bytes == PageAt(c, p)
    ensures var w' := Install(c, w, p, bytes, t);
      && Valid(c, w') && HasIdle(w') && w'.pinned == w.pinned && w'.filling == w.filling && FillsUntouched(w, w')
      && p in w'.pageMap && forall q :: q in w'.pageMap ==> q in w.pageMap || q == p
  {
    InstallValid(c, w, p, bytes, t);
    if p !in w.pageMap {
      InstallNew(c, w, p, bytes, t);
    } else {
      hide Valid;
    }
  }

  lemma InstallNone(c: Config, w: Win, t: nat)
    requires Shape(c, w) && c.nFrames > 0
    ensures InstallAll(c, w, [], [], t) == w
  {}

  lemma InstallNext(c: Config, w: Win, pages: seq<nat>, hosts: seq<Bytes>, i: nat, t: nat)
    requires Shape(c, w) && c.nFrames > 0 && i < |pages| == |hosts|
    ensures InstallAll(c, w, pages[..i + 1], hosts[..i + 1], t) == Install(c, InstallAll(c, w, pages[..i], hosts[..i], t), pages[i], hosts[i], t)
  {
    hide Install;
    assert pages[..i + 1][..i] == pages[..i] && hosts[..i + 1][..i] == hosts[..i];
  }

  lemma InstallNew(c: Config, w: Win, p: nat, bytes: Bytes, t: nat)
    requires Valid(c, w) && c.nFrames > 0 && HasIdle(w) && p !in w.pageMap
    ensures var w' := Install(c, w, p, bytes, t);
      && HasIdle(w') && w'.pinned == w.pinned && w'.filling == w.filling && FillsUntouched(w, w')
      && p in w'.pageMap && forall q :: q in w'.pageMap ==> q in w.pageMap || q == p
  {
    hide *;
    ValidFlags(c, w);
    LoadPages(c, w, p, bytes);
    InstallPages(c, w, p, bytes, t);
    NewPage(w, Install(c, w, p, bytes, t), Load(c, w, p, bytes).1, p, bytes);
  }

  lemma ValidFlags(c: Config, w: Win)
    requires Valid(c, w)
    ensures Shape(c, w) && FlagInv(c, w)
  {}

  /** An idle frame given to a page. */
  lemma NewPage(w: Win, w': Win, fr: nat, p: nat, bytes: Bytes)
    requires |w.key| == |w.pinned| == |w.filling| == |w.frames| && fr < |w.key| && !w.pinned[fr] && !w.filling[fr]
    requires w'.pinned == w.pinned && w'.filling == w.filling && w'.frames == w.frames[fr := bytes] && w'.key == w.key[fr := Some(p)]
    requires w'.pageMap == (match w.key[fr] case None => w.pageMap case Some(k) => w.pageMap - {k})[p := fr]
    ensures HasIdle(w') && FillsUntouched(w, w') && p in w'.pageMap && forall q :: q in w'.pageMap ==> q in w.pageMap || q == p
  {
    assert !w'.pinned[fr] && !w'.filling[fr];
  }

  /** A window with no page, no pin and no fill. */
  lemma EmptyValid(c: Config, w: Win)
    requires Shape(c, w) && w.pageMap == map[] && w.pinnedPages == {} && w.pinBytes == 0 && w.softBytes == 0
    requires forall i :: 0 <= i < c.nFrames ==> w.key[i] == None && !w.pinned[i] && !w.filling[i] && w.ttl[i] == 0
    ensures Valid(c, w)
  {
    CountBound(w.pinned);
    CountBound(SoftFlags(w.ttl));
    hide Count;
    assert PageOff(0, c.pageBytes) == 0;
  }

  class DramWindow {
    const ssd: Bytes
    const pageBytes: nat
    const capacity: nat
    const nFrames: nat
    const pinBytesCap: nat
    const softPinBytesCap: nat
    const softPinNeighbors: bool
    const arena: array<Bytes>

    var pageMap: map<nat, nat>
    var frameKey: seq<Option<nat>>
    var framePinned: seq<bool>
    var frameFilling: seq<bool>
    var frameSoftTtl: seq<nat>
    var softPinFrames: seq<nat>
    var pinnedPages: set<nat>
    var clockHand: nat
    var pinBytesUsed: nat
    var softPinBytesUsed: nat

    ghost function Cfg(): Config {
      Config(ssd, pageBytes, nFrames, pinBytesCap, softPinBytesCap, softPinNeighbors)
    }

    ghost function Abs(): Win
      reads this, arena
    {
      Win(pageMap, frameKey, framePinned, frameFilling, frameSoftTtl, softPinFrames, pinnedPages,
          clockHand, pinBytesUsed, softPinBytesUsed, arena[..])
    }

    /** The vectors have one entry per frame and a frame has the size of a page. */
    ghost predicate Sized()
      reads this, arena
    {
      && pageBytes > 0
      && |frameKey| == |framePinned| == |frameFilling| == |frameSoftTtl| == arena.Length == nFrames
      && forall i :: 0 <= i < nFrames ==> |arena[i]| == pageBytes
    }

    ghost predicate Good()
      reads this, arena
    {
      Sized() && Valid(Cfg(), Abs())
    }

    /** `init`: a cap of zero asks for the default, the smaller of a constant and a share of the capacity. */
    constructor (ssd: Bytes, dramBytes: nat, page: nat, pinCap: nat, softCap: nat, neighbors: bool)
      requires page > 0
      ensures Good() && fresh(arena) && pageMap == map[]
      ensures this.ssd == ssd && pageBytes == page && capacity == dramBytes && nFrames == dramBytes / page
      ensures softPinNeighbors == neighbors
      ensures pinBytesCap == if pinCap != 0 then pinCap
                             else if dramBytes < 0x4000_0000 then dramBytes / 16 else 0x400_0000
      ensures softPinBytesCap == if softCap != 0 then softCap
                                 else if dramBytes < 0x4000_0000 then dramBytes / 4 else 0x1000_0000
      ensures forall i :: 0 <= i < nFrames ==> !frameFilling[i] && !framePinned[i]
    {
      hide Valid;
      var n := dramBytes / page;
      this.ssd := ssd;
      pageBytes := page;
      capacity := dramBytes;
      nFrames := n;
      arena := new Bytes[n](_ => seq(page, _ => 0));
      pageMap := map[];
      frameKey := seq(n, _ => None);
      framePinned := seq(n, _ => false);
      frameFilling := seq(n, _ => false);
      frameSoftTtl := seq(n, _ => 0);
      softPinFrames := [];
      pinnedPages := {};
      clockHand := 0;
      pinBytesUsed := 0;
      softPinBytesUsed := 0;
      pinBytesCap := if pinCap == 0 then (if 0x400_0000 < dramBytes / 16 then 0x400_0000 else dramBytes / 16) else pinCap;
      softPinBytesCap := if softCap == 0 then (if 0x1000_0000 < dramBytes / 4 then 0x1000_0000 else dramBytes / 4) else softCap;
      softPinNeighbors := neighbors;
      new;
      EmptyValid(Cfg(), Abs());
    }

    // ---------------------------------------------------------- soft pins

    method ClearSoftTtl(fr: nat)
      requires Sized()
      modifies this`frameSoftTtl, this`softPinBytesUsed
      ensures Sized() && Abs() == ClearSoft(Cfg(), old(Abs()), fr)
    {
      if fr >= nFrames || frameSoftTtl[fr] == 0 { return; }
      frameSoftTtl := frameSoftTtl[fr := 0];
      softPinBytesUsed := if softPinBytesUsed > pageBytes then softPinBytesUsed - pageBytes else 0;
    }

    method SetSoftTtl(fr: nat, ttl: nat)
      requires Sized()
      modifies this`frameSoftTtl, this`softPinBytesUsed, this`softPinFrames
      ensures Sized() && Abs() == SetSoft(Cfg(), old(Abs()), fr, ttl)
    {
      if fr >= nFrames || ttl == 0 || framePinned[fr] { return; }
      if frameSoftTtl[fr] == 0 {
        if softPinBytesUsed + pageBytes > softPinBytesCap { return; }
        softPinBytesUsed := softPinBytesUsed + pageBytes;
        softPinFrames := softPinFrames + [fr];
        frameSoftTtl := frameSoftTtl[fr := ttl];
      } else if ttl > frameSoftTtl[fr] {
        frameSoftTtl := frameSoftTtl[fr := ttl];
      }
    }

    method TouchSoftPin(p: nat, ttl: nat)
      requires Sized()
      modifies this`frameSoftTtl, this`softPinBytesUsed, this`softPinFrames
      ensures Sized() && Abs() == TouchSoft(Cfg(), old(Abs()), p, ttl)
    {
      if ttl == 0 { return; }
      if p in pageMap { SetSoftTtl(pageMap[p], ttl); }
    }

    /** One hop less for a soft-pinned frame; true when hops are left. */
    method AgeFrame(fr: nat) returns (kept: bool)
      requires Sized()
      modifies this`frameSoftTtl, this`softPinBytesUsed
      ensures Sized()
      ensures Abs() == TickEntry(Cfg(), old(Abs()), [], fr).0
      ensures TickEntry(Cfg(), old(Abs()), [], fr).1 == if kept then [fr] else []
    {
      assert [] + [fr] == [fr];
      if fr >= nFrames || frameSoftTtl[fr] == 0 { return false; }
      frameSoftTtl := frameSoftTtl[fr := frameSoftTtl[fr] - 1];
      if frameSoftTtl[fr] > 0 { return true; }
      softPinBytesUsed := if softPinBytesUsed > pageBytes then softPinBytesUsed - pageBytes else 0;
      return false;
    }

    /** A list entry's turn does not depend on the list, nor on what is written back before it. */
    static lemma EntryAlone(c: Config, w: Win, list: seq<nat>, kept: seq<nat>, fr: nat)
      requires Shape(c, w)
      ensures var t := TickEntry(c, w, [], fr);
        TickEntry(c, w.(softList := list), kept, fr) == (t.0.(softList := list), kept + t.1)
    {
      assert kept + [] == kept && [] + [fr] == [fr];
    }

    static lemma TickStart(c: Config, w: Win)
      requires Shape(c, w)
      ensures TickUpTo(c, w, 0) == (w, [])
    {}

    /** One pass over the list: write index `w` trails read index `r`. */
    method AgeList()
      requires Sized()
      modifies this`frameSoftTtl, this`softPinBytesUsed, this`softPinFrames
      ensures Sized() && Abs() == Tick(Cfg(), old(Abs()))
    {
      hide TickEntry, TickUpTo;
      ghost var c, w0 := Cfg(), Abs();
      TickStart(c, w0);
      if softPinFrames == [] { return; }
      var w := 0;
      for r := 0 to |softPinFrames|
        invariant Sized() && w <= r && |softPinFrames| == |w0.softList| && Shape(c, w0)
        invariant Abs().(softList := w0.softList) == TickUpTo(c, w0, r).0
        invariant softPinFrames[..w] == TickUpTo(c, w0, r).1
        invariant softPinFrames[r..] == w0.softList[r..]
      {
        var fr := softPinFrames[r];
        assert fr == w0.softList[r];
        EntryAlone(c, Abs(), w0.softList, TickUpTo(c, w0, r).1, fr);
        NextEntry(c, w0, r);
        var kept := AgeFrame(fr);
        if kept {
          softPinFrames := softPinFrames[w := fr];
          w := w + 1;
        }
      }
      softPinFrames := softPinFrames[..w];
    }

    /** `tick_soft_pins`: the invariant is kept and nothing leaves the window. */
    method TickSoftPins()
      requires Sized()
      modifies this`frameSoftTtl, this`softPinBytesUsed, this`softPinFrames
      ensures Sized() && Abs() == Tick(Cfg(), old(Abs()))
      ensures old(Good()) ==> Good() && pageMap == old(pageMap)
    {
      ghost var c, w0, good := Cfg(), Abs(), Good();
      hide Valid, Tick;
      AgeList();
      if good { TickValid(c, w0); }
    }

    /** Age soft pins only when the window is within 4096 pages of full. */
    method TickSoftPinsIfPressure()
      requires Sized()
      modifies this`frameSoftTtl, this`softPinBytesUsed, this`softPinFrames
      ensures Sized()
      ensures Abs() == if |old(pageMap)| * pageBytes + pageBytes * 4096 >= capacity
                       then Tick(Cfg(), old(Abs())) else old(Abs())
      ensures old(Good()) ==> Good()
    {
      if |pageMap| * pageBytes + pageBytes * 4096 >= capacity { TickSoftPins(); }
    }

    // ---------------------------------------------------------- the clock

    /** First turn of the clock: past pinned, filling and soft-pinned frames. */
    method FirstTurn() returns (found: bool, fr: nat)
      requires Sized() && nFrames > 0
      modifies this`clockHand
      ensures Sized() && clockHand > 0
      ensures match Scan(GuardedFlags(old(Abs())), old(clockHand), nFrames)
              case Some(h) => found && fr == h % nFrames && clockHand == h + 1
              case None => !found && clockHand == old(clockHand) + nFrames
    {
      ghost var guarded := GuardedFlags(Abs());
      for t := 0 to nFrames
        invariant clockHand == old(clockHand) + t
        invariant Scan(guarded, old(clockHand), nFrames) == Scan(guarded, clockHand, nFrames - t)
      {
        var i := clockHand % nFrames;
        clockHand := clockHand + 1;
        if framePinned[i] || frameFilling[i] { continue; }
        if frameSoftTtl[i] > 0 { continue; }
        return true, i;
      }
      return false, 0;
    }

    /** Second turn: soft pins no longer protect a frame. */
    method SecondTurn() returns (found: bool, fr: nat)
      requires Sized() && nFrames > 0
      modifies this`clockHand
      ensures Sized()
      ensures match Scan(HeldFlags(old(Abs())), old(clockHand), nFrames)
              case Some(h) => found && fr == h % nFrames && clockHand == h + 1
              case None => !found && clockHand == old(clockHand) + nFrames
    {
      ghost var held := HeldFlags(Abs());
      for t := 0 to nFrames
        invariant clockHand == old(clockHand) + t
        invariant Scan(held, old(clockHand), nFrames) == Scan(held, clockHand, nFrames - t)
      {
        var i := clockHand % nFrames;
        clockHand := clockHand + 1;
        if framePinned[i] || frameFilling[i] { continue; }
        return true, i;
      }
      return false, 0;
    }

    method TakeFrame(fr: nat)
      requires Sized() && fr < nFrames
      modifies this`pageMap, this`frameKey, this`frameSoftTtl, this`softPinBytesUsed
      ensures Sized() && Abs() == Take(Cfg(), old(Abs()), fr, clockHand)
    {
      if frameKey[fr].None? { return; }
      pageMap := pageMap - {frameKey[fr].value};
      frameKey := frameKey[fr := None];
      ClearSoftTtl(fr);
    }

    method EvictFrame() returns (fr: nat)
      requires Sized() && nFrames > 0
      modifies this`clockHand, this`pageMap, this`frameKey, this`frameSoftTtl, this`softPinBytesUsed
      ensures Sized() && (Abs(), fr) == Evict(Cfg(), old(Abs()))
    {
      hide Take, Scan, GuardedFlags, HeldFlags;
      ghost var w := Abs();
      var found;
      found, fr := FirstTurn();
      if !found {
        HeldSame(w, Abs());
        found, fr := SecondTurn();
      }
      if !found { return 0; }
      TakeSame(Cfg(), w, Abs(), fr, clockHand);
      TakeFrame(fr);
    }

    static lemma HeldSame(w: Win, v: Win)
      requires |w.pinned| == |w.filling| && v.pinned == w.pinned && v.filling == w.filling
      ensures HeldFlags(v) == HeldFlags(w)
    {}

    static lemma TakeSame(c: Config, w: Win, v: Win, fr: nat, next: nat)
      requires fr < |w.key| && v == w.(hand := v.hand)
      ensures Take(c, v, fr, next) == Take(c, w, fr, next)
    {}

    // ---------------------------------------------------------- fills

    /** `reserve_fill`: None when the page is already resident. */
    method ReserveFill(p: nat) returns (r: Option<nat>)
      requires Sized() && nFrames > 0
      modifies arena, this`frameFilling, this`clockHand, this`pageMap, this`frameKey, this`frameSoftTtl, this`softPinBytesUsed
      ensures Sized() && (Abs(), r) == Reserve(Cfg(), old(Abs()), p)
    {
      hide Take, Scan, GuardedFlags, HeldFlags;
      if p in pageMap { return None; }
      var fr := EvictFrame();
      frameFilling := frameFilling[fr := true];
      frameKey := frameKey[fr := Some(p)];
      arena[fr] := arena[fr][0 := 0];   // fault the page in before the device writes it
      return Some(fr);
    }

    method CommitFill(p: nat, fr: nat, ttl: nat)
      requires Sized()
      modifies this`frameFilling, this`pageMap, this`frameKey, this`frameSoftTtl, this`softPinBytesUsed, this`softPinFrames
      ensures Sized() && Abs() == Commit(Cfg(), old(Abs()), p, fr, ttl)
    {
      if fr >= nFrames || !frameFilling[fr] { return; }
      frameFilling := frameFilling[fr := false];
      if p in pageMap {
        frameKey := frameKey[fr := None];
        return;
      }
      frameKey := frameKey[fr := Some(p)];
      pageMap := pageMap[p := fr];
      SetSoftTtl(fr, ttl);
    }

    method AbortFill(fr: nat)
      requires Sized()
      modifies this`frameFilling, this`frameKey
      ensures Sized() && Abs() == Abort(Cfg(), old(Abs()), fr)
    {
      if fr >= nFrames || !frameFilling[fr] { return; }
      frameFilling := frameFilling[fr := false];
      frameKey := frameKey[fr := None];
    }

    // ---------------------------------------------------------- promotion and installation

    method LoadPage(p: nat, bytes: Bytes) returns (fr: nat)
      requires Sized() && nFrames > 0 && |bytes| == pageBytes
      modifies arena, this`clockHand, this`pageMap, this`frameKey, this`framePinned, this`frameSoftTtl, this`softPinBytesUsed
      ensures Sized() && (Abs(), fr) == Load(Cfg(), old(Abs()), p, bytes)
    {
      hide Take, Scan, GuardedFlags, HeldFlags;
      fr := EvictFrame();
      arena[fr] := bytes;
      frameKey := frameKey[fr := Some(p)];
      framePinned := framePinned[fr := false];
      ClearSoftTtl(fr);
      pageMap := pageMap[p := fr];
    }

    method PinResident(p: nat, fr: nat)
      requires Sized() && fr < nFrames
      modifies this`framePinned, this`pinnedPages, this`pinBytesUsed
      ensures Sized() && Abs() == PinFrame(Cfg(), old(Abs()), p, fr)
    {
      if pinBytesUsed + pageBytes <= pinBytesCap {
        framePinned := framePinned[fr := true];
        pinnedPages := pinnedPages + {p};
        pinBytesUsed := pinBytesUsed + pageBytes;
      }
    }

    method PromotePage(p: nat, pin: bool) returns (fr: nat)
      requires Sized() && MapInFrames(Abs()) && nFrames > 0 && p + pageBytes <= |ssd|
      modifies this, arena
      ensures Sized() && (Abs(), fr) == Promote(Cfg(), old(Abs()), p, pin)
    {
      hide Evict, PlacePage;
      if p in pageMap {
        fr := pageMap[p];
        if pin && !framePinned[fr] { PinResident(p, fr); }
        return;
      }
      fr := LoadPage(p, ssd[p..p + pageBytes]);
      if pin { PinResident(p, fr); }
    }

    method InstallFullPage(p: nat, bytes: Bytes, ttl: nat)
      requires Sized() && nFrames > 0 && |bytes| == pageBytes
      modifies this, arena
      ensures Sized() && Abs() == Install(Cfg(), old(Abs()), p, bytes, ttl)
    {
      hide Load, SetSoft;
      if p in pageMap {
        SetSoftTtl(pageMap[p], ttl);
        return;
      }
      var fr := LoadPage(p, bytes);
      SetSoftTtl(fr, ttl);
      if ttl > 0 && softPinNeighbors {
        if p >= pageBytes { TouchSoftPin(p - pageBytes, ttl); }
        TouchSoftPin(p + pageBytes, ttl);
      }
    }

    /** Drop unpinned pages; pages arriving are left to their fills. */
    method Flush()
      requires Sized()
      modifies this`pageMap, this`frameKey, this`frameSoftTtl, this`softPinBytesUsed, this`softPinFrames, this`clockHand
      ensures Sized() && Abs() == WindowSpec.Flush(Cfg(), old(Abs()))
    {
      for i := 0 to nFrames
        invariant Sized() && Abs() == FlushUpTo(Cfg(), old(Abs()), i)
      {
        FlushOne(i);
      }
      softPinFrames := [];
      clockHand := 0;
    }

    method FlushOne(i: nat)
      requires Sized() && i < nFrames
      modifies this`pageMap, this`frameKey, this`frameSoftTtl, this`softPinBytesUsed
      ensures Sized() && Abs() == FlushFrame(Cfg(), old(Abs()), i)
    {
      if framePinned[i] || frameFilling[i] { return; }
      if frameKey[i].Some? { pageMap := pageMap - {frameKey[i].value}; }
      frameKey := frameKey[i := None];
      ClearSoftTtl(i);
    }

    // ---------------------------------------------------------- reading

    method IsResident(off: nat, len: nat) returns (b: bool)
      requires Sized()
      ensures b == SpanResident(Cfg(), Abs(), off, if len == 0 then 1 else len)
    {
      var n := if len == 0 then 1 else len;
      b := PagesResident(off, n);
    }

    /** The page loop `for (p = first; p <= last; p += page_bytes)`. */
    method PagesResident(off: nat, n: nat) returns (b: bool)
      requires Sized() && n > 0
      ensures b == SpanResident(Cfg(), Abs(), off, n)
    {
      MapShown();
      hide *;
      var last := PageDown(off + n - 1, pageBytes);
      var p := PageDown(off, pageBytes);
      PageDownOf(off, pageBytes);
      PageDownOf(off + n - 1, pageBytes);
      ghost var k := PageNo(Cfg(), off);
      ghost var kLast := PageNo(Cfg(), off + n - 1);
      PageNoIs(Cfg(), Abs(), off);
      PageNoIs(Cfg(), Abs(), off + n - 1);
      while p <= last
        invariant p == PageOff(k, pageBytes) && PagesMapped(Cfg(), Abs(), off, k)
        decreases last + pageBytes - p
      {
        OffOrder(k, kLast, pageBytes);
        NextOff(k, pageBytes);
        if p !in pageMap {
          PageMissing(Cfg(), Abs(), off, n, k);
          return false;
        }
        PageMapped(Cfg(), Abs(), off, k);
        p := p + pageBytes;
        k := k + 1;
      }
      OffOrder(k, kLast, pageBytes);
      AllMapped(Cfg(), Abs(), off, n, k);
      return true;
    }

    lemma MapShown()
      requires Sized()
      ensures pageBytes > 0 && Cfg().pageBytes == pageBytes && Abs().pageMap == pageMap
    {}

    /** A frame and an offset in it, for a span within one resident page; the empty span points at the arena. */
    method TryPtrResident(off: nat, n: nat) returns (r: Option<(nat, nat)>)
      requires Good()
      ensures n == 0 ==> r == Some((0, 0))
      ensures n > 0 ==> (r.Some? <==> off / pageBytes == (off + n - 1) / pageBytes && SpanResident(Cfg(), Abs(), off, n))
      ensures n > 0 && r.Some? ==>
        && r.value.0 < nFrames && r.value.1 + n <= pageBytes && off + n <= |ssd|
        && arena[r.value.0][r.value.1..r.value.1 + n] == ssd[off..off + n]
    {
      hide Valid, SpanResident, PageDown;
      if n == 0 { return Some((0, 0)); }
      var first := PageDown(off, pageBytes);
      var last := PageDown(off + n - 1, pageBytes);
      OnePageSpan(Cfg(), Abs(), off, n);
      if first != last { return None; }
      if first !in pageMap { return None; }
      PageBytes(Cfg(), Abs(), off, n, off);
      SliceOfSlice(ssd, first, first + pageBytes, off - first, off - first + n);
      assert arena[pageMap[first]] == arena[..][pageMap[first]];
      return Some((pageMap[first], off - first));
    }

    /** One `memcpy` of the copy loop.  `map[po]` invents an entry for a page that is not resident. */
    method CopyPart(cur: nat, want: nat) returns (part: Bytes)
      requires Sized() && MapInFrames(Abs()) && nFrames > 0 && want > 0
      modifies this`pageMap
      ensures var po := PageDown(cur, pageBytes);
        && Sized() && MapInFrames(Abs())
        && pageMap == (if po in old(pageMap) then old(pageMap) else old(pageMap)[po := 0])
        && 1 <= |part| <= want && po <= cur && cur - po + |part| <= pageBytes
        && part == arena[pageMap[po]][cur - po..cur - po + |part|]
    {
      var po := PageDown(cur, pageBytes);
      PageDownOf(cur, pageBytes);
      if po !in pageMap { pageMap := pageMap[po := 0]; }
      var fr := pageMap[po];
      var inPage := cur - po;
      var k := if want < pageBytes - inPage then want else pageBytes - inPage;
      part := arena[fr][inPage..inPage + k];
    }

    /** What one part of the copy is, when its page is resident and right. */
    lemma PartIsImage(w: Win, off: nat, n: nat, cur: nat, part: Bytes)
      requires Valid(Cfg(), w) && SpanResident(Cfg(), w, off, n) && off <= cur && cur + |part| <= off + n <= |ssd| && part != []
      requires var po := PageDown(cur, pageBytes);
        && po in w.pageMap && w.pageMap[po] < |w.frames| && po <= cur && cur - po + |part| <= |w.frames[w.pageMap[po]]|
        && part == w.frames[w.pageMap[po]][cur - po..cur - po + |part|]
      ensures ssd[off..cur] + part == ssd[off..cur + |part|]
    {
      var po := PageDown(cur, pageBytes);
      PageBytes(Cfg(), w, off, n, cur);
      SliceOfSlice(ssd, po, po + pageBytes, cur - po, cur - po + |part|);
      hide Valid, SpanResident, PageDown;
      assert part == ssd[cur..cur + |part|];
      assert ssd[off..cur] + ssd[cur..cur + |part|] == ssd[off..cur + |part|];
    }

    /** The copy loop shared by the readers. */
    method CopySpan(off: nat, n: nat) returns (out: Bytes)
      requires Sized() && MapInFrames(Abs()) && nFrames > 0 && n > 0
      modifies this`pageMap
      ensures Sized() && |out| == n && MadeUp(old(pageMap), pageMap)
      ensures pageMap == old(pageMap) <==> old(SpanResident(Cfg(), Abs(), off, n))
      ensures old(Good() && SpanResident(Cfg(), Abs(), off, n)) ==> off + n <= |ssd| && out == ssd[off..off + n]
    {
      hide Valid;
      ghost var w := Abs();
      ghost var whole := SpanResident(Cfg(), w, off, n);
      ghost var right := Valid(Cfg(), w) && whole;
      if right { SpanFits(Cfg(), w, off, n); }
      out := [];
      while |out| < n
        invariant |out| <= n && Sized() && MadeUp(w.pageMap, pageMap) && MapInFrames(Abs())
        invariant whole ==> pageMap == w.pageMap
        invariant forall x :: off <= x < off + |out| ==> PageDown(x, pageBytes) in pageMap
        invariant right ==> out == ssd[off..off + |out|]
      {
        ghost var cur := off + |out|;
        if whole { WholePage(w, off, n, cur); }
        var part := CopyPart(off + |out|, n - |out|);
        if right { PartIsImage(w, off, n, cur, part); }
        forall x | cur <= x < cur + |part| ensures PageDown(x, pageBytes) in pageMap {
          SamePage(x, PageDown(cur, pageBytes), cur);
        }
        out := out + part;
      }
      if !whole { MissedPage(w, off, n); }
    }

    lemma WholePage(w: Win, off: nat, n: nat, cur: nat)
      requires pageBytes > 0 && n > 0 && SpanResident(Cfg(), w, off, n) && off <= cur < off + n
      ensures PageDown(cur, pageBytes) in w.pageMap
    {
      PageDownOf(cur, pageBytes);
      DivBetween(off, cur, off + n - 1, pageBytes);
    }

    lemma SamePage(x: nat, po: nat, cur: nat)
      requires pageBytes > 0 && po == PageDown(cur, pageBytes) && po <= x < po + pageBytes
      ensures PageDown(x, pageBytes) == po
    {
      PageDownOf(cur, pageBytes);
      IndexOf(cur / pageBytes, pageBytes, x - po);
    }

    /** A page of the span that is not resident is touched by some byte of it. */
    lemma MissedPage(w: Win, off: nat, n: nat)
      requires pageBytes > 0 && n > 0 && !SpanResident(Cfg(), w, off, n)
      ensures exists x :: off <= x < off + n && PageDown(x, pageBytes) !in w.pageMap
    {
      var k: nat :| off / pageBytes <= k <= (off + n - 1) / pageBytes && PageOff(k, pageBytes) !in w.pageMap;
      PageDownOf(off, pageBytes);
      PageDownOf(off + n - 1, pageBytes);
      OffOrder(k, (off + n - 1) / pageBytes, pageBytes);
      var x := if k == off / pageBytes then off else PageOff(k, pageBytes);
      IndexOf(k, pageBytes, 0);
      if k > off / pageBytes {
        OffOrder(off / pageBytes + 1, k, pageBytes);
        NextOff(off / pageBytes, pageBytes);
      }
      assert PageDown(x, pageBytes) == PageOff(k, pageBytes);
    }

    /**
     `try_copy_resident`: succeeds exactly when every overlapped page is
     resident, then returns the image's bytes for a span of any length, and
     leaves the window as it was either way.
     */
    method TryCopyResident(off: nat, n: nat) returns (r: Option<Bytes>)
      requires Good()
      modifies this`pageMap
      ensures Good() && pageMap == old(pageMap)
      ensures r.Some? <==> SpanResident(Cfg(), Abs(), off, n)
      ensures r.Some? && n > 0 ==> off + n <= |ssd| && r.value == ssd[off..off + n]
      ensures r.Some? && n == 0 ==> r.value == []
    {
      if n == 0 { return Some([]); }
      var whole := PagesResident(off, n);
      if !whole { return None; }
      PageBytes(Cfg(), Abs(), off, n, off);
      var out := CopySpan(off, n);
      return Some(out);
    }

    /** The promote loop over the pages of a span. */
    method PromoteSpanPages(off: nat, len: nat, pin: bool)
      requires Sized() && MapInFrames(Abs()) && nFrames > 0 && len > 0 && SpanInImage(Cfg(), off, len)
      modifies this, arena
      ensures Sized() && MapInFrames(Abs())
      ensures Abs() == PromotePages(Cfg(), old(Abs()), off / pageBytes, (off + len - 1) / pageBytes, pin)
    {
      hide Promote;
      var last := PageDown(off + len - 1, pageBytes);
      var p := PageDown(off, pageBytes);
      PageDownOf(off, pageBytes);
      PageDownOf(off + len - 1, pageBytes);
      ghost var k: nat := off / pageBytes;
      ghost var kLast: nat := (off + len - 1) / pageBytes;
      while p <= last
        invariant Sized() && MapInFrames(Abs()) && p == PageOff(k, pageBytes)
        invariant PromotePages(Cfg(), old(Abs()), off / pageBytes, kLast, pin) == PromotePages(Cfg(), Abs(), k, kLast, pin)
        decreases last + pageBytes - p
      {
        OffOrder(k, kLast, pageBytes);
        NextOff(k, pageBytes);
        var fr := PromotePage(p, pin);
        p := p + pageBytes;
        k := k + 1;
      }
      OffOrder(k, kLast, pageBytes);
    }

    /** Promote and pin every page of a span, within the pin budget. */
    method Pin(off: nat, len: nat, ghost maxFills: nat)
      requires Good() && nFrames > 0 && SpanInImage(Cfg(), off, if len == 0 then 1 else len)
      requires Count(frameFilling) <= maxFills
      requires pinBytesCap + PageOff(maxFills, pageBytes) < PageOff(nFrames, pageBytes)
      modifies this, arena
      ensures Good() && frameFilling == old(frameFilling) && old(pinnedPages) <= pinnedPages
      ensures Abs() == PinnedSpan(Cfg(), old(Abs()), off, len)
      ensures forall j: nat :: off / pageBytes <= j <= (off + (if len == 0 then 1 else len) - 1) / pageBytes ==>
                PageOff(j, pageBytes) in pinnedPages || pinBytesUsed + pageBytes > pinBytesCap
    {
      hide Valid, PromotePages;
      var n := if len == 0 then 1 else len;
      ValidSizes(Cfg(), Abs());
      PinPagesValid(Cfg(), Abs(), off / pageBytes, (off + n - 1) / pageBytes, maxFills);
      PromoteSpanPages(off, n, true);
    }

    /**
     `copy_through`: promote the span, then copy it.  The window stays
     consistent and the copy is the image's bytes exactly when the span is whole
     for the frames the clock is going to hand out.
     */
    method CopyThrough(off: nat, len: nat) returns (dst: Bytes)
      requires Good() && nFrames > 0 && SpanInImage(Cfg(), off, len)
      modifies this, arena
      ensures Sized() && |dst| == len && (len == 0 ==> Good())
      ensures len > 0 ==> (Good() <==> old(SpanWhole(Cfg(), Abs(), off, len)))
      ensures len > 0 && Good() ==> off + len <= |ssd| && dst == ssd[off..off + len]
    {
      hide MapInv, FlagInv, PinInv, SoftInv, BytesInv, PromotePages, SpanWhole;
      if len == 0 { return []; }
      SpanPromoted(Cfg(), Abs(), off, len);
      PromoteSpanPages(off, len, false);
      ghost var v := Abs();
      dst := CopySpan(off, len);
      CopiedSpan(v, Abs());
    }

    /** What the made-up entries of the copy do to consistency. */
    lemma CopiedSpan(v: Win, w: Win)
      requires Shape(Cfg(), v) && w == v.(pageMap := w.pageMap) && MadeUp(v.pageMap, w.pageMap)
      requires Valid(Cfg(), v) || exists q, f :: Stuck(v, q, f)
      ensures Valid(Cfg(), w) <==> Valid(Cfg(), v) && w.pageMap == v.pageMap
    {
      hide Valid, Stuck, MadeUp;
      if !Valid(Cfg(), v) {
        var q, f :| Stuck(v, q, f);
        MadeUpStuck(Cfg(), v, w, q, f);
      } else if w.pageMap != v.pageMap {
        MadeUpInvalid(Cfg(), v, w);
      }
    }

    /** `install_full_pages`: one lock for the whole batch. */
    method InstallFullPages(pages: seq<nat>, hosts: seq<Bytes>, ttl: nat)
      requires Good() && nFrames > 0 && HasIdle(Abs()) && |pages| == |hosts|
      requires forall i :: 0 <= i < |pages| ==> IsPage(Cfg(), pages[i]) && hosts[i] == PageAt(Cfg(), pages[i])
      modifies this, arena
      ensures Good() && framePinned == old(framePinned) && frameFilling == old(frameFilling)
      ensures Abs() == InstallAll(Cfg(), old(Abs()), pages, hosts, ttl)
      ensures FillsUntouched(old(Abs()), Abs())
      ensures forall p :: p in pageMap ==> p in old(pageMap) || p in pages
      ensures pages != [] ==> pages[|pages| - 1] in pageMap
    {
      hide Valid, Install, InstallAll;
      InstallNone(Cfg(), Abs(), ttl);
      assert pages[..0] == [] && hosts[..0] == [];
      for i := 0 to |pages|
        invariant Good() && framePinned == old(framePinned) && frameFilling == old(frameFilling)
        invariant Abs() == InstallAll(Cfg(), old(Abs()), pages[..i], hosts[..i], ttl)
        invariant FillsUntouched(old(Abs()), Abs())
        invariant forall p :: p in pageMap ==> p in old(pageMap) || p in pages
        invariant i > 0 ==> pages[i - 1] in pageMap
      {
        ghost var w := Abs();
        InstallStep(Cfg(), w, pages[i], hosts[i], ttl);
        InstallNext(Cfg(), old(Abs()), pages, hosts, i, ttl);
        InstallFullPage(pages[i], hosts[i], ttl);
      }
      assert pages[..|pages|] == pages && hosts[..|hosts|] == hosts;
    }
  }
}
