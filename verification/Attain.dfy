/**
 When a query's candidates can be read at all: from the image always, from a
 window when the pages they lie on fit its frames, from staging memory when the
 pages issued for them fit the slots.
 */
module Attain {
  import opened Common
  import opened Counting
  import opened PageMath
  import opened BeamSpec
  import opened BeamProofs
  import opened Query
  import opened Seats
  import opened ContBatch
  import W = WindowSpec
  import WP = WindowProofs
  import DW = DramWindows
  import P = PipeSpec
  import PP = PipeProofs
  import HP = HidePipes

  // ------------------------------------------------------------ the image

  /** Scoring straight from the image needs no fetch. */
  lemma ImageAttains(p: Setup, qi: nat)
    requires GoodSetup(p) && qi < |p.asks|
    ensures Attainable(p, Image, qi)
  {
    SerialInRange(p, qi, Serial(p, qi).cand);
    ImageReads(p, qi, Serial(p, qi).cand);
    hide Reads, Serial;
    assert SameKind(Image, Image);
    assert ReadsAll(p, qi, Image);
  }

  lemma ImageReads(p: Setup, qi: nat, cand: seq<Cand>)
    requires GoodSetup(p) && qi < |p.asks| && InRange(p, cand)
    ensures var got := Reads(p, qi, Image, cand); Got(got, |got|)
  {
    var got := Reads(p, qi, Image, cand);
    forall i: nat | i < |cand| ensures got[i].Some? {
      ReadSome(p, qi, Image, cand, i);
    }
  }

  /** A candidate's read comes through when its source yields the bytes. */
  lemma ReadSome(p: Setup, qi: nat, src: Source, cand: seq<Cand>, i: nat)
    requires GoodSetup(p) && qi < |p.asks| && i < |cand| && cand[i].id < |p.vecOff|
    ensures Reads(p, qi, src, cand)[i].Some? <==> ReadFrom(p.cache, src, p.vecOff[cand[i].id], p.vecBytes).Some?
  {
    hide ReadFrom;
    match ReadFrom(p.cache, src, p.vecOff[cand[i].id], p.vecBytes)
    case None => assert Reads(p, qi, src, cand)[i] == None;
    case Some(bytes) => assert Reads(p, qi, src, cand)[i] == Some(p.asks[qi].metric(bytes));
  }

  // ------------------------------------------------------------ a window that holds some pages

  ghost predicate ArePages(c: W.Config, pages: seq<nat>) {
    forall i :: 0 <= i < |pages| ==> W.IsPage(c, pages[i])
  }

  /** Where a page is listed. */
  ghost function PlaceOf(pages: seq<nat>, page: nat): (i: nat)
    requires page in pages
    ensures i < |pages| && pages[i] == page
  {
    var i :| 0 <= i < |pages| && pages[i] == page;
    i
  }

  /** The window with these pages in its first frames and nothing else. */
  ghost function Holding(c: W.Config, pages: seq<nat>): W.Win
    requires ArePages(c, pages) && |pages| <= c.nFrames
  {
    W.Win(map page | page in pages :: PlaceOf(pages, page),
          seq(c.nFrames, i requires 0 <= i < c.nFrames => if i < |pages| then Some(pages[i]) else None),
          seq(c.nFrames, _ => false), seq(c.nFrames, _ => false), seq(c.nFrames, _ => 0), [], {}, 0, 0, 0,
          seq(c.nFrames, i requires 0 <= i < c.nFrames => if i < |pages| then W.PageAt(c, pages[i]) else []))
  }

  lemma HoldingValid(c: W.Config, pages: seq<nat>)
    requires c.pageBytes > 0 && Distinct(pages) && ArePages(c, pages) && |pages| <= c.nFrames
    ensures WP.Valid(c, Holding(c, pages))
    ensures forall page :: page in pages ==> page in Holding(c, pages).pageMap
  {
    var w := Holding(c, pages);
    CountBound(w.pinned);
    CountBound(WP.SoftFlags(w.ttl));
    forall page | page in w.pageMap ensures W.IsPage(c, page) { assert pages[PlaceOf(pages, page)] == page; }
  }

  /** Some consistent window holds them all exactly when they fit its frames and lie whole in the image. */
  lemma HoldsIff(c: W.Config, pages: seq<nat>)
    requires c.pageBytes > 0 && Distinct(pages)
    ensures (exists w: W.Win :: WP.Valid(c, w) && forall page :: page in pages ==> page in w.pageMap) <==>
            |pages| <= c.nFrames && ArePages(c, pages)
  {
    if |pages| <= c.nFrames && ArePages(c, pages) {
      HoldingValid(c, pages);
    }
    if w: W.Win :| WP.Valid(c, w) && forall page :: page in pages ==> page in w.pageMap {
      FitsFrames(c, w, pages);
    }
  }

  lemma FitsFrames(c: W.Config, w: W.Win, pages: seq<nat>)
    requires WP.Valid(c, w) && Distinct(pages) && forall page :: page in pages ==> page in w.pageMap
    ensures |pages| <= c.nFrames && ArePages(c, pages)
  {
    var frs := seq(|pages|, i requires 0 <= i < |pages| => w.pageMap[pages[i]]);
    forall i, j | 0 <= i < j < |frs| ensures frs[i] != frs[j] {
      assert w.key[frs[i]] == Some(pages[i]) && w.key[frs[j]] == Some(pages[j]);
    }
    DistinctBound(frs, c.nFrames);
  }

  // ------------------------------------------------------------ the pages a span lies on

  /** The pages that the bytes [off, off + n) touch, in order. */
  function SpanPages(pb: nat, off: nat, n: nat): (r: seq<nat>)
    requires pb > 0 && n > 0
  {
    SpanCount(pb, off, n);
    seq<nat>((off + n - 1) / pb - off / pb + 1, i requires 0 <= i < (off + n - 1) / pb - off / pb + 1 => PageOff(off / pb + i, pb))
  }

  lemma SpanCount(pb: nat, off: nat, n: nat)
    requires pb > 0 && n > 0
    ensures off / pb <= (off + n - 1) / pb
  {
    DivBetween(off, off, off + n - 1, pb);
  }

  lemma SpanPagesAre(pb: nat, off: nat, n: nat)
    requires pb > 0 && n > 0
    ensures forall page :: page in SpanPages(pb, off, n) <==> exists k: nat :: off / pb <= k <= (off + n - 1) / pb && PageOff(k, pb) == page
    ensures Distinct(SpanPages(pb, off, n))
  {
    SpanCount(pb, off, n);
    var r := SpanPages(pb, off, n);
    var lo, hi := off / pb, (off + n - 1) / pb;
    forall page ensures page in r <==> exists k: nat :: lo <= k <= hi && PageOff(k, pb) == page {
      if page in r {
        var i :| 0 <= i < |r| && r[i] == page;
        assert PageOff(lo + i, pb) == page;
      }
      if k: nat :| lo <= k <= hi && PageOff(k, pb) == page { assert r[k - lo] == page; }
    }
    forall i, j | 0 <= i < j < |r| ensures r[i] != r[j] { OffOrder(lo + i, lo + j, pb); }
  }

  lemma SpanResidentIs(c: W.Config, w: W.Win, off: nat, n: nat)
    requires c.pageBytes > 0 && n > 0
    ensures DW.SpanResident(c, w, off, n) <==> forall page :: page in SpanPages(c.pageBytes, off, n) ==> page in w.pageMap
  {
    SpanPagesAre(c.pageBytes, off, n);
    hide SpanPages;
    if forall page :: page in SpanPages(c.pageBytes, off, n) ==> page in w.pageMap {
      forall k: nat | off / c.pageBytes <= k <= (off + n - 1) / c.pageBytes ensures PageOff(k, c.pageBytes) in w.pageMap {
        assert PageOff(k, c.pageBytes) in SpanPages(c.pageBytes, off, n);
      }
    }
  }

  // ------------------------------------------------------------ a query's pages

  /** The pages its candidates' vectors lie on, each once. */
  ghost function PagesOf(p: Setup, cand: seq<Cand>): (r: seq<nat>)
    requires GoodSetup(p) && InRange(p, cand)
  {
    ContBatch.Unique(AllSpans(p, cand))
  }

  ghost function AllSpans(p: Setup, cand: seq<Cand>): (r: seq<nat>)
    requires GoodSetup(p) && InRange(p, cand)
  {
    if cand == [] then []
    else AllSpans(p, cand[..|cand| - 1]) + SpanPages(p.cache.pageBytes, p.vecOff[cand[|cand| - 1].id], p.vecBytes)
  }

  lemma {:induction false} InSpans(p: Setup, cand: seq<Cand>, page: nat)
    requires GoodSetup(p) && InRange(p, cand)
    ensures page in AllSpans(p, cand) <==> exists i :: 0 <= i < |cand| && page in SpanPages(p.cache.pageBytes, p.vecOff[cand[i].id], p.vecBytes)
  {
    assert p.cache.pageBytes > 0 && p.vecBytes > 0 && |cand| == |cand|;
    hide GoodSetup, SpanPages;
    if cand != [] {
      var init := cand[..|cand| - 1];
      InSpans(p, init, page);
      if page in AllSpans(p, init) {
        var i :| 0 <= i < |init| && page in SpanPages(p.cache.pageBytes, p.vecOff[init[i].id], p.vecBytes);
        assert cand[i] == init[i];
      }
      if i :| 0 <= i < |cand| && page in SpanPages(p.cache.pageBytes, p.vecOff[cand[i].id], p.vecBytes) {
        if i < |init| { assert init[i] == cand[i]; }
      }
    }
  }

  /** Every candidate can be read out of a window just when it holds all their pages. */
  lemma WindowReads(p: Setup, qi: nat, w: W.Win)
    requires GoodSetup(p) && qi < |p.asks|
    ensures var cand := Serial(p, qi).cand;
      InRange(p, cand) && (ReadsAll(p, qi, Windowed(w)) <==> WP.Valid(p.cache, w) && forall page :: page in PagesOf(p, cand) ==> page in w.pageMap)
  {
    var cand := Serial(p, qi).cand;
    SerialInRange(p, qi, cand);
    hide Serial, WP.Valid, Reads, PagesOf, SpanPages;
    var got := Reads(p, qi, Windowed(w), cand);
    forall i: nat | i < |cand| ensures Held(p, w, cand, i) <==> got[i].Some? { WindowRead(p, qi, w, cand, i); }
    SpansHeld(p, cand, got, w);
  }

  /** All pages of one candidate's vector are resident. */
  ghost predicate Held(p: Setup, w: W.Win, cand: seq<Cand>, i: nat)
    requires GoodSetup(p) && InRange(p, cand) && i < |cand|
  {
    forall page :: page in SpanPages(p.cache.pageBytes, p.vecOff[cand[i].id], p.vecBytes) ==> page in w.pageMap
  }

  lemma WindowRead(p: Setup, qi: nat, w: W.Win, cand: seq<Cand>, i: nat)
    requires GoodSetup(p) && qi < |p.asks| && InRange(p, cand) && i < |cand|
    ensures Held(p, w, cand, i) <==> Reads(p, qi, Windowed(w), cand)[i].Some?
  {
    SpanResidentIs(p.cache, w, p.vecOff[cand[i].id], p.vecBytes);
    ReadSome(p, qi, Windowed(w), cand, i);
    hide SpanPages, DW.SpanResident, Reads;
  }

  lemma SpansHeld(p: Setup, cand: seq<Cand>, got: seq<Option<real>>, w: W.Win)
    requires GoodSetup(p) && InRange(p, cand) && |got| == |cand|
    requires forall i: nat :: i < |cand| ==> (Held(p, w, cand, i) <==> got[i].Some?)
    ensures Got(got, |got|) <==> forall page :: page in PagesOf(p, cand) ==> page in w.pageMap
  {
    assert p.cache.pageBytes > 0 && p.vecBytes > 0;
    forall page ensures page in PagesOf(p, cand) <==> page in AllSpans(p, cand) {}
    hide GoodSetup, SpanPages, AllSpans, PagesOf;
    if Got(got, |got|) {
      forall page | page in AllSpans(p, cand) ensures page in w.pageMap {
        InSpans(p, cand, page);
        var i: nat :| i < |cand| && page in SpanPages(p.cache.pageBytes, p.vecOff[cand[i].id], p.vecBytes);
        assert got[i].Some? && Held(p, w, cand, i);
      }
    }
    if forall page :: page in AllSpans(p, cand) ==> page in w.pageMap {
      forall i: nat | i < |got| ensures got[i].Some? {
        forall page | page in SpanPages(p.cache.pageBytes, p.vecOff[cand[i].id], p.vecBytes) ensures page in w.pageMap { InSpans(p, cand, page); }
        assert Held(p, w, cand, i);
      }
    }
  }

  /** A thread scoring from its window can read all candidates of a query at once exactly when their pages fit its frames and lie whole in the image. */
  lemma WindowAttainsIff(p: Setup, src: Source, qi: nat)
    requires GoodSetup(p) && qi < |p.asks| && src.Windowed?
    ensures var cand := Serial(p, qi).cand;
      InRange(p, cand) && (Attainable(p, src, qi) <==> |PagesOf(p, cand)| <= p.cache.nFrames && ArePages(p.cache, PagesOf(p, cand)))
  {
    var cand := Serial(p, qi).cand;
    SerialInRange(p, qi, cand);
    var pages := PagesOf(p, cand);
    HoldsIff(p.cache, pages);
    hide Serial, WP.Valid, ReadsAll, PagesOf, ArePages;
    if Attainable(p, src, qi) {
      var to :| SameKind(src, to) && ReadsAll(p, qi, to);
      WindowReads(p, qi, to.win);
      assert WP.Valid(p.cache, to.win) && forall page :: page in pages ==> page in to.win.pageMap;
    }
    if |pages| <= p.cache.nFrames && ArePages(p.cache, pages) {
      var w: W.Win :| WP.Valid(p.cache, w) && forall page :: page in pages ==> page in w.pageMap;
      WindowReads(p, qi, w);
      assert SameKind(src, Windowed(w)) && ReadsAll(p, qi, Windowed(w));
    }
  }

  // ------------------------------------------------------------ staging memory

  /** Slot `s` of a pipe whose fills of `need`, 1024 pages a slot, have all arrived. */
  ghost function FullSlot(c: W.Config, need: seq<nat>, s: nat): P.Slot
    requires ArePages(c, need)
  {
    var lo := Min(P.MAX_PAGES * s, |need|);
    var hi := Min(P.MAX_PAGES * (s + 1), |need|);
    var pages := need[lo..hi];
    P.Slot(pages, seq(|pages|, i requires 0 <= i < |pages| => PageOrEmpty(c, pages[i])), [],
           seq(|pages|, _ => true), seq(|pages|, _ => false), 0, 0, pages != [], false, 1)
  }

  ghost function PageOrEmpty(c: W.Config, page: nat): W.Bytes {
    if page + c.pageBytes <= |c.ssd| then W.PageAt(c, page) else []
  }

  ghost function Arrived(c: W.Config, need: seq<nat>): P.Pipe
    requires ArePages(c, need)
  {
    P.Pipe(seq(P.SLOTS, s requires 0 <= s < P.SLOTS => FullSlot(c, need, s)), map[], 0, 2, map[], Holding(c, []))
  }

  lemma FullSlotOk(c: W.Config, need: seq<nat>, s: nat)
    requires ArePages(c, need)
    ensures PP.SlotOk(c, P.Bounce, FullSlot(c, need, s))
  {
    var sl := FullSlot(c, need, s);
    CountNone(|sl.pages|);
    forall i | 0 <= i < |sl.pages| ensures W.IsPage(c, sl.pages[i]) {
      assert sl.pages[i] == need[Min(P.MAX_PAGES * s, |need|) + i];
    }
  }

  lemma ArrivedKeeps(c: W.Config, need: seq<nat>)
    requires c.pageBytes > 0 && ArePages(c, need)
    ensures PP.PipeInv(c, P.Bounce, Arrived(c, need))
  {
    var pipe := Arrived(c, need);
    HoldingValid(c, []);
    forall s | 0 <= s < P.SLOTS ensures PP.SlotOk(c, P.Bounce, pipe.slots[s]) { FullSlotOk(c, need, s); }
    hide WP.Valid, PP.SlotOk;
    forall s: nat, i: nat | P.Entry(pipe, s, i) ensures !pipe.slots[s].direct && i < |pipe.slots[s].ready| && pipe.slots[s].ready[i] {}
    assert forall f :: 0 <= f < c.nFrames ==> !pipe.win.filling[f];
  }

  /** Entry `(s, i)` of that pipe is page `1024 s + i` of the list. */
  lemma ArrivedEntry(c: W.Config, need: seq<nat>, s: nat, i: nat)
    requires ArePages(c, need) && P.Entry(Arrived(c, need), s, i)
    ensures P.MAX_PAGES * s + i < |need| && i < P.MAX_PAGES && Arrived(c, need).slots[s].pages[i] == need[P.MAX_PAGES * s + i]
  {}

  lemma ArrivedNoDup(c: W.Config, need: seq<nat>)
    requires ArePages(c, need) && Distinct(need)
    ensures HP.NoDup(Arrived(c, need))
  {
    var pipe := Arrived(c, need);
    forall s: nat, i: nat, t: nat, j: nat | P.Entry(pipe, s, i) && P.Entry(pipe, t, j) && (s, i) != (t, j)
      ensures pipe.slots[s].pages[i] != pipe.slots[t].pages[j]
    {
      ArrivedEntry(c, need, s, i);
      ArrivedEntry(c, need, t, j);
      hide *;
      OtherPlace(s, i, t, j);
      if P.MAX_PAGES * s + i < P.MAX_PAGES * t + j { DistinctAt(need, P.MAX_PAGES * s + i, P.MAX_PAGES * t + j); }
      else { DistinctAt(need, P.MAX_PAGES * t + j, P.MAX_PAGES * s + i); }
    }
  }

  lemma OtherPlace(s: nat, i: nat, t: nat, j: nat)
    requires i < P.MAX_PAGES && j < P.MAX_PAGES && (s, i) != (t, j)
    ensures P.MAX_PAGES * s + i != P.MAX_PAGES * t + j
  {}

  lemma DistinctAt(s: seq<nat>, i: nat, j: nat)
    requires Distinct(s) && i < j < |s|
    ensures s[i] != s[j]
  {}

  lemma ArrivedAt(c: W.Config, need: seq<nat>, x: nat) returns (s: nat, i: nat)
    requires ArePages(c, need) && |need| <= P.SLOTS * P.MAX_PAGES && x < |need|
    ensures var pipe := Arrived(c, need);
      PP.EntryReady(pipe, s, i) && pipe.slots[s].pages[i] == need[x] && StagedAt(pipe, need[x], s, i)
  {
    s, i := x / P.MAX_PAGES, x % P.MAX_PAGES;
    assert P.MAX_PAGES * s <= x < P.MAX_PAGES * (s + 1) && s < P.SLOTS;
    var sl := FullSlot(c, need, s);
    assert sl.pages[i] == need[P.MAX_PAGES * s + i];
  }

  /** Everything issued for the query has arrived, and covers all it touches. */
  lemma ArrivedReads(p: Setup, qi: nat)
    requires GoodSetup(p) && qi < |p.asks| && PagesListed(p)
    requires var need := NeedOf(p, Serial(p, qi).cand); ArePages(p.cache, need) && |need| <= P.SLOTS * P.MAX_PAGES
    ensures ReadsAll(p, qi, Staged(Arrived(p.cache, NeedOf(p, Serial(p, qi).cand))))
  {
    var cand := Serial(p, qi).cand;
    var need := NeedOf(p, cand);
    var pipe := Arrived(p.cache, need);
    SerialInRange(p, qi, cand);
    ArrivedKeeps(p.cache, need);
    ArrivedNoDup(p.cache, need);
    hide Serial, PP.PipeInv, HP.NoDup, Arrived, NeedOf, HasStaging, HP.Raised, Reads, ReadStaged, PagesListed;
    forall page | page in need ensures HP.Raised(pipe, page) && HasStaging(pipe, page) { ArrivedPage(p.cache, need, page); }
    var got := Reads(p, qi, Staged(pipe), cand);
    forall i: nat | i < |cand| ensures got[i].Some? {
      StagedReads(p, cand, i, pipe);
      StagedRead(p, qi, pipe, cand, i);
    }
  }

  lemma ArrivedPage(c: W.Config, need: seq<nat>, page: nat)
    requires ArePages(c, need) && |need| <= P.SLOTS * P.MAX_PAGES && page in need
    ensures HP.Raised(Arrived(c, need), page) && HasStaging(Arrived(c, need), page)
  {
    var x: nat :| x < |need| && need[x] == page;
    var s, i := ArrivedAt(c, need, x);
    hide Arrived;
  }

  lemma StagedRead(p: Setup, qi: nat, pipe: P.Pipe, cand: seq<Cand>, i: nat)
    requires GoodSetup(p) && qi < |p.asks| && i < |cand| && cand[i].id < |p.vecOff|
    requires ReadStaged(p.cache, pipe, p.vecOff[cand[i].id], p.vecBytes).Some?
    ensures Reads(p, qi, Staged(pipe), cand)[i].Some?
  {
    ReadSome(p, qi, Staged(pipe), cand, i);
    hide ReadStaged, Reads;
  }

  lemma StagedReads(p: Setup, cand: seq<Cand>, i: nat, pipe: P.Pipe)
    requires GoodSetup(p) && PagesListed(p) && i < |cand| && cand[i].id < |p.vecOff|
    requires forall page :: page in NeedOf(p, cand) ==> HasStaging(pipe, page)
    ensures ReadStaged(p.cache, pipe, p.vecOff[cand[i].id], p.vecBytes).Some?
  {
    hide NeedOf, HasStaging, StagedByte;
    var id := cand[i].id;
    assert SpanListed(p.cache.pageBytes, p.vecOff[id], p.vecBytes, p.pages[id]);
    forall k: nat | p.vecOff[id] / p.cache.pageBytes <= k <= (p.vecOff[id] + p.vecBytes - 1) / p.cache.pageBytes
      ensures HasStaging(pipe, PageOff(k, p.cache.pageBytes))
    {
      ListedNeeded(p, cand, i, PageOff(k, p.cache.pageBytes));
    }
  }

  /** Raised pages sit in different places of 32 slots of at most 1024. */
  lemma FitsSlots(c: W.Config, pipe: P.Pipe, need: seq<nat>)
    requires PP.PipeInv(c, P.Bounce, pipe) && Distinct(need) && forall page :: page in need ==> HP.Raised(pipe, page)
    ensures |need| <= P.SLOTS * P.MAX_PAGES && ArePages(c, need)
  {
    hide WP.Valid, PP.OwnersOk, PP.JobsOk, PP.Progress;
    var places := seq(|need|, x requires 0 <= x < |need| => RaisedPlace(pipe, need[x]));
    forall x | 0 <= x < |need| ensures places[x] < P.SLOTS * P.MAX_PAGES && W.IsPage(c, need[x]) { PlaceBound(c, pipe, need[x]); }
    forall x, y | 0 <= x < y < |places| ensures places[x] != places[y] {
      PlaceBound(c, pipe, need[x]);
      PlaceBound(c, pipe, need[y]);
    }
    hide PP.PipeInv, RaisedPlace;
    DistinctBound(places, P.SLOTS * P.MAX_PAGES);
  }

  ghost function RaisedPlace(pipe: P.Pipe, page: nat): nat {
    if HP.Raised(pipe, page) then
      var s: nat, i: nat :| PP.EntryReady(pipe, s, i) && pipe.slots[s].pages[i] == page;
      P.MAX_PAGES * s + i
    else 0
  }

  /** The place tells the page. */
  lemma PlaceBound(c: W.Config, pipe: P.Pipe, page: nat)
    requires PP.PipeInv(c, P.Bounce, pipe) && HP.Raised(pipe, page)
    ensures RaisedPlace(pipe, page) < P.SLOTS * P.MAX_PAGES && W.IsPage(c, page)
    ensures var x := RaisedPlace(pipe, page); x / P.MAX_PAGES < |pipe.slots| && x % P.MAX_PAGES < |pipe.slots[x / P.MAX_PAGES].pages|
    ensures var x := RaisedPlace(pipe, page); pipe.slots[x / P.MAX_PAGES].pages[x % P.MAX_PAGES] == page
  {
    hide WP.Valid, PP.OwnersOk, PP.JobsOk, PP.Progress;
    forall s: nat, i: nat | PP.EntryReady(pipe, s, i) && pipe.slots[s].pages[i] == page
      ensures s < P.SLOTS && i < P.MAX_PAGES && (P.MAX_PAGES * s + i) / P.MAX_PAGES == s && (P.MAX_PAGES * s + i) % P.MAX_PAGES == i && W.IsPage(c, page)
    {
      assert PP.SlotOk(c, P.Bounce, pipe.slots[s]);
    }
  }

  /** A thread scoring from staged fills can read a query's candidates exactly when the pages issued for them are whole pages and fit 32 slots of 1024, and are all the pages their vectors touch. */
  lemma StagedAttainsIff(p: Setup, src: Source, qi: nat)
    requires GoodSetup(p) && qi < |p.asks| && src.Staged?
    ensures var need := NeedOf(p, Serial(p, qi).cand);
      Attainable(p, src, qi) <==> PagesListed(p) && |need| <= P.SLOTS * P.MAX_PAGES && ArePages(p.cache, need)
  {
    var need := NeedOf(p, Serial(p, qi).cand);
    if Attainable(p, src, qi) {
      var to :| SameKind(src, to) && ReadsAll(p, qi, to);
      StagedFacts(p, qi, to);
      FitsSlots(p.cache, to.pipe, need);
    }
    if PagesListed(p) && |need| <= P.SLOTS * P.MAX_PAGES && ArePages(p.cache, need) {
      ArrivedReads(p, qi);
      hide ReadsAll, Arrived;
      assert SameKind(src, Staged(Arrived(p.cache, need))) && ReadsAll(p, qi, Staged(Arrived(p.cache, need)));
    }
  }

  lemma StagedFacts(p: Setup, qi: nat, to: Source)
    requires GoodSetup(p) && qi < |p.asks| && to.Staged? && ReadsAll(p, qi, to)
    ensures PagesListed(p) && PP.PipeInv(p.cache, P.Bounce, to.pipe)
    ensures forall page :: page in NeedOf(p, Serial(p, qi).cand) ==> HP.Raised(to.pipe, page)
  {
    hide PP.PipeInv, HP.Raised, HP.NoDup, Serial, NeedOf;
  }

  /** One vector can be in some consistent window, whole, exactly when its pages fit the frames and lie whole in the image. */
  lemma SpanHeldIff(c: W.Config, off: nat, n: nat)
    requires c.pageBytes > 0 && n > 0
    ensures (exists w: W.Win :: WP.Valid(c, w) && DW.SpanResident(c, w, off, n)) <==>
            |SpanPages(c.pageBytes, off, n)| <= c.nFrames && ArePages(c, SpanPages(c.pageBytes, off, n))
  {
    var pages := SpanPages(c.pageBytes, off, n);
    SpanPagesAre(c.pageBytes, off, n);
    HoldsIff(c, pages);
    hide WP.Valid, DW.SpanResident, SpanPages;
    forall w: W.Win ensures DW.SpanResident(c, w, off, n) <==> forall page :: page in pages ==> page in w.pageMap { SpanResidentIs(c, w, off, n); }
  }
}
