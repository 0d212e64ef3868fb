/**
 A query parked on a seat (`PqQ` in serving/search_beam.cpp) on values, shared
 by the schedulers: admission, beam, page issue, rank attempts out of a page
 window or out of staged fills, and the answer.
 */
module Seats {
  import opened Common
  import opened BeamSpec
  import opened BeamProofs
  import opened Query
  import opened ContBatch
  import opened PageMath
  import W = WindowSpec
  import WP = WindowProofs
  import DW = DramWindows
  import P = PipeSpec
  import PP = PipeProofs
  import HP = HidePipes

  /** One query: the graph and PQ distances it sees, where it starts, and how it scores a vector's bytes. */
  datatype Ask = Ask(index: Index, entry: nat, metric: W.Bytes -> real)

  /** What a run fixes.  `vecOff` and `pages` say where each id's vector lies and which pages are issued for it. */
  datatype Setup = Setup(asks: seq<Ask>, limit: nat, iters: nat, k: nat,
                         cache: W.Config, vecOff: seq<nat>, vecBytes: nat, pages: seq<seq<nat>>)

  datatype Seat = Seat(st: CbSt, qi: nat, q: State, need: seq<nat>, toks: seq<nat>, held: bool)

  function EmptySeat(): Seat {
    Seat(Empty, 0, State([], {}, {}, 0), [], [], false)
  }

  ghost predicate GoodSetup(p: Setup) {
    && p.limit > 0 && p.cache.pageBytes > 0 && p.vecBytes > 0
    && |p.pages| == |p.vecOff|
    && (forall id :: 0 <= id < |p.pages| ==> p.pages[id] != [])
    && (forall id :: 0 <= id < |p.vecOff| ==> p.vecOff[id] + p.vecBytes <= |p.cache.ssd|)
    && (forall i :: 0 <= i < |p.asks| ==> p.asks[i].entry < |p.asks[i].index.rows| == |p.vecOff|)
  }

  /** The full-precision score of every id, from the bytes the image holds for it. */
  ghost function Score(p: Setup, qi: nat): (r: seq<real>)
    requires GoodSetup(p) && qi < |p.asks|
    ensures |r| == |p.vecOff|
  {
    seq(|p.vecOff|, id requires 0 <= id < |p.vecOff| =>
      p.asks[qi].metric(p.cache.ssd[p.vecOff[id]..p.vecOff[id] + p.vecBytes]))
  }

  /** The beam run straight through for one query. */
  ghost function Serial(p: Setup, qi: nat): (r: State)
    requires GoodSetup(p) && qi < |p.asks|
    ensures BeamInv(p.asks[qi].index, p.limit, r)
  {
    var a := p.asks[qi];
    InitKeeps(a.index, p.limit, a.entry);
    BeamResult(a.index, p.limit, p.iters, Init(a.index, p.limit, a.entry));
    Beam(a.index, p.limit, p.iters, Init(a.index, p.limit, a.entry))
  }

  ghost predicate InRange(p: Setup, cand: seq<Cand>) {
    forall i :: 0 <= i < |cand| ==> cand[i].id < |p.vecOff|
  }

  lemma SerialInRange(p: Setup, qi: nat, cand: seq<Cand>)
    requires GoodSetup(p) && qi < |p.asks| && Ids(cand) == Ids(Serial(p, qi).cand)
    ensures InRange(p, cand) && DistinctIds(cand)
  {
    var s := Serial(p, qi).cand;
    assert |cand| == |Ids(cand)| && |s| == |Ids(s)|;
    assert forall i :: 0 <= i < |cand| ==> cand[i].id == Ids(cand)[i] == s[i].id;
  }

  /** `out` is a k-prefix of the serial beam's candidates in full-precision order. */
  ghost predicate Answer(p: Setup, qi: nat, out: seq<nat>)
    requires GoodSetup(p) && qi < |p.asks|
  {
    SerialInRange(p, qi, Serial(p, qi).cand);
    KPrefix(Score(p, qi), Ids(Serial(p, qi).cand), p.k, out)
  }

  // ------------------------------------------------------------ the seat's steps

  /** `pqq_init` and `pqq_beam`. */
  ghost function Admitted(p: Setup, qi: nat): Seat
    requires GoodSetup(p) && qi < |p.asks|
  {
    Seat(Ready, qi, Serial(p, qi), [], [], false)
  }

  /** The pages of the candidates' vectors, first mentions in candidate order. */
  function NeedOf(p: Setup, cand: seq<Cand>): seq<nat> {
    ContBatch.Unique(AllPages(p, cand))
  }

  function AllPages(p: Setup, cand: seq<Cand>): seq<nat> {
    if cand == [] then []
    else
      var id := cand[|cand| - 1].id;
      AllPages(p, cand[..|cand| - 1]) + (if id < |p.pages| then p.pages[id] else [])
  }

  lemma {:induction false} NeedEmpty(p: Setup, cand: seq<Cand>)
    requires GoodSetup(p) && InRange(p, cand)
    ensures NeedOf(p, cand) == [] <==> cand == []
  {
    if cand != [] {
      var id := cand[|cand| - 1].id;
      assert p.pages[id][0] in AllPages(p, cand);
      assert p.pages[id][0] in NeedOf(p, cand);
    }
  }

  lemma {:induction false} SameIdsSameNeed(p: Setup, a: seq<Cand>, b: seq<Cand>)
    requires Ids(a) == Ids(b)
    ensures NeedOf(p, a) == NeedOf(p, b)
  {
    SameIdsSamePages(p, a, b);
  }

  lemma {:induction false} SameIdsSamePages(p: Setup, a: seq<Cand>, b: seq<Cand>)
    requires Ids(a) == Ids(b)
    ensures AllPages(p, a) == AllPages(p, b)
  {
    assert |a| == |Ids(a)| && |b| == |Ids(b)|;
    if a != [] {
      var n := |a| - 1;
      assert Ids(a)[n] == a[n].id && Ids(b)[n] == b[n].id;
      assert Ids(a[..n]) == Ids(a)[..n] && Ids(b[..n]) == Ids(b)[..n];
      SameIdsSamePages(p, a[..n], b[..n]);
    }
  }

  /** `pqq_issue`: a token when a slot took the pages.  A Busy seat stays Busy. */
  function Issued(p: Setup, s: Seat, tok: Option<nat>): Seat {
    var need := NeedOf(p, s.q.cand);
    s.(need := need,
       toks := if tok.Some? then s.toks + [tok.value] else s.toks,
       st := if s.st.Busy? then Busy else if need == [] then Ready else Wait)
  }

  /** The byte of the window for offset `x` of the image. */
  ghost function ByteAt(c: W.Config, w: W.Win, x: nat): bv8
    requires c.pageBytes > 0
  {
    var po := PageDown(x, c.pageBytes);
    if po in w.pageMap && w.pageMap[po] < |w.frames| && x - po < |w.frames[w.pageMap[po]]|
    then w.frames[w.pageMap[po]][x - po] else 0
  }

  /** A span copied out of a window, when every page it touches is resident. */
  ghost function ReadSpan(c: W.Config, w: W.Win, off: nat, n: nat): Option<W.Bytes>
    requires c.pageBytes > 0
  {
    if DW.SpanResident(c, w, off, n) then Some(seq(n, i requires 0 <= i < n => ByteAt(c, w, off + i))) else None
  }

  lemma ByteIsImage(c: W.Config, w: W.Win, off: nat, n: nat, x: nat)
    requires WP.Valid(c, w) && DW.SpanResident(c, w, off, n) && off <= x < off + n
    ensures x < |c.ssd| && ByteAt(c, w, x) == c.ssd[x]
  {
    DW.PageBytes(c, w, off, n, x);
  }

  /** A window that keeps its invariant reads the image. */
  lemma ReadIsImage(c: W.Config, w: W.Win, off: nat, n: nat)
    requires WP.Valid(c, w) && n > 0 && DW.SpanResident(c, w, off, n)
    ensures off + n <= |c.ssd| && ReadSpan(c, w, off, n) == Some(c.ssd[off..off + n])
  {
    DW.SpanFits(c, w, off, n);
    forall x | off <= x < off + n ensures x < |c.ssd| && ByteAt(c, w, x) == c.ssd[x] {
      ByteIsImage(c, w, off, n, x);
    }
    hide ByteAt, DW.SpanResident, WP.Valid;
    assert seq(n, i requires 0 <= i < n => ByteAt(c, w, off + i)) == c.ssd[off..off + n];
  }

  // ------------------------------------------------------------ what a thread scores from

  /** A thread's page window, its fills in staging memory (`bounce`), or the image itself (`vmem`). */
  datatype Source = Windowed(win: W.Win) | Staged(pipe: P.Pipe) | Image

  /** What a thread scores from changes, how it does so does not. */
  predicate SameKind(a: Source, b: Source) {
    a.Windowed? == b.Windowed? && a.Staged? == b.Staged?
  }

  /** Each keeps its invariant; staged scoring reads the pages issued for a vector, which are all it touches. */
  ghost predicate Readable(p: Setup, src: Source)
    requires GoodSetup(p)
  {
    match src
    case Windowed(w) => WP.Valid(p.cache, w)
    case Staged(pipe) => PP.PipeInv(p.cache, P.Bounce, pipe) && HP.NoDup(pipe) && PagesListed(p)
    case Image => true
  }

  /** `hide_collect_vec_pages` lists every page a vector touches. */
  ghost predicate PagesListed(p: Setup)
    requires GoodSetup(p)
  {
    |p.pages| == |p.vecOff| && forall id: nat :: id < |p.vecOff| ==> SpanListed(p.cache.pageBytes, p.vecOff[id], p.vecBytes, p.pages[id])
  }

  ghost predicate SpanListed(pb: nat, off: nat, n: nat, pages: seq<nat>)
    requires pb > 0 && n > 0
  {
    forall k: nat :: off / pb <= k <= (off + n - 1) / pb ==> PageOff(k, pb) in pages
  }

  /** The covering test, as far as scoring depends on it: staged pages have their flags up. */
  ghost predicate Covering(src: Source, need: seq<nat>) {
    src.Staged? ==> forall page :: page in need ==> HP.Raised(src.pipe, page)
  }

  /** `bounce_page`: an active slot lists the page and has staging memory for it, ready or not. */
  ghost predicate StagedAt(pipe: P.Pipe, page: nat, s: nat, i: nat) {
    P.Entry(pipe, s, i) && pipe.slots[s].pages[i] == page && i < |pipe.slots[s].host|
  }

  ghost predicate HasStaging(pipe: P.Pipe, page: nat) {
    exists s: nat, i: nat :: StagedAt(pipe, page, s, i)
  }

  ghost function StagedByte(c: W.Config, pipe: P.Pipe, x: nat): bv8
    requires c.pageBytes > 0
  {
    var po := PageDown(x, c.pageBytes);
    if HasStaging(pipe, po) then
      var s: nat, i: nat :| StagedAt(pipe, po, s, i);
      if po <= x && x - po < |pipe.slots[s].host[i]| then pipe.slots[s].host[i][x - po] else 0
    else 0
  }

  /** A span copied out of staging memory, when every page it touches is in flight. */
  ghost function ReadStaged(c: W.Config, pipe: P.Pipe, off: nat, n: nat): Option<W.Bytes>
    requires c.pageBytes > 0 && n > 0
  {
    if forall k: nat :: off / c.pageBytes <= k <= (off + n - 1) / c.pageBytes ==> HasStaging(pipe, PageOff(k, c.pageBytes))
    then Some(seq(n, i requires 0 <= i < n => StagedByte(c, pipe, off + i))) else None
  }

  ghost function ReadFrom(c: W.Config, src: Source, off: nat, n: nat): Option<W.Bytes>
    requires c.pageBytes > 0 && n > 0
  {
    match src
    case Windowed(w) => ReadSpan(c, w, off, n)
    case Staged(pipe) => ReadStaged(c, pipe, off, n)
    case Image => if off + n <= |c.ssd| then Some(c.ssd[off..off + n]) else None
  }

  /** A page with its flag up is staged in one place, with the image's bytes. */
  lemma RaisedIsImage(c: W.Config, pipe: P.Pipe, page: nat, s: nat, i: nat)
    requires PP.PipeInv(c, P.Bounce, pipe) && HP.NoDup(pipe) && HP.Raised(pipe, page) && StagedAt(pipe, page, s, i)
    ensures W.IsPage(c, page) && pipe.slots[s].host[i] == W.PageAt(c, page)
  {
    hide WP.Valid, PP.OwnersOk, PP.JobsOk, PP.Progress;
    var t: nat, j: nat :| PP.EntryReady(pipe, t, j) && pipe.slots[t].pages[j] == page;
    assert (s, i) == (t, j);
    assert PP.SlotOk(c, P.Bounce, pipe.slots[s]);
  }

  lemma StagedByteIsImage(c: W.Config, pipe: P.Pipe, x: nat)
    requires PP.PipeInv(c, P.Bounce, pipe) && HP.NoDup(pipe) && c.pageBytes > 0 && x < |c.ssd|
    requires HP.Raised(pipe, PageDown(x, c.pageBytes)) && HasStaging(pipe, PageDown(x, c.pageBytes))
    ensures StagedByte(c, pipe, x) == c.ssd[x]
  {
    hide PP.PipeInv, HP.NoDup, HP.Raised, StagedAt, P.Entry;
    var po := PageDown(x, c.pageBytes);
    PageDownOf(x, c.pageBytes);
    forall s: nat, i: nat | StagedAt(pipe, po, s, i) ensures s < |pipe.slots| && i < |pipe.slots[s].host| && po + c.pageBytes <= |c.ssd| && pipe.slots[s].host[i] == W.PageAt(c, po) {
      StagedSlot(pipe, po, s, i);
      RaisedIsImage(c, pipe, po, s, i);
    }
  }

  lemma StagedSlot(pipe: P.Pipe, page: nat, s: nat, i: nat)
    requires StagedAt(pipe, page, s, i)
    ensures s < |pipe.slots| && i < |pipe.slots[s].host|
  {}

  /** Covered staging reads the image. */
  lemma StagedIsImage(c: W.Config, pipe: P.Pipe, off: nat, n: nat, pages: seq<nat>)
    requires PP.PipeInv(c, P.Bounce, pipe) && HP.NoDup(pipe) && c.pageBytes > 0 && n > 0 && off + n <= |c.ssd|
    requires SpanListed(c.pageBytes, off, n, pages) && Covering(Staged(pipe), pages) && ReadStaged(c, pipe, off, n).Some?
    ensures ReadStaged(c, pipe, off, n) == Some(c.ssd[off..off + n])
  {
    hide StagedByte, HasStaging, PP.PipeInv, HP.NoDup, SpanListed, Covering;
    forall x | off <= x < off + n ensures StagedByte(c, pipe, x) == c.ssd[x] { StagedInSpan(c, pipe, off, n, pages, x); }
    assert seq(n, i requires 0 <= i < n => StagedByte(c, pipe, off + i)) == c.ssd[off..off + n];
  }

  lemma StagedInSpan(c: W.Config, pipe: P.Pipe, off: nat, n: nat, pages: seq<nat>, x: nat)
    requires PP.PipeInv(c, P.Bounce, pipe) && HP.NoDup(pipe) && c.pageBytes > 0 && n > 0 && off <= x < off + n <= |c.ssd|
    requires SpanListed(c.pageBytes, off, n, pages) && Covering(Staged(pipe), pages) && ReadStaged(c, pipe, off, n).Some?
    ensures StagedByte(c, pipe, x) == c.ssd[x]
  {
    hide HP.Raised, HP.NoDup, PP.PipeInv, HasStaging, StagedByte, PageDown, PageOff;
    PageDownOf(x, c.pageBytes);
    DivBetween(off, x, off + n - 1, c.pageBytes);
    assert PageOff(x / c.pageBytes, c.pageBytes) in pages;
    assert HasStaging(pipe, PageOff(x / c.pageBytes, c.pageBytes));
    StagedByteIsImage(c, pipe, x);
  }

  /** Whatever a thread scores from: a read that comes through while the vector's pages cover yields the image's bytes. */
  lemma SourceIsImage(p: Setup, src: Source, id: nat, need: seq<nat>)
    requires GoodSetup(p) && Readable(p, src) && id < |p.vecOff| && Covering(src, need) && (forall page :: page in p.pages[id] ==> page in need)
    requires ReadFrom(p.cache, src, p.vecOff[id], p.vecBytes).Some?
    ensures ReadFrom(p.cache, src, p.vecOff[id], p.vecBytes) == Some(p.cache.ssd[p.vecOff[id]..p.vecOff[id] + p.vecBytes])
  {
    match src
    case Windowed(w) => ReadIsImage(p.cache, w, p.vecOff[id], p.vecBytes);
    case Staged(pipe) => StagedIsImage(p.cache, pipe, p.vecOff[id], p.vecBytes, p.pages[id]);
    case Image =>
  }

  /** The pages issued for a candidate's vector are among those its query needs. */
  lemma {:induction false} ListedNeeded(p: Setup, cand: seq<Cand>, i: nat, page: nat)
    requires i < |cand| && cand[i].id < |p.pages| && page in p.pages[cand[i].id]
    ensures page in NeedOf(p, cand)
  {
    InAllPages(p, cand, i, page);
  }

  lemma {:induction false} InAllPages(p: Setup, cand: seq<Cand>, i: nat, page: nat)
    requires i < |cand| && cand[i].id < |p.pages| && page in p.pages[cand[i].id]
    ensures page in AllPages(p, cand)
  {
    if i < |cand| - 1 { InAllPages(p, cand[..|cand| - 1], i, page); }
  }

  /** The pages needed are those of the candidates' vectors and no others. */
  lemma NeedExact(p: Setup, cand: seq<Cand>, page: nat)
    ensures page in NeedOf(p, cand) <==> exists i: nat :: i < |cand| && PageOf(p, cand[i].id, page)
  {
    if page in NeedOf(p, cand) {
      var i := PageSource(p, cand, page);
      assert PageOf(p, cand[i].id, page);
    }
    if i: nat :| i < |cand| && PageOf(p, cand[i].id, page) { ListedNeeded(p, cand, i, page); }
  }

  ghost predicate PageOf(p: Setup, id: nat, page: nat) {
    id < |p.pages| && page in p.pages[id]
  }

  lemma {:induction false} PageSource(p: Setup, cand: seq<Cand>, page: nat) returns (i: nat)
    requires page in AllPages(p, cand)
    ensures i < |cand| && PageOf(p, cand[i].id, page)
  {
    var n := |cand| - 1;
    if page in AllPages(p, cand[..n]) { i := PageSource(p, cand[..n], page); } else { i := n; }
  }

  /** Pages are gathered candidate by candidate. */
  lemma {:induction false} PagesJoin(p: Setup, a: seq<Cand>, b: seq<Cand>)
    ensures AllPages(p, a + b) == AllPages(p, a) + AllPages(p, b)
  {
    if b == [] {
      assert a + b == a;
    } else {
      assert (a + b)[..|a + b| - 1] == a + b[..|b| - 1];
      PagesJoin(p, a, b[..|b| - 1]);
    }
  }

  // ------------------------------------------------------------ ranking

  /** What reading and scoring each candidate yields with the source as it is. */
  ghost function Reads(p: Setup, qi: nat, src: Source, cand: seq<Cand>): (r: seq<Option<real>>)
    requires GoodSetup(p) && qi < |p.asks|
    ensures |r| == |cand|
  {
    seq(|cand|, i requires 0 <= i < |cand| =>
      if cand[i].id >= |p.vecOff| then None
      else match ReadFrom(p.cache, src, p.vecOff[cand[i].id], p.vecBytes)
        case None => None
        case Some(bytes) => Some(p.asks[qi].metric(bytes)))
  }

  /** The source lets every candidate of the query be read. */
  ghost predicate ReadsAll(p: Setup, qi: nat, src: Source)
    requires GoodSetup(p) && qi < |p.asks|
  {
    && Readable(p, src) && Covering(src, NeedOf(p, Serial(p, qi).cand))
    && var got := Reads(p, qi, src, Serial(p, qi).cand); Got(got, |got|)
  }

  /** Some source of that kind does. */
  ghost predicate Attainable(p: Setup, src: Source, qi: nat)
    requires GoodSetup(p) && qi < |p.asks|
  {
    exists to: Source :: SameKind(src, to) && ReadsAll(p, qi, to)
  }

  lemma KindAttains(p: Setup, a: Source, b: Source, qi: nat)
    requires GoodSetup(p) && qi < |p.asks| && SameKind(a, b)
    ensures Attainable(p, a, qi) <==> Attainable(p, b, qi)
  {
    hide ReadsAll;
    if Attainable(p, a, qi) { var to :| SameKind(a, to) && ReadsAll(p, qi, to); assert SameKind(b, to); }
    if Attainable(p, b, qi) { var to :| SameKind(b, to) && ReadsAll(p, qi, to); assert SameKind(a, to); }
  }

  /** Only which candidates there are matters to what is read. */
  lemma SameReads(p: Setup, qi: nat, src: Source, a: seq<Cand>, b: seq<Cand>)
    requires GoodSetup(p) && qi < |p.asks| && Ids(a) == Ids(b)
    ensures Reads(p, qi, src, a) == Reads(p, qi, src, b)
  {
    assert |a| == |Ids(a)| && |b| == |Ids(b)|;
    hide ReadFrom, GoodSetup;
    forall i | 0 <= i < |a| ensures Reads(p, qi, src, a)[i] == Reads(p, qi, src, b)[i] {
      assert a[i].id == Ids(a)[i] == Ids(b)[i] == b[i].id;
    }
  }

  /** A covered rank attempt of a tracked seat succeeds exactly when the source lets every candidate be read. */
  lemma RankSucceeds(p: Setup, s: Seat, src: Source)
    requires Tracked(p, s) && Readable(p, src) && Covering(src, NeedOf(p, s.q.cand))
    ensures RankOnce(p, s, src).1 <==> ReadsAll(p, s.qi, src)
  {
    hide Reads, NeedOf, Serial, Readable, Covering, GoodSetup;
    SameReads(p, s.qi, src, s.q.cand, Serial(p, s.qi).cand);
    SameIdsSameNeed(p, s.q.cand, Serial(p, s.qi).cand);
  }

  /** `pqq_rank` past the covering test: the seat after rescoring, and whether every read came through. */
  ghost function RankOnce(p: Setup, s: Seat, src: Source): (r: (Seat, bool))
    requires GoodSetup(p) && s.qi < |p.asks|
  {
    var got := Reads(p, s.qi, src, s.q.cand);
    var ok := Got(got, |got|);
    (s.(q := s.q.(cand := Ranked(s.q.cand, got)), st := if ok then Done else s.st), ok)
  }

  // ------------------------------------------------------------ what the steps keep

  /** The seat holds the serial beam's candidates, whatever distances they carry. */
  ghost predicate Tracked(p: Setup, s: Seat) {
    GoodSetup(p) && s.qi < |p.asks| && Ids(s.q.cand) == Ids(Serial(p, s.qi).cand)
  }

  /** The candidates carry their full-precision scores. */
  ghost predicate Scored(p: Setup, s: Seat)
    requires GoodSetup(p) && s.qi < |p.asks|
  {
    forall i :: 0 <= i < |s.q.cand| ==>
      s.q.cand[i].id < |p.vecOff| && s.q.cand[i].dist == Score(p, s.qi)[s.q.cand[i].id]
  }

  /** A rank attempt never changes which candidates a seat holds; one that succeeds scores them all. */
  lemma RankKeeps(p: Setup, s: Seat, src: Source)
    requires Tracked(p, s) && Readable(p, src) && Covering(src, NeedOf(p, s.q.cand))
    ensures Tracked(p, RankOnce(p, s, src).0)
    ensures RankOnce(p, s, src).1 ==> Scored(p, RankOnce(p, s, src).0)
  {
    RankTracked(p, s, src);
    var got := Reads(p, s.qi, src, s.q.cand);
    hide NeedOf, Readable, Covering, Reads, Serial, Score, GoodSetup, Tracked;
    if Got(got, |got|) {
      forall i | 0 <= i < |s.q.cand| ensures s.q.cand[i].id < |p.vecOff| && got[i] == Some(Score(p, s.qi)[s.q.cand[i].id]) {
        assert got[i].Some?;
        CandRight(p, s.qi, src, s.q.cand, i);
      }
      RankScored(p, s, got);
    }
  }

  lemma RankTracked(p: Setup, s: Seat, src: Source)
    requires Tracked(p, s)
    ensures GoodSetup(p) && s.qi < |p.asks| && Tracked(p, RankOnce(p, s, src).0)
  {
    hide Reads, Serial, GoodSetup;
  }

  lemma RankScored(p: Setup, s: Seat, got: seq<Option<real>>)
    requires GoodSetup(p) && s.qi < |p.asks| && |got| == |s.q.cand| && Got(got, |got|)
    requires forall i :: 0 <= i < |s.q.cand| ==> s.q.cand[i].id < |p.vecOff| && got[i] == Some(Score(p, s.qi)[s.q.cand[i].id])
    ensures Scored(p, s.(q := s.q.(cand := Ranked(s.q.cand, got)), st := Done))
  {
    hide Score, GoodSetup;
  }

  /** One candidate's read, once it comes through. */
  lemma CandRight(p: Setup, qi: nat, src: Source, cand: seq<Cand>, i: nat)
    requires GoodSetup(p) && qi < |p.asks| && Readable(p, src) && Covering(src, NeedOf(p, cand)) && i < |cand|
    requires Reads(p, qi, src, cand)[i].Some?
    ensures cand[i].id < |p.vecOff| && Reads(p, qi, src, cand)[i] == Some(Score(p, qi)[cand[i].id])
  {
    hide NeedOf, Readable, Covering, ReadFrom;
    assert cand[i].id < |p.vecOff| && ReadFrom(p.cache, src, p.vecOff[cand[i].id], p.vecBytes).Some?;
    forall page | page in p.pages[cand[i].id] ensures page in NeedOf(p, cand) { ListedNeeded(p, cand, i, page); }
    SourceIsImage(p, src, cand[i].id, NeedOf(p, cand));
  }

  /** `sorted` is what sorting the candidates may leave. */
  ghost predicate SortOf(cand: seq<Cand>, sorted: seq<Cand>) {
    multiset(sorted) == multiset(cand) && SortedByDist(sorted)
  }

  /** `pqq_finish`. */
  function Outcome(p: Setup, sorted: seq<Cand>): seq<nat> {
    Ids(sorted[..if p.k < |sorted| then p.k else |sorted|])
  }

  /** A scored seat's sorted prefix answers its query. */
  lemma FinishAnswers(p: Setup, s: Seat, sorted: seq<Cand>)
    requires Tracked(p, s) && Scored(p, s) && SortOf(s.q.cand, sorted)
    ensures Answer(p, s.qi, Outcome(p, sorted))
  {
    SerialInRange(p, s.qi, s.q.cand);
    SortedIsPrefix(Score(p, s.qi), s.q.cand, sorted, p.k);
  }
}
