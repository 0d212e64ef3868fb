/**
 The page window (serving/dram_window.hpp) on values: what each critical
 section does to the frames, and what every one of them keeps.  The class in
 DramWindow.dfy updates the same fields in place and is proved to do exactly
 this.
 */
module WindowSpec {
  import opened Common
  import opened PageMath

  type Bytes = seq<bv8>

  /** The image being cached and the sizes fixed by `init`. */
  datatype Config = Config(ssd: Bytes, pageBytes: nat, nFrames: nat, pinCap: nat, softCap: nat, softNeighbors: bool)

  datatype Win = Win(
    pageMap: map<nat, nat>,      // page offset -> frame
    key: seq<Option<nat>>,       // page offset a frame holds, or is being filled with
    pinned: seq<bool>,
    filling: seq<bool>,
    ttl: seq<nat>,               // soft-pin hops left
    softList: seq<nat>,          // frames to age
    pinnedPages: set<nat>,
    hand: nat,
    pinBytes: nat,
    softBytes: nat,
    frames: seq<Bytes>)

  ghost predicate Shape(c: Config, w: Win) {
    && c.pageBytes > 0
    && |w.key| == |w.pinned| == |w.filling| == |w.ttl| == |w.frames| == c.nFrames
  }

  ghost predicate IsPage(c: Config, p: nat) {
    c.pageBytes > 0 && p % c.pageBytes == 0 && p + c.pageBytes <= |c.ssd|
  }

  function PageAt(c: Config, p: nat): Bytes
    requires p + c.pageBytes <= |c.ssd|
  {
    c.ssd[p..p + c.pageBytes]
  }

  // ------------------------------------------------------------ the operations

  function ClearSoft(c: Config, w: Win, fr: nat): Win {
    if fr >= |w.ttl| || w.ttl[fr] == 0 then w
    else w.(ttl := w.ttl[fr := 0],
            softBytes := if w.softBytes > c.pageBytes then w.softBytes - c.pageBytes else 0)
  }

  function SetSoft(c: Config, w: Win, fr: nat, t: nat): (r: Win)
    requires |w.ttl| == |w.pinned|
    ensures r == w.(ttl := r.ttl, softBytes := r.softBytes, softList := r.softList) && |r.ttl| == |w.ttl|
  {
    if fr >= |w.ttl| || t == 0 || w.pinned[fr] then w
    else if w.ttl[fr] == 0 then
      if w.softBytes + c.pageBytes > c.softCap then w
      else w.(ttl := w.ttl[fr := t], softBytes := w.softBytes + c.pageBytes, softList := w.softList + [fr])
    else if t > w.ttl[fr] then w.(ttl := w.ttl[fr := t])
    else w
  }

  function HeldFlags(w: Win): (r: seq<bool>)
    requires |w.pinned| == |w.filling|
  {
    seq(|w.pinned|, i requires 0 <= i < |w.pinned| => w.pinned[i] || w.filling[i])
  }

  function GuardedFlags(w: Win): (r: seq<bool>)
    requires |w.pinned| == |w.filling| == |w.ttl|
  {
    seq(|w.pinned|, i requires 0 <= i < |w.pinned| => w.pinned[i] || w.filling[i] || w.ttl[i] > 0)
  }

  /** The first position of the hand, within `n` steps, that is not over a blocked frame. */
  function Scan(blocked: seq<bool>, hand: nat, n: nat): (r: Option<nat>)
    requires |blocked| > 0
    ensures r.Some? ==> hand <= r.value < hand + n && !blocked[r.value % |blocked|]
    ensures forall h :: hand <= h < (if r.Some? then r.value else hand + n) ==> blocked[h % |blocked|]
    decreases n
  {
    if n == 0 then None
    else if !blocked[hand % |blocked|] then Some(hand)
    else Scan(blocked, hand + 1, n - 1)
  }

  /** Frame `fr` gives up its page and its soft pin; a frame with no page is taken as it is. */
  function Take(c: Config, w: Win, fr: nat, next: nat): Win
    requires fr < |w.key|
  {
    match w.key[fr]
    case None => w.(hand := next)
    case Some(k) => ClearSoft(c, w.(pageMap := w.pageMap - {k}, key := w.key[fr := None], hand := next), fr)
  }

  /** The clock: one turn past guarded frames, one past held frames only, then frame 0. */
  function Evict(c: Config, w: Win): (r: (Win, nat))
    requires |w.key| == |w.pinned| == |w.filling| == |w.ttl| == c.nFrames && c.nFrames > 0
    ensures r.1 < c.nFrames
  {
    match Scan(GuardedFlags(w), w.hand, c.nFrames)
    case Some(h) => (Take(c, w, h % c.nFrames, h + 1), h % c.nFrames)
    case None =>
      match Scan(HeldFlags(w), w.hand + c.nFrames, c.nFrames)
      case Some(h) => (Take(c, w, h % c.nFrames, h + 1), h % c.nFrames)
      case None => (w.(hand := w.hand + 2 * c.nFrames), 0)
  }

  lemma EvictSizes(c: Config, w: Win)
    requires |w.key| == |w.pinned| == |w.filling| == |w.ttl| == c.nFrames && c.nFrames > 0
    ensures var w1 := Evict(c, w).0;
      |w1.key| == |w1.pinned| == |w1.filling| == |w1.ttl| == c.nFrames && |w1.frames| == |w.frames|
  {
    hide Scan;
  }

  function PlacePage(c: Config, w: Win, fr: nat, p: nat, bytes: Bytes): Win
    requires fr < |w.key| == |w.pinned| == |w.frames|
  {
    var w1 := ClearSoft(c, w.(frames := w.frames[fr := bytes], key := w.key[fr := Some(p)], pinned := w.pinned[fr := false]), fr);
    w1.(pageMap := w1.pageMap[p := fr])
  }

  /** Allocate a frame for a page that is not resident and fill it. */
  function Load(c: Config, w: Win, p: nat, bytes: Bytes): (r: (Win, nat))
    requires |w.key| == |w.pinned| == |w.filling| == |w.ttl| == |w.frames| == c.nFrames && c.nFrames > 0
    ensures r.1 < c.nFrames
    ensures |r.0.key| == |r.0.pinned| == |r.0.filling| == |r.0.ttl| == |r.0.frames| == c.nFrames
  {
    EvictSizes(c, w);
    hide Evict;
    var (w1, fr) := Evict(c, w);
    (PlacePage(c, w1, fr, p, bytes), fr)
  }

  function PinFrame(c: Config, w: Win, p: nat, fr: nat): Win
    requires fr < |w.pinned|
  {
    if w.pinBytes + c.pageBytes <= c.pinCap then
      w.(pinned := w.pinned[fr := true], pinnedPages := w.pinnedPages + {p}, pinBytes := w.pinBytes + c.pageBytes)
    else w
  }

  ghost predicate MapInFrames(w: Win) {
    forall p :: p in w.pageMap ==> w.pageMap[p] < |w.key|
  }

  lemma LoadShape(c: Config, w: Win, p: nat, bytes: Bytes)
    requires Shape(c, w) && MapInFrames(w) && c.nFrames > 0
    ensures Shape(c, Load(c, w, p, bytes).0) && MapInFrames(Load(c, w, p, bytes).0)
  {
    hide Scan;
  }

  function Promote(c: Config, w: Win, p: nat, pin: bool): (r: (Win, nat))
    requires Shape(c, w) && MapInFrames(w) && c.nFrames > 0 && p + c.pageBytes <= |c.ssd|
    ensures Shape(c, r.0) && MapInFrames(r.0)
  {
    if p in w.pageMap then
      var fr := w.pageMap[p];
      (if pin && !w.pinned[fr] then PinFrame(c, w, p, fr) else w, fr)
    else
      LoadShape(c, w, p, PageAt(c, p));
      hide Load;
      var (w1, fr) := Load(c, w, p, PageAt(c, p));
      (if pin then PinFrame(c, w1, p, fr) else w1, fr)
  }

  /** Promote the pages `k..last`, in order, as the span loops do. */
  function PromotePages(c: Config, w: Win, k: nat, last: nat, pin: bool): (r: Win)
    requires Shape(c, w) && MapInFrames(w) && c.nFrames > 0 && PageOff(last, c.pageBytes) + c.pageBytes <= |c.ssd|
    ensures Shape(c, r) && MapInFrames(r)
    decreases last + 1 - k
  {
    if k > last then w
    else
      OffOrder(k, last, c.pageBytes);
      PromotePages(c, Promote(c, w, PageOff(k, c.pageBytes), pin).0, k + 1, last, pin)
  }

  /** The frame becomes the destination of a device read; its first byte is written to fault it in. */
  function Reserve(c: Config, w: Win, p: nat): (r: (Win, Option<nat>))
    requires Shape(c, w) && c.nFrames > 0
    ensures Shape(c, r.0)
  {
    if p in w.pageMap then (w, None)
    else
      EvictSizes(c, w);
      hide Evict;
      var (w1, fr) := Evict(c, w);
      var was := w1.frames[fr];
      (w1.(filling := w1.filling[fr := true], key := w1.key[fr := Some(p)],
           frames := w1.frames[fr := if was == [] then [0] else was[0 := 0]]), Some(fr))
  }

  function Commit(c: Config, w: Win, p: nat, fr: nat, t: nat): Win
    requires Shape(c, w)
  {
    if fr >= c.nFrames || !w.filling[fr] then w
    else
      var w1 := w.(filling := w.filling[fr := false]);
      if p in w.pageMap then w1.(key := w1.key[fr := None])
      else SetSoft(c, w1.(key := w1.key[fr := Some(p)], pageMap := w1.pageMap[p := fr]), fr, t)
  }

  function Abort(c: Config, w: Win, fr: nat): Win
    requires Shape(c, w)
  {
    if fr >= c.nFrames || !w.filling[fr] then w
    else w.(filling := w.filling[fr := false], key := w.key[fr := None])
  }

  function TouchSoft(c: Config, w: Win, p: nat, t: nat): (r: Win)
    requires Shape(c, w)
    ensures r == w.(ttl := r.ttl, softBytes := r.softBytes, softList := r.softList) && |r.ttl| == |w.ttl|
  {
    if t != 0 && p in w.pageMap then SetSoft(c, w, w.pageMap[p], t) else w
  }

  /** Soft-pin the resident pages on either side. */
  function TouchNeighbors(c: Config, w: Win, p: nat, t: nat): (r: Win)
    requires Shape(c, w)
    ensures r == w.(ttl := r.ttl, softBytes := r.softBytes, softList := r.softList) && |r.ttl| == |w.ttl|
  {
    var w1 := if p >= c.pageBytes then TouchSoft(c, w, p - c.pageBytes, t) else w;
    TouchSoft(c, w1, p + c.pageBytes, t)
  }

  function Install(c: Config, w: Win, p: nat, bytes: Bytes, t: nat): Win
    requires Shape(c, w) && c.nFrames > 0
  {
    if p in w.pageMap then SetSoft(c, w, w.pageMap[p], t)
    else
      var (w1, fr) := Load(c, w, p, bytes);
      var w2 := SetSoft(c, w1, fr, t);
      if t > 0 && c.softNeighbors then TouchNeighbors(c, w2, p, t) else w2
  }

  /** A batch of pages, installed one after another. */
  function InstallAll(c: Config, w: Win, pages: seq<nat>, hosts: seq<Bytes>, t: nat): (r: Win)
    requires Shape(c, w) && c.nFrames > 0 && |pages| == |hosts|
    ensures Shape(c, r)
    decreases |pages|
  {
    if pages == [] then w
    else
      var n := |pages| - 1;
      InstallShape(c, InstallAll(c, w, pages[..n], hosts[..n], t), pages[n], hosts[n], t);
      Install(c, InstallAll(c, w, pages[..n], hosts[..n], t), pages[n], hosts[n], t)
  }

  lemma InstallShape(c: Config, w: Win, p: nat, bytes: Bytes, t: nat)
    requires Shape(c, w) && c.nFrames > 0
    ensures Shape(c, Install(c, w, p, bytes, t))
  {
    hide Load, SetSoft, TouchNeighbors;
    if p !in w.pageMap {
      var (w1, fr) := Load(c, w, p, bytes);
      var w2 := SetSoft(c, w1, fr, t);
    }
  }

  /** One frame's turn in `flush`. */
  function FlushFrame(c: Config, w: Win, i: nat): Win
    requires Shape(c, w) && i < c.nFrames
    ensures Shape(c, FlushFrame(c, w, i))
  {
    if w.pinned[i] || w.filling[i] then w
    else ClearSoft(c, w.(pageMap := match w.key[i] case None => w.pageMap case Some(k) => w.pageMap - {k},
                         key := w.key[i := None]), i)
  }

  function FlushUpTo(c: Config, w: Win, n: nat): (r: Win)
    requires Shape(c, w) && n <= c.nFrames
    ensures Shape(c, r)
  {
    if n == 0 then w else FlushFrame(c, FlushUpTo(c, w, n - 1), n - 1)
  }

  /** Drop every page that is neither pinned nor arriving. */
  function Flush(c: Config, w: Win): Win
    requires Shape(c, w)
  {
    FlushUpTo(c, w, c.nFrames).(softList := [], hand := 0)
  }

  /** One entry's turn in `tick_soft_pins`; `kept` are the entries written back so far. */
  function TickEntry(c: Config, w: Win, kept: seq<nat>, fr: nat): (Win, seq<nat>)
    requires Shape(c, w)
  {
    if fr >= c.nFrames || w.ttl[fr] == 0 then (w, kept)
    else if w.ttl[fr] == 1 then (ClearSoft(c, w, fr), kept)
    else (w.(ttl := w.ttl[fr := w.ttl[fr] - 1]), kept + [fr])
  }

  function TickUpTo(c: Config, w: Win, r: nat): (t: (Win, seq<nat>))
    requires Shape(c, w) && r <= |w.softList|
    ensures Shape(c, t.0) && |t.1| <= r && t.0.softList == w.softList
  {
    if r == 0 then (w, [])
    else
      var t := TickUpTo(c, w, r - 1);
      TickEntry(c, t.0, t.1, w.softList[r - 1])
  }

  function Tick(c: Config, w: Win): Win
    requires Shape(c, w)
  {
    var t := TickUpTo(c, w, |w.softList|);
    t.0.(softList := t.1)
  }
}
