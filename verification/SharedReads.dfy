/**
 How a worker of the shared scheduler reads a vector out of the window all
 workers share (`pqq_rank`, `vec_src` and `try_ptr_resident`): the pointer is
 looked up under the window's lock and read through after it is dropped, and
 other workers may change the window in between.
 */
module SharedReads {
  import opened Common
  import opened Counting
  import opened PageMath
  import opened Seats
  import W = WindowSpec
  import WP = WindowProofs

  /** One read: not found, copied under the lock, or a pointer taken in one window and followed in a later one. */
  datatype Reading = Missed | Copied(win: W.Win) | Pointed(at: W.Win, later: W.Win)

  /** Bytes `off` to `off + n` of frame `fr`, as they are. */
  function FrameSpan(w: W.Win, fr: nat, off: nat, n: nat): W.Bytes {
    if fr < |w.frames| && off + n <= |w.frames[fr]| then w.frames[fr][off..off + n] else []
  }

  /** The span lies in one page, and that page is resident. */
  ghost predicate OnePage(c: W.Config, w: W.Win, off: nat, n: nat)
    requires c.pageBytes > 0 && n > 0
  {
    off / c.pageBytes == (off + n - 1) / c.pageBytes && PageDown(off, c.pageBytes) in w.pageMap
  }

  ghost function BytesRead(c: W.Config, off: nat, n: nat, r: Reading): Option<W.Bytes>
    requires c.pageBytes > 0 && n > 0
  {
    match r
    case Missed => None
    case Copied(w) => ReadSpan(c, w, off, n)
    case Pointed(at, later) =>
      var po: nat := PageDown(off, c.pageBytes);
      if OnePage(c, at, off, n) then Some(FrameSpan(later, at.pageMap[po], off - po, n)) else None
  }

  /** Every window read from keeps its invariant. */
  ghost predicate FromValid(c: W.Config, r: Reading) {
    match r
    case Missed => true
    case Copied(w) => WP.Valid(c, w)
    case Pointed(at, later) => WP.Valid(c, at) && WP.Valid(c, later)
  }

  /** When the pointer is followed its frame still holds the page it was taken for. */
  ghost predicate StillHeld(c: W.Config, off: nat, r: Reading)
    requires c.pageBytes > 0
  {
    r.Pointed? ==>
      var po: nat := PageDown(off, c.pageBytes);
      po in r.at.pageMap ==> po in r.later.pageMap && r.later.pageMap[po] == r.at.pageMap[po]
  }

  /** The bytes of a one-page span, in the frame that holds the page. */
  lemma SpanInFrame(c: W.Config, w: W.Win, off: nat, n: nat)
    requires WP.Valid(c, w) && n > 0 && OnePage(c, w, off, n)
    ensures var po := PageDown(off, c.pageBytes); off + n <= |c.ssd| && FrameSpan(w, w.pageMap[po], off - po, n) == c.ssd[off..off + n]
  {
    var po: nat := PageDown(off, c.pageBytes);
    InOnePage(c, w, off, n);
    HeldPage(c, w, po);
    hide *;
    PartOfPage(c, w, po, off, n);
  }

  lemma InOnePage(c: W.Config, w: W.Win, off: nat, n: nat)
    requires c.pageBytes > 0 && n > 0 && OnePage(c, w, off, n)
    ensures var po := PageDown(off, c.pageBytes); po in w.pageMap && po <= off && off + n <= po + c.pageBytes
  {
    PageDownOf(off, c.pageBytes);
    PageDownOf(off + n - 1, c.pageBytes);
  }

  lemma HeldPage(c: W.Config, w: W.Win, po: nat)
    requires WP.Valid(c, w) && po in w.pageMap
    ensures w.pageMap[po] < |w.frames| && po + c.pageBytes <= |c.ssd| && w.frames[w.pageMap[po]] == c.ssd[po..po + c.pageBytes]
  {
    assert W.IsPage(c, po) && w.frames[w.pageMap[po]] == W.PageAt(c, po);
  }

  lemma PartOfPage(c: W.Config, w: W.Win, po: nat, off: nat, n: nat)
    requires po in w.pageMap && w.pageMap[po] < |w.frames| && po <= off && off + n <= po + c.pageBytes <= |c.ssd|
    requires w.frames[w.pageMap[po]] == c.ssd[po..po + c.pageBytes]
    ensures FrameSpan(w, w.pageMap[po], off - po, n) == c.ssd[off..off + n]
  {
    assert c.ssd[po..po + c.pageBytes][off - po..off - po + n] == c.ssd[off..off + n];
  }

  /** A read that comes through yields the image's bytes, copied or through a frame that still holds the page. */
  lemma HeldReadsImage(c: W.Config, off: nat, n: nat, r: Reading)
    requires c.pageBytes > 0 && n > 0 && FromValid(c, r) && StillHeld(c, off, r) && BytesRead(c, off, n, r).Some?
    ensures off + n <= |c.ssd| && BytesRead(c, off, n, r).value == c.ssd[off..off + n]
  {
    match r
    case Copied(w) => ReadIsImage(c, w, off, n);
    case Pointed(at, later) => SpanInFrame(c, later, off, n);
  }

  // ------------------------------------------------------------ exactly when

  /** A frame that has come to hold another page yields that page's bytes. */
  lemma OtherPageRead(c: W.Config, w: W.Win, fr: nat, q: nat, d: nat, n: nat)
    requires WP.Valid(c, w) && q in w.pageMap && w.pageMap[q] == fr && d + n <= c.pageBytes
    ensures q + d + n <= |c.ssd| && FrameSpan(w, fr, d, n) == c.ssd[q + d..q + d + n]
  {
    assert w.frames[fr] == W.PageAt(c, q);
    assert c.ssd[q..q + c.pageBytes][d..d + n] == c.ssd[q + d..q + d + n];
  }

  ghost const PAIR: W.Config := W.Config([1, 2], 1, 1, 0, 8, false)

  /** The one-frame window that holds page `k` of a two-page image. */
  ghost function Only(k: nat): W.Win
    requires k < 2
  {
    W.Win(map[k := 0], [Some(k)], [false], [false], [0], [], {}, k + 1, 0, 0, [[PAIR.ssd[k]]])
  }

  lemma OnlyValid(k: nat)
    requires k < 2
    ensures WP.Valid(PAIR, Only(k))
  {
    CountBound([false]);
    assert WP.SoftFlags([0]) == [false];
    assert W.PageAt(PAIR, k) == [PAIR.ssd[k]];
  }

  lemma OnlyReads(k: nat)
    requires k < 2
    ensures FrameSpan(Only(k), 0, 0, 1) == [PAIR.ssd[k]]
  {}

  lemma OnlyStart()
    ensures PAIR.pageBytes > 0 && PageDown(0, PAIR.pageBytes) == 0 && OnePage(PAIR, Only(0), 0, 1)
    ensures 0 in Only(0).pageMap && Only(0).pageMap[0] == 0
  {
    StartOfPage(PAIR, Only(0));
    hide OnePage, PageDown;
  }

  lemma PairBytes()
    ensures |PAIR.ssd| == 2 && PAIR.ssd[0..1] == [1] && PAIR.ssd[1] == 2
  {}

  lemma StartOfPage(c: W.Config, w: W.Win)
    requires c.pageBytes == 1 && 0 in w.pageMap
    ensures PageDown(0, c.pageBytes) == 0 && OnePage(c, w, 0, 1)
  {
    IndexOf(0, c.pageBytes, 0);
    PageDownOf(0, c.pageBytes);
  }

  lemma FromBoth(c: W.Config, at: W.Win, later: W.Win)
    requires WP.Valid(c, at) && WP.Valid(c, later)
    ensures FromValid(c, Pointed(at, later))
  {}

  lemma PointedBytes(c: W.Config, at: W.Win, later: W.Win, off: nat, n: nat)
    requires c.pageBytes > 0 && n > 0 && OnePage(c, at, off, n)
    ensures var po: nat := PageDown(off, c.pageBytes);
      po <= off && BytesRead(c, off, n, Pointed(at, later)) == Some(FrameSpan(later, at.pageMap[po], off - po, n))
  {
    PageDownOf(off, c.pageBytes);
  }

  /** The pointer is taken for the first page and followed once the second has its frame. */
  lemma RepointedReads()
    ensures var r := Pointed(Only(0), Only(1));
      FromValid(PAIR, r) && |PAIR.ssd| == 2 && BytesRead(PAIR, 0, 1, r) == Some([2]) && PAIR.ssd[0..1] == [1]
  {
    hide *;
    OnlyValid(0);
    OnlyValid(1);
    FromBoth(PAIR, Only(0), Only(1));
    OnlyReads(1);
    OnlyStart();
    PointedBytes(PAIR, Only(0), Only(1), 0, 1);
    PairBytes();
  }

  /** The same window over another image, with whatever its frames hold then. */
  ghost predicate SameButBytes(c: W.Config, w: W.Win, c2: W.Config, w2: W.Win) {
    c2 == c.(ssd := c2.ssd) && |c2.ssd| == |c.ssd| && w2 == w.(frames := w2.frames)
  }

  /** Following a pointer to frame `fr` for the span reads it right, whatever the bytes are. */
  ghost predicate AlwaysRight(c: W.Config, w: W.Win, fr: nat, off: nat, n: nat)
    requires c.pageBytes > 0
  {
    forall c2: W.Config, w2: W.Win :: SameButBytes(c, w, c2, w2) && WP.Valid(c2, w2) && off + n <= |c2.ssd| ==>
      FrameSpan(w2, fr, off - PageDown(off, c.pageBytes), n) == c2.ssd[off..off + n]
  }

  /** An image that is zero but for byte `off`. */
  function Mark(size: nat, off: nat): W.Bytes {
    seq(size, x => if x == off then 1 else 0)
  }

  /**
   The exact condition: the frame reads right for every image and every content
   of frames without a page just when it still holds the page.
   */
  lemma {:induction false} PointerRightIff(c: W.Config, w: W.Win, fr: nat, off: nat, n: nat)
    requires WP.Valid(c, w) && fr < c.nFrames && n > 0 && off + n <= |c.ssd| && off / c.pageBytes == (off + n - 1) / c.pageBytes
    ensures var po := PageDown(off, c.pageBytes);
      AlwaysRight(c, w, fr, off, n) <==> po in w.pageMap && w.pageMap[po] == fr
  {
    var po: nat := PageDown(off, c.pageBytes);
    if po in w.pageMap && w.pageMap[po] == fr {
      forall c2: W.Config, w2: W.Win | SameButBytes(c, w, c2, w2) && WP.Valid(c2, w2) && off + n <= |c2.ssd|
        ensures FrameSpan(w2, fr, off - po, n) == c2.ssd[off..off + n]
      {
        SpanInFrame(c2, w2, off, n);
      }
    } else {
      WrongBytes(c, w, fr, off, n);
    }
  }

  /** A frame that does not hold the page, over the marked image: it reads a zero where the image has a one. */
  lemma WrongBytes(c: W.Config, w: W.Win, fr: nat, off: nat, n: nat)
    requires WP.Valid(c, w) && fr < c.nFrames && n > 0 && off + n <= |c.ssd|
    requires var po := PageDown(off, c.pageBytes); !(po in w.pageMap && w.pageMap[po] == fr)
    ensures !AlwaysRight(c, w, fr, off, n)
  {
    var c2 := c.(ssd := Mark(|c.ssd|, off));
    var w2 := w.(frames := FramesOver(c2, c, w));
    var d: nat := off - PageDown(off, c.pageBytes);
    MarkedValid(c, w, c2, w2);
    ZeroThere(c, w, c2, fr, off);
    assert SameButBytes(c, w, c2, w2);
    hide WP.Valid, FramesOver, Mark, PageDown;
    assert c2.ssd[off] == 1 by { MarkAt(|c.ssd|, off); }
    SpanStarts(w2, fr, d, n);
    assert c2.ssd[off..off + n][0] == c2.ssd[off];
  }

  lemma MarkAt(size: nat, off: nat)
    requires off < size
    ensures Mark(size, off)[off] == 1
  {}

  /** A span that is there begins with the frame's byte. */
  lemma SpanStarts(w: W.Win, fr: nat, d: nat, n: nat)
    requires n > 0 && fr < |w.frames|
    ensures FrameSpan(w, fr, d, n) == [] || (d < |w.frames[fr]| && FrameSpan(w, fr, d, n)[0] == w.frames[fr][d])
  {}

  /** A frame that holds another page, or none, has a zero where the page would have the marked byte. */
  lemma ZeroThere(c: W.Config, w: W.Win, c2: W.Config, fr: nat, off: nat)
    requires WP.Valid(c, w) && fr < c.nFrames && off < |c.ssd| && c2 == c.(ssd := Mark(|c.ssd|, off))
    requires var po := PageDown(off, c.pageBytes); !(po in w.pageMap && w.pageMap[po] == fr)
    ensures var f := FramesOver(c2, c, w)[fr]; var d := off - PageDown(off, c.pageBytes); d < |f| && f[d] == 0
  {
    var po := PageDown(off, c.pageBytes);
    PageDownOf(off, c.pageBytes);
    var f := FramesOver(c2, c, w)[fr];
    if !w.filling[fr] && w.key[fr].Some? && W.IsPage(c2, w.key[fr].value) {
      var q := w.key[fr].value;
      assert q in w.pageMap && q != po;
      assert f[off - po] == c2.ssd[q + (off - po)];
    }
  }

  /** Frames that hold the pages of the image `c2`, or zeros. */
  ghost function FramesOver(c2: W.Config, c: W.Config, w: W.Win): (r: seq<W.Bytes>)
    requires WP.Valid(c, w) && c2 == c.(ssd := c2.ssd) && |c2.ssd| == |c.ssd|
    ensures |r| == c.nFrames
  {
    seq(c.nFrames, i requires 0 <= i < c.nFrames =>
      if !w.filling[i] && w.key[i].Some? && W.IsPage(c2, w.key[i].value) then W.PageAt(c2, w.key[i].value) else seq(c.pageBytes, _ => 0))
  }

  lemma MarkedValid(c: W.Config, w: W.Win, c2: W.Config, w2: W.Win)
    requires WP.Valid(c, w) && c2 == c.(ssd := c2.ssd) && |c2.ssd| == |c.ssd| && w2 == w.(frames := FramesOver(c2, c, w))
    ensures WP.Valid(c2, w2)
  {
    assert forall p :: p in w.pageMap ==> W.IsPage(c2, p);
  }
}
