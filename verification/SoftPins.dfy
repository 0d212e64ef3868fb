/**
 What soft pins do (serving/dram_window.hpp): exactly when a request is
 granted, whom an install asks for, and that a page brought in is guarded for
 the hops asked unless it is pinned or the soft budget is spent.
 */
module SoftPins {
  import opened Common
  import opened Counting
  import opened PageMath
  import opened WindowSpec
  import opened WindowProofs
  import opened SpanClock
  import opened DramWindows

  /** One more soft-pinned page fits under the cap. */
  ghost predicate FitsOneMore(c: Config, w: Win) {
    PageOff(Count(SoftFlags(w.ttl)) + 1, c.pageBytes) <= c.softCap
  }

  /**
   A soft pin asked for an unpinned frame: one that has hops left keeps the
   larger number; one that has none gets the hops asked, and joins the list to
   be aged, exactly when one more page fits under the cap.  Nothing else moves.
   */
  lemma SoftPinExact(c: Config, w: Win, fr: nat, t: nat)
    requires Valid(c, w) && fr < c.nFrames
    ensures var w' := SetSoft(c, w, fr, t);
      && (t == 0 || w.pinned[fr] ==> w' == w)
      && (t > 0 && !w.pinned[fr] && w.ttl[fr] > 0 ==> w' == w.(ttl := w.ttl[fr := Max(w.ttl[fr], t)]))
      && (t > 0 && !w.pinned[fr] && w.ttl[fr] == 0 ==>
            if FitsOneMore(c, w)
            then w' == w.(ttl := w.ttl[fr := t], softBytes := w.softBytes + c.pageBytes, softList := w.softList + [fr])
            else w' == w)
  {
    NextOff(Count(SoftFlags(w.ttl)), c.pageBytes);
    if t <= w.ttl[fr] { assert w.ttl[fr := Max(w.ttl[fr], t)] == w.ttl; }
  }

  // ------------------------------------------------------------ whom an install asks for

  /** Requests for several frames, one after another. */
  function AskAll(c: Config, w: Win, frs: seq<nat>, t: nat): (r: Win)
    requires |w.ttl| == |w.pinned|
    ensures r == w.(ttl := r.ttl, softBytes := r.softBytes, softList := r.softList) && |r.ttl| == |w.ttl|
  {
    if frs == [] then w else SetSoft(c, AskAll(c, w, frs[..|frs| - 1], t), frs[|frs| - 1], t)
  }

  lemma AskMore(c: Config, w: Win, frs: seq<nat>, fr: nat, t: nat)
    requires |w.ttl| == |w.pinned|
    ensures AskAll(c, w, frs + [fr], t) == SetSoft(c, AskAll(c, w, frs, t), fr, t)
  {
    assert (frs + [fr])[..|frs|] == frs;
  }

  /** The frames of the resident pages on either side of `p`, the left one first. */
  function Beside(c: Config, w: Win, p: nat): seq<nat> {
    (if p >= c.pageBytes && p - c.pageBytes in w.pageMap then [w.pageMap[p - c.pageBytes]] else [])
    + (if p + c.pageBytes in w.pageMap then [w.pageMap[p + c.pageBytes]] else [])
  }

  lemma BesideExact(c: Config, w: Win, p: nat, f: nat)
    ensures f in Beside(c, w, p) <==> exists q :: q in w.pageMap && w.pageMap[q] == f && (q + c.pageBytes == p || q == p + c.pageBytes)
  {
    if f in Beside(c, w, p) {
      var q := if p >= c.pageBytes && p - c.pageBytes in w.pageMap && w.pageMap[p - c.pageBytes] == f then p - c.pageBytes else p + c.pageBytes;
      assert q in w.pageMap && w.pageMap[q] == f;
    }
  }

  /**
   An install of a resident page asks for its frame; of a missing one, for the
   frame it was loaded into and then, with neighbours asked for, for exactly
   the resident pages on either side.
   */
  lemma InstallAsks(c: Config, w: Win, p: nat, bytes: Bytes, t: nat)
    requires Shape(c, w) && c.nFrames > 0
    ensures var (w1, fr) := Load(c, w, p, bytes);
      Install(c, w, p, bytes, t) ==
        if p in w.pageMap then AskAll(c, w, [w.pageMap[p]], t)
        else AskAll(c, w1, [fr] + (if t > 0 && c.softNeighbors then Beside(c, w1, p) else []), t)
  {
    hide Load, SetSoft;
    var (w1, fr) := Load(c, w, p, bytes);
    var v := if p in w.pageMap then w else w1;
    var f := if p in w.pageMap then w.pageMap[p] else fr;
    assert AskAll(c, v, [], t) == v && [] + [f] == [f];
    AskMore(c, v, [], f, t);
    if p !in w.pageMap && t > 0 && c.softNeighbors {
      AskBeside(c, w1, fr, p, t);
    } else {
      assert [fr] + [] == [fr];
    }
  }

  lemma AskBeside(c: Config, w: Win, fr: nat, p: nat, t: nat)
    requires Shape(c, w) && t > 0
    ensures TouchNeighbors(c, SetSoft(c, w, fr, t), p, t) == AskAll(c, w, [fr] + Beside(c, w, p), t)
  {
    hide SetSoft;
    assert AskAll(c, w, [], t) == w && [] + [fr] == [fr];
    AskMore(c, w, [], fr, t);
    var left := if p >= c.pageBytes && p - c.pageBytes in w.pageMap then [w.pageMap[p - c.pageBytes]] else [];
    if left != [] { AskMore(c, w, [fr], left[0], t); } else { assert [fr] + left == [fr]; }
    if p + c.pageBytes in w.pageMap {
      AskMore(c, w, [fr] + left, w.pageMap[p + c.pageBytes], t);
      assert [fr] + left + [w.pageMap[p + c.pageBytes]] == [fr] + Beside(c, w, p);
    } else {
      assert [fr] + left == [fr] + Beside(c, w, p);
    }
  }

  // ------------------------------------------------------------ guarded pages

  /** A resident page the clock's first turn passes over for `t` hops at least. */
  ghost predicate Guarded(w: Win, p: nat, t: nat) {
    p in w.pageMap && w.pageMap[p] < |w.ttl| == |w.pinned| && (w.ttl[w.pageMap[p]] >= t || w.pinned[w.pageMap[p]])
  }

  /** No further page can be soft-pinned. */
  ghost predicate Spent(c: Config, w: Win) {
    w.softBytes + c.pageBytes > c.softCap
  }

  /** Soft pins only got longer, and no budget was given back. */
  ghost predicate Longer(w: Win, w': Win) {
    && w' == w.(ttl := w'.ttl, softBytes := w'.softBytes, softList := w'.softList)
    && |w'.ttl| == |w.ttl| && (forall i :: 0 <= i < |w.ttl| ==> w.ttl[i] <= w'.ttl[i]) && w.softBytes <= w'.softBytes
  }

  lemma LongerGuards(c: Config, w: Win, w': Win, p: nat, t: nat)
    requires Longer(w, w')
    ensures (Guarded(w, p, t) ==> Guarded(w', p, t)) && (Spent(c, w) ==> Spent(c, w'))
  {}

  /** A request never shortens a soft pin, costs at most a page, and is granted unless pinned or spent. */
  lemma AskOne(c: Config, w: Win, fr: nat, t: nat)
    requires |w.ttl| == |w.pinned|
    ensures var w' := SetSoft(c, w, fr, t);
      && Longer(w, w') && w'.softBytes <= w.softBytes + c.pageBytes
      && (fr < |w.ttl| ==> w'.ttl[fr] >= t || w.pinned[fr] || Spent(c, w))
  {}

  lemma {:induction false} AskSome(c: Config, w: Win, frs: seq<nat>, t: nat)
    requires |w.ttl| == |w.pinned|
    ensures Longer(w, AskAll(c, w, frs, t)) && AskAll(c, w, frs, t).softBytes <= w.softBytes + PageOff(|frs|, c.pageBytes)
  {
    if frs != [] {
      var n := |frs| - 1;
      AskSome(c, w, frs[..n], t);
      AskOne(c, AskAll(c, w, frs[..n], t), frs[n], t);
      NextOff(n, c.pageBytes);
    }
  }

  /** Of several requests the first is met with the window as it was. */
  lemma {:induction false} AskFirst(c: Config, w: Win, fr: nat, more: seq<nat>, t: nat)
    requires |w.ttl| == |w.pinned| && fr < |w.ttl|
    ensures var w' := AskAll(c, w, [fr] + more, t); w'.ttl[fr] >= t || w'.pinned[fr] || Spent(c, w)
  {
    if more == [] {
      assert [fr] + more == [fr] && [fr][..0] == [];
      AskOne(c, w, fr, t);
      assert AskAll(c, w, [fr], t) == SetSoft(c, AskAll(c, w, [fr][..0], t), fr, t);
    } else {
      var n := |more| - 1;
      AskFirst(c, w, fr, more[..n], t);
      assert [fr] + more == [fr] + more[..n] + [more[n]];
      AskMore(c, w, [fr] + more[..n], more[n], t);
      AskOne(c, AskAll(c, w, [fr] + more[..n], t), more[n], t);
    }
  }

  /** A committed page that had not arrived some other way is guarded for the hops asked, unless the budget is spent. */
  lemma CommitGuards(c: Config, w: Win, p: nat, fr: nat, t: nat)
    requires Shape(c, w) && fr < c.nFrames && w.filling[fr] && p !in w.pageMap
    ensures var w' := Commit(c, w, p, fr, t);
      && (Guarded(w', p, t) || Spent(c, w)) && w'.softBytes <= w.softBytes + c.pageBytes
  {
    AskOne(c, w.(filling := w.filling[fr := false], key := w.key[fr := Some(p)], pageMap := w.pageMap[p := fr]), fr, t);
  }

  /** The other pages keep their frames, and soft pins no shorter. */
  ghost predicate OthersKept(w: Win, w': Win, p: nat) {
    && |w'.ttl| == |w'.pinned| == |w.ttl| == |w.pinned|
    && forall q :: q in w'.pageMap && q != p ==> StaysGuarded(w, w', q)
  }

  /** The page was resident, and is guarded no less. */
  ghost predicate StaysGuarded(w: Win, w': Win, q: nat) {
    q in w'.pageMap && q in w.pageMap && forall t :: Guarded(w, q, t) ==> Guarded(w', q, t)
  }

  lemma CommitOthers(c: Config, w: Win, p: nat, fr: nat, t: nat)
    requires Valid(c, w)
    ensures OthersKept(w, Commit(c, w, p, fr, t), p) && (p in w.pageMap ==> StaysGuarded(w, Commit(c, w, p, fr, t), p))
    ensures Commit(c, w, p, fr, t).softBytes <= w.softBytes + c.pageBytes
  {
    if fr < c.nFrames && w.filling[fr] && p !in w.pageMap {
      AskOne(c, w.(filling := w.filling[fr := false], key := w.key[fr := Some(p)], pageMap := w.pageMap[p := fr]), fr, t);
    }
  }

  /** Loading gives back budget at most, and touches no other page's frame. */
  lemma LoadSoft(c: Config, w: Win, p: nat, bytes: Bytes)
    requires Valid(c, w) && c.nFrames > 0 && HasIdle(w) && p !in w.pageMap
    ensures var (w1, fr) := Load(c, w, p, bytes);
      && w1.softBytes <= w.softBytes && p in w1.pageMap && w1.pageMap[p] == fr && OthersKept(w, w1, p)
  {
    LoadPages(c, w, p, bytes);
    LoadBytes(c, w, p, bytes);
    hide Load;
    var (w1, fr) := Load(c, w, p, bytes);
    forall q | q in w1.pageMap && q != p ensures StaysGuarded(w, w1, q) {
      assert w.pageMap[q] != fr;
    }
  }

  lemma LoadBytes(c: Config, w: Win, p: nat, bytes: Bytes)
    requires Shape(c, w) && c.nFrames > 0
    ensures Load(c, w, p, bytes).0.softBytes <= w.softBytes
  {
    hide Scan, GuardedFlags, HeldFlags;
  }

  /** An installed page is guarded for the hops asked unless the budget was spent when its turn came; an install costs at most three pages. */
  lemma InstallGuards(c: Config, w: Win, p: nat, bytes: Bytes, t: nat)
    requires Valid(c, w) && c.nFrames > 0 && (p in w.pageMap || HasIdle(w))
    ensures var w' := Install(c, w, p, bytes, t);
      && p in w'.pageMap && OthersKept(w, w', p) && (p in w.pageMap ==> StaysGuarded(w, w', p))
      && (Guarded(w', p, t) || Spent(c, if p in w.pageMap then w else Load(c, w, p, bytes).0))
      && w'.softBytes <= w.softBytes + PageOff(3, c.pageBytes)
  {
    if p in w.pageMap { HitGuards(c, w, p, bytes, t); } else { MissGuards(c, w, p, bytes, t); }
  }

  lemma HitGuards(c: Config, w: Win, p: nat, bytes: Bytes, t: nat)
    requires Valid(c, w) && c.nFrames > 0 && p in w.pageMap
    ensures var w' := Install(c, w, p, bytes, t);
      && p in w'.pageMap && OthersKept(w, w', p) && StaysGuarded(w, w', p) && (Guarded(w', p, t) || Spent(c, w))
      && w'.softBytes <= w.softBytes + PageOff(3, c.pageBytes)
  {
    AskOne(c, w, w.pageMap[p], t);
    hide SetSoft;
    NextOff(0, c.pageBytes);
    OffOrder(1, 3, c.pageBytes);
  }

  lemma MissGuards(c: Config, w: Win, p: nat, bytes: Bytes, t: nat)
    requires Valid(c, w) && c.nFrames > 0 && p !in w.pageMap && HasIdle(w)
    ensures var w', w1 := Install(c, w, p, bytes, t), Load(c, w, p, bytes).0;
      && p in w'.pageMap && OthersKept(w, w', p) && (Guarded(w', p, t) || Spent(c, w1))
      && w'.softBytes <= w.softBytes + PageOff(3, c.pageBytes)
  {
    InstallAsks(c, w, p, bytes, t);
    LoadSoft(c, w, p, bytes);
    var (w1, fr) := Load(c, w, p, bytes);
    var w' := Install(c, w, p, bytes, t);
    var more := if t > 0 && c.softNeighbors then Beside(c, w1, p) else [];
    BesideTwo(c, w1, p);
    assert c.pageBytes > 0 && |w1.ttl| == |w1.pinned| == c.nFrames;
    hide *;
    AskFirst(c, w1, fr, more, t);
    AskSome(c, w1, [fr] + more, t);
    OffOrder(|[fr] + more|, 3, c.pageBytes);
    LongerOthers(w, w1, w', p);
    FirstGuarded(c, w1, w', p, fr, t);
  }

  lemma LongerOthers(w: Win, w1: Win, w': Win, p: nat)
    requires OthersKept(w, w1, p) && Longer(w1, w')
    ensures OthersKept(w, w', p) && w'.pageMap == w1.pageMap && w1.softBytes <= w'.softBytes
  {
    forall q | q in w'.pageMap && q != p ensures StaysGuarded(w, w', q) { assert StaysGuarded(w, w1, q); }
  }

  lemma FirstGuarded(c: Config, w1: Win, w': Win, p: nat, fr: nat, t: nat)
    requires p in w1.pageMap && w1.pageMap[p] == fr && fr < |w1.ttl| == |w1.pinned| && Longer(w1, w')
    requires w'.ttl[fr] >= t || w'.pinned[fr] || Spent(c, w1)
    ensures Guarded(w', p, t) || Spent(c, w1)
  {}

  lemma BesideTwo(c: Config, w: Win, p: nat)
    ensures |Beside(c, w, p)| <= 2
  {}

  // ------------------------------------------------------------ a batch

  /** The soft budget has room for `n` more installs, neighbours included. */
  ghost predicate SoftRoom(c: Config, w: Win, n: nat) {
    w.softBytes + PageOff(3 * n, c.pageBytes) <= c.softCap
  }

  lemma RoomLess(c: Config, w: Win, n: nat, m: nat)
    requires c.pageBytes > 0 && SoftRoom(c, w, n) && m <= n
    ensures SoftRoom(c, w, m)
  {
    OffOrder(3 * m, 3 * n, c.pageBytes);
  }

  /** Room for one more and its neighbours. */
  lemma RoomOne(c: Config, w: Win, w': Win, n: nat)
    requires c.pageBytes > 0 && SoftRoom(c, w, n + 1) && w'.softBytes <= w.softBytes + PageOff(3, c.pageBytes)
    ensures SoftRoom(c, w', n) && !Spent(c, w)
  {
    Dist(3 * n, 3, c.pageBytes);
    OffOrder(1, 3 * n + 3, c.pageBytes);
    NextOff(0, c.pageBytes);
  }

  lemma InstallRoom(c: Config, w: Win, p: nat, bytes: Bytes, t: nat, n: nat)
    requires Valid(c, w) && c.nFrames > 0 && (p in w.pageMap || HasIdle(w)) && SoftRoom(c, w, n + 1)
    ensures var w' := Install(c, w, p, bytes, t); SoftRoom(c, w', n) && Guarded(w', p, t) && OthersKept(w, w', p)
  {
    var w' := Install(c, w, p, bytes, t);
    InstallGuards(c, w, p, bytes, t);
    if p !in w.pageMap { LoadSoft(c, w, p, bytes); }
    hide Load, Install, Valid, Guarded, OthersKept;
    RoomOne(c, w, w', n);
  }

  /** With room for the batch every page it brings in is guarded for the hops asked, and every other page no less than before. */
  lemma {:induction false} InstallAllRoom(c: Config, w: Win, pages: seq<nat>, hosts: seq<Bytes>, t: nat, n: nat)
    requires Valid(c, w) && c.nFrames > 0 && HasIdle(w) && |pages| == |hosts| && SoftRoom(c, w, |pages| + n)
    requires forall i :: 0 <= i < |pages| ==> IsPage(c, pages[i]) && hosts[i] == PageAt(c, pages[i])
    ensures var w' := InstallAll(c, w, pages, hosts, t);
      && Valid(c, w') && HasIdle(w') && SoftRoom(c, w', n)
      && forall x :: x in w'.pageMap ==> StaysGuarded(w, w', x) || (x in pages && Guarded(w', x, t))
  {
    hide *;
    ValidSizes(c, w);
    if pages == [] {
      InstallNone(c, w, t);
      AllStay(w);
    } else {
      var k := |pages| - 1;
      InstallNext(c, w, pages, hosts, k, t);
      assert pages[..k + 1] == pages && hosts[..k + 1] == hosts;
      var v := InstallAll(c, w, pages[..k], hosts[..k], t);
      assert pages == pages[..k] + [pages[k]];
      InstallAllRoom(c, w, pages[..k], hosts[..k], t, n + 1);
      InstallStep(c, v, pages[k], hosts[k], t);
      InstallRoom(c, v, pages[k], hosts[k], t, n);
      BatchNext(w, v, Install(c, v, pages[k], hosts[k], t), pages[..k], pages[k], t);
    }
  }

  lemma AllStay(w: Win)
    ensures forall x :: x in w.pageMap ==> StaysGuarded(w, w, x)
  {}

  lemma BatchNext(w: Win, v: Win, w': Win, pages: seq<nat>, p: nat, t: nat)
    requires OthersKept(v, w', p) && Guarded(w', p, t)
    requires forall x :: x in v.pageMap ==> StaysGuarded(w, v, x) || (x in pages && Guarded(v, x, t))
    ensures forall x :: x in w'.pageMap ==> StaysGuarded(w, w', x) || (x in pages + [p] && Guarded(w', x, t))
  {
    hide Guarded;
    forall x | x in w'.pageMap && x != p ensures StaysGuarded(w, w', x) || (x in pages + [p] && Guarded(w', x, t)) {
      assert StaysGuarded(v, w', x);
    }
    assert p in pages + [p];
  }
}
